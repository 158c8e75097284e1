/**
 * The per-field validators of a spreadsheet candidate (`UserSchema`) and the
 * extraction of the name parts used to build the institutional address.
 * Each validator normalises its field or rejects it with a message; the
 * record as a whole is accepted only when every field is.
 */
module Schemas {
  import opened Wrappers
  import opened Text
  import opened Records

  // ------------------------------------------------------------------
  // Settings
  // ------------------------------------------------------------------

  const AllowedRequestTypes: seq<string> := ["Apertura", "Activación"]
  const AllowedDocumentTypes: seq<string> := ["C.C", "C.E"]
  const AllowedVinculationTypes: seq<string> := ["Estudiante", "Docente"]

  /** The surname particles written in lower case except as the first word. */
  const Particles: set<string> := {"De", "Del", "La", "Los", "Las", "Y"}

  /** The spellings of a document type that are accepted, after upper-casing. */
  const DocumentMap: map<string, string> :=
    map["CC" := "C.C", "C.C" := "C.C", "C.C." := "C.C", "CE" := "C.E", "C.E" := "C.E", "C.E." := "C.E"]

  /** The rejection message of a value outside an allowed list. */
  function NotAllowed(kind: string, v: string, allowed: seq<string>): string {
    kind + " '" + v + "' no permitido. Valores permitidos: " + JoinWith(", ", allowed)
  }

  /** `strip()` then `title()`, the normalisation of names and of list-valued fields. */
  function TitleStripped(v: string): string {
    Title(Strip(v))
  }

  /** Normalising twice is normalising once. */
  lemma {:induction false} TitleStrippedIdempotent(v: string)
    ensures TitleStripped(TitleStripped(v)) == TitleStripped(v)
  {
    StripIsStripped(v);
    TitleKeepsStripped(Strip(v));
    StripStripped(Title(Strip(v)));
    TitleFromIdempotent(Strip(v), false);
  }

  // ------------------------------------------------------------------
  // request_type, vinculation_type
  // ------------------------------------------------------------------

  /** `validate_request_type`. */
  function ValidateRequestType(v: string): (r: Result<string, string>)
    ensures r.Ok? ==> r.value in AllowedRequestTypes
  {
    var normalized := TitleStripped(v);
    if normalized in AllowedRequestTypes then Ok(normalized)
    else Err(NotAllowed("Tipo de solicitud", v, AllowedRequestTypes))
  }

  /** `validate_vinculation_type`. */
  function ValidateVinculationType(v: string): (r: Result<string, string>)
    ensures r.Ok? ==> r.value in AllowedVinculationTypes
  {
    var normalized := TitleStripped(v);
    if normalized in AllowedVinculationTypes then Ok(normalized)
    else Err(NotAllowed("Tipo de vinculación", v, AllowedVinculationTypes))
  }

  /**
   * A value is accepted exactly when its stripped, title-cased form is
   * allowed, and that form is what comes back; re-validating it changes
   * nothing.
   */
  lemma {:induction false} RequestTypeAccepted(v: string)
    ensures ValidateRequestType(v).Ok? <==> TitleStripped(v) in AllowedRequestTypes
    ensures ValidateRequestType(v).Ok? ==> ValidateRequestType(v).value == TitleStripped(v)
    ensures ValidateRequestType(v).Ok? ==> ValidateRequestType(ValidateRequestType(v).value) == ValidateRequestType(v)
  {
    TitleStrippedIdempotent(v);
  }

  lemma {:induction false} VinculationTypeAccepted(v: string)
    ensures ValidateVinculationType(v).Ok? <==> TitleStripped(v) in AllowedVinculationTypes
    ensures ValidateVinculationType(v).Ok? ==> ValidateVinculationType(v).value == TitleStripped(v)
    ensures ValidateVinculationType(v).Ok? ==> ValidateVinculationType(ValidateVinculationType(v).value) == ValidateVinculationType(v)
  {
    TitleStrippedIdempotent(v);
  }

  /** Lower case and surrounding blanks are accepted; "Actualización" is not an allowed request type. */
  lemma {:induction false} RequestTypeExamples(a: string, b: string)
    requires a == " apertura " && b == "Actualización"
    ensures ValidateRequestType(a) == Ok("Apertura")
    ensures ValidateRequestType(b).Err?
  {
    PaddedWordTitle(a, " ", "apertura", " ", "Apertura");
    StripStripped(b);
    assert |Title(b)| == 13;
  }

  /** `strip()` then `title()` of one padded word, spelled out. */
  lemma {:induction false} PaddedWordTitle(v: string, pre: string, w: string, post: string, t: string)
    requires v == pre + w + post && IsSpaces(pre) && IsSpaces(post)
    requires w != [] && IsLetters(w)
    requires t == [UpperChar(w[0])] + Lower(w[1..])
    ensures TitleStripped(v) == t
  {
    StripPadded(pre, w, post);
    TitleOfWord(w, t);
  }

  // ------------------------------------------------------------------
  // full_name, academic_program
  // ------------------------------------------------------------------

  /** `validate_full_name`: never rejects; the words of the stripped input, each title-cased. */
  function ValidateFullName(v: string): (r: string)
    ensures IsStripped(r) && |r| == |Strip(v)|
    ensures Split(r) == MapTitle(Split(Strip(v)))
  {
    StripIsStripped(v);
    TitleKeepsStripped(Strip(v));
    SplitTitle(Strip(v));
    TitleStripped(v)
  }

  lemma {:induction false} FullNameIdempotent(v: string)
    ensures ValidateFullName(ValidateFullName(v)) == ValidateFullName(v)
  {
    TitleStrippedIdempotent(v);
  }

  lemma {:induction false} FullNameExample(v: string)
    requires v == "  Pedro  "
    ensures ValidateFullName(v) == "Pedro"
  {
    PaddedWordTitle(v, "  ", "Pedro", "  ", "Pedro");
  }

  /** `validate_academic_program`: never rejects; the input without its surrounding whitespace. */
  function ValidateAcademicProgram(v: string): (r: string)
    ensures IsStripped(r)
    ensures exists i :: 0 <= i <= |v| - |r| && v[i..i + |r|] == r && IsSpaces(v[..i]) && IsSpaces(v[i + |r|..])
  {
    StripIsStripped(v);
    StripCore(v);
    Strip(v)
  }

  // ------------------------------------------------------------------
  // full_last_name
  // ------------------------------------------------------------------

  /** A particle is lower-cased; any other word is kept. */
  function ParticleCase(w: string): string {
    if w in Particles then Lower(w) else w
  }

  /** The word list `validate_full_last_name` builds: the first word as is, the others particle-cased. */
  function LastNameWords(ws: seq<string>): (r: seq<string>)
    ensures |r| == |ws|
  {
    seq(|ws|, i requires 0 <= i < |ws| => if i == 0 then ws[0] else ParticleCase(ws[i]))
  }

  /** What `validate_full_last_name` returns. */
  function FullLastName(v: string): string {
    Join(LastNameWords(Split(TitleStripped(v))))
  }

  /** `validate_full_last_name`: the loop over the words. */
  method ValidateFullLastName(v: string) returns (r: string)
    ensures r == FullLastName(v)
  {
    var words := Split(TitleStripped(v));
    var result: seq<string> := [];
    var i := 0;
    while i < |words|
      invariant 0 <= i <= |words|
      invariant result == LastNameWords(words)[..i]
    {
      if i == 0 {
        result := result + [words[i]];
      } else if words[i] in Particles {
        result := result + [Lower(words[i])];
      } else {
        result := result + [words[i]];
      }
      i := i + 1;
    }
    assert result == LastNameWords(words);
    r := Join(result);
  }

  lemma {:induction false} LowerNoSpace(w: string)
    requires NoSpace(w)
    ensures NoSpace(Lower(w))
  {
  }

  /** The result's words are the title-cased words with the particles after the first lower-cased. */
  lemma {:induction false} FullLastNameWords(v: string)
    ensures Split(FullLastName(v)) == LastNameWords(Split(TitleStripped(v)))
    ensures Split(TitleStripped(v)) == MapTitle(Split(Strip(v)))
  {
    var ws := LastNameWords(Split(TitleStripped(v)));
    forall i | 0 <= i < |ws|
      ensures IsWord(ws[i])
    {
      if i > 0 {
        LowerNoSpace(Split(TitleStripped(v))[i]);
      }
    }
    SplitJoin(ws);
    SplitTitle(Strip(v));
  }

  /** Words joined by single spaces have no whitespace at either end. */
  lemma {:induction false} JoinWordsStripped(ws: seq<string>)
    requires forall i :: 0 <= i < |ws| ==> IsWord(ws[i])
    ensures IsStripped(Join(ws))
    ensures Join(ws) != [] ==> !IsSpace(Join(ws)[0]) && !IsSpace(Join(ws)[|Join(ws)| - 1])
  {
    if |ws| > 1 {
      JoinWordsStripped(ws[1..]);
      assert forall k :: 0 <= k < |ws[1..]| ==> IsWord(ws[1..][k]);
      assert ws[1] == ws[1..][0];
    }
  }

  /** Title-casing a particle-cased title word gives the word back. */
  lemma {:induction false} TitleOfParticleCase(w: string, x: string)
    requires w == Title(x)
    ensures Title(w) == w && Title(ParticleCase(w)) == w
  {
    TitleFromIdempotent(x, false);
    assert Title(w) == w;
    TitleFromLower(w, false);
    assert Title(Lower(w)) == Title(w);
  }

  /** A value `validate_full_last_name` produced is left as it is. */
  lemma {:induction false} FullLastNameIdempotent(v: string)
    ensures FullLastName(FullLastName(v)) == FullLastName(v)
  {
    var s := FullLastName(v);
    var words := Split(TitleStripped(v));
    var f := LastNameWords(words);
    FullLastNameWords(v);
    forall i | 0 <= i < |f|
      ensures IsWord(f[i])
    {
      if i > 0 {
        LowerNoSpace(words[i]);
      }
    }
    JoinWordsStripped(f);
    StripStripped(s);
    SplitTitle(s);
    forall i | 0 <= i < |f|
      ensures MapTitle(f)[i] == words[i]
    {
      TitleOfParticleCase(words[i], Split(Strip(v))[i]);
    }
    assert MapTitle(f) == words;
    assert Split(TitleStripped(s)) == words;
  }

  /** "SILVA DE LA CRUZ" becomes "Silva de la Cruz". */
  lemma {:induction false} FullLastNameParticles(a: string)
    requires a == "SILVA DE LA CRUZ"
    ensures FullLastName(a) == "Silva de la Cruz"
  {
    ParticlesSteps(a, "SILVA", "DE", "LA", "CRUZ", "Silva", "De", "La", "Cruz", "de", "la", "Silva de la Cruz");
  }

  lemma {:induction false} ParticlesSteps(a: string, w1: string, w2: string, w3: string, w4: string,
                                          t1: string, t2: string, t3: string, t4: string, l2: string, l3: string, out: string)
    requires w1 == "SILVA" && w2 == "DE" && w3 == "LA" && w4 == "CRUZ"
    requires t1 == "Silva" && t2 == "De" && t3 == "La" && t4 == "Cruz" && l2 == "de" && l3 == "la"
    requires a == w1 + " " + w2 + " " + w3 + " " + w4
    requires out == t1 + " " + l2 + " " + l3 + " " + t4
    ensures FullLastName(a) == out
  {
    ParticlesTitles(w1, w2, w3, w4, t1, t2, t3, t4);
    FourWords(a, w1, w2, w3, w4);
    assert Lower(t2) == l2 && Lower(t3) == l3;
    assert LastNameWords([t1, t2, t3, t4]) == [t1, l2, l3, t4];
    JoinFour(t1, l2, l3, t4);
  }

  lemma {:induction false} ParticlesTitles(w1: string, w2: string, w3: string, w4: string,
                                           t1: string, t2: string, t3: string, t4: string)
    requires w1 == "SILVA" && w2 == "DE" && w3 == "LA" && w4 == "CRUZ"
    requires t1 == "Silva" && t2 == "De" && t3 == "La" && t4 == "Cruz"
    ensures IsWord(w1) && IsWord(w2) && IsWord(w3) && IsWord(w4)
    ensures Title(w1) == t1 && Title(w2) == t2 && Title(w3) == t3 && Title(w4) == t4
  {
    TitleOfWord(w1, t1);
    TitleOfWord(w2, t2);
    TitleOfWord(w3, t3);
    TitleOfWord(w4, t4);
  }

  /** "DEL CARMEN RODRIGUEZ" keeps "Del": a particle is lower-cased only after the first word. */
  lemma {:induction false} FullLastNameLeadingParticle(b: string)
    requires b == "DEL CARMEN RODRIGUEZ"
    ensures FullLastName(b) == "Del Carmen Rodriguez"
  {
    LeadingParticleSteps(b, "DEL", "CARMEN", "RODRIGUEZ", "Del", "Carmen", "Rodriguez", "Del Carmen Rodriguez");
  }

  lemma {:induction false} LeadingParticleSteps(b: string, w1: string, w2: string, w3: string,
                                                t1: string, t2: string, t3: string, out: string)
    requires w1 == "DEL" && w2 == "CARMEN" && w3 == "RODRIGUEZ"
    requires t1 == "Del" && t2 == "Carmen" && t3 == "Rodriguez"
    requires b == w1 + " " + w2 + " " + w3
    requires out == t1 + " " + t2 + " " + t3
    ensures FullLastName(b) == out
  {
    LeadingParticleTitles(w1, w2, w3, t1, t2, t3);
    ThreeWords(b, w1, w2, w3);
    LeadingParticleKept(t1, t2, t3);
    JoinThree(t1, t2, t3);
  }

  lemma {:induction false} LeadingParticleKept(t1: string, t2: string, t3: string)
    requires t1 == "Del" && t2 == "Carmen" && t3 == "Rodriguez"
    ensures LastNameWords([t1, t2, t3]) == [t1, t2, t3]
  {
    assert t2 !in Particles && t3 !in Particles;
  }

  lemma {:induction false} LeadingParticleTitles(w1: string, w2: string, w3: string, t1: string, t2: string, t3: string)
    requires w1 == "DEL" && w2 == "CARMEN" && w3 == "RODRIGUEZ"
    requires t1 == "Del" && t2 == "Carmen" && t3 == "Rodriguez"
    ensures IsWord(w1) && IsWord(w2) && IsWord(w3)
    ensures Title(w1) == t1 && Title(w2) == t2 && Title(w3) == t3
  {
    TitleOfWord(w1, t1);
    TitleOfWord(w2, t2);
    RodriguezTitle(w3, t3);
  }

  lemma {:induction false} RodriguezTitle(w: string, t: string)
    requires w == "RODRIGUEZ" && t == "Rodriguez"
    ensures IsWord(w) && Title(w) == t
  {
    assert w[1..] == "ODRIGUEZ";
    TitleOfWord(w, t);
  }

  /** `title()` of a run of letters, spelled out. */
  lemma {:induction false} TitleOfWord(w: string, t: string)
    requires w != [] && IsLetters(w)
    requires t == [UpperChar(w[0])] + Lower(w[1..])
    ensures IsWord(w) && Title(w) == t
  {
    TitleOfLetters(w);
  }

  /** Helper for the examples: `' '.join` of four words, written out. */
  lemma {:induction false} JoinFour(w1: string, w2: string, w3: string, w4: string)
    ensures Join([w1, w2, w3, w4]) == w1 + " " + w2 + " " + w3 + " " + w4
  {
    assert [w1, w2, w3, w4][1..] == [w2, w3, w4];
    JoinThree(w2, w3, w4);
    assert w1 + " " + (w2 + " " + w3 + " " + w4) == w1 + " " + w2 + " " + w3 + " " + w4;
  }

  /** Helper for the examples: `' '.join` of three words, written out. */
  lemma {:induction false} JoinThree(w1: string, w2: string, w3: string)
    ensures Join([w1, w2, w3]) == w1 + " " + w2 + " " + w3
  {
    assert [w2, w3][1..] == [w3];
    assert Join([w2, w3]) == w2 + " " + w3;
    assert [w1, w2, w3][1..] == [w2, w3];
    assert w1 + " " + (w2 + " " + w3) == w1 + " " + w2 + " " + w3;
  }

  /** The words of a four-word name, title-cased. */
  lemma {:induction false} FourWords(s: string, w1: string, w2: string, w3: string, w4: string)
    requires IsWord(w1) && IsWord(w2) && IsWord(w3) && IsWord(w4)
    requires s == w1 + " " + w2 + " " + w3 + " " + w4
    ensures Split(TitleStripped(s)) == [Title(w1), Title(w2), Title(w3), Title(w4)]
  {
    var ws := [w1, w2, w3, w4];
    assert forall i :: 0 <= i < |ws| ==> IsWord(ws[i]);
    JoinFour(w1, w2, w3, w4);
    JoinWordsStripped(ws);
    StripStripped(s);
    SplitJoin(ws);
    assert Split(s) == ws;
    SplitTitle(s);
    assert MapTitle(ws) == [Title(w1), Title(w2), Title(w3), Title(w4)];
  }

  /** The words of a three-word name, title-cased. */
  lemma {:induction false} ThreeWords(s: string, w1: string, w2: string, w3: string)
    requires IsWord(w1) && IsWord(w2) && IsWord(w3)
    requires s == w1 + " " + w2 + " " + w3
    ensures Split(TitleStripped(s)) == [Title(w1), Title(w2), Title(w3)]
  {
    var ws := [w1, w2, w3];
    assert forall i :: 0 <= i < |ws| ==> IsWord(ws[i]);
    JoinThree(w1, w2, w3);
    JoinWordsStripped(ws);
    StripStripped(s);
    SplitJoin(ws);
    assert Split(s) == ws;
    SplitTitle(s);
    assert MapTitle(ws) == [Title(w1), Title(w2), Title(w3)];
  }

  // ------------------------------------------------------------------
  // type_document
  // ------------------------------------------------------------------

  /** `validate_type_document`. */
  function ValidateTypeDocument(v: string): (r: Result<string, string>)
    ensures r.Ok? ==> r.value == "C.C" || r.value == "C.E"
  {
    var normalized := Upper(Strip(v));
    if normalized in DocumentMap && DocumentMap[normalized] in AllowedDocumentTypes then Ok(DocumentMap[normalized])
    else Err(NotAllowed("Tipo de documento", v, AllowedDocumentTypes))
  }

  /**
   * After strip and upper-case, CC, C.C and C.C. give "C.C", CE, C.E and
   * C.E. give "C.E", and every other value is rejected.
   */
  lemma {:induction false} TypeDocumentAccepted(v: string)
    ensures var n := Upper(Strip(v));
      && (ValidateTypeDocument(v) == Ok("C.C") <==> n == "CC" || n == "C.C" || n == "C.C.")
      && (ValidateTypeDocument(v) == Ok("C.E") <==> n == "CE" || n == "C.E" || n == "C.E.")
      && (ValidateTypeDocument(v).Err? <==> n !in DocumentMap)
  {
  }

  /** Each normalised value is accepted as itself. */
  lemma {:induction false} TypeDocumentIdempotent(v: string)
    requires ValidateTypeDocument(v).Ok?
    ensures ValidateTypeDocument(ValidateTypeDocument(v).value) == ValidateTypeDocument(v)
  {
    var r := ValidateTypeDocument(v).value;
    StripStripped(r);
    if r == "C.C" {
      assert Upper(r) == "C.C";
    } else {
      assert Upper(r) == "C.E";
    }
  }

  lemma {:induction false} TypeDocumentExamples(a: string, b: string)
    requires a == "cc" && b == " C.E. "
    ensures ValidateTypeDocument(a) == Ok("C.C")
    ensures ValidateTypeDocument(b) == Ok("C.E")
  {
    StripStripped(a);
    assert Upper(a) == "CC";
    assert b == " " + "C.E." + " ";
    StripPadded(" ", "C.E.", " ");
    assert Upper("C.E.") == "C.E.";
  }

  // ------------------------------------------------------------------
  // identification_id
  // ------------------------------------------------------------------

  /** `str.isdigit()`: non-empty and only digits. */
  predicate IsDigits(s: string) {
    s != [] && forall i :: 0 <= i < |s| ==> IsDigit(s[i])
  }

  /** `validate_identification_id`. */
  function ValidateIdentificationId(v: string): (r: Result<string, string>)
    ensures r.Ok? ==> IsDigits(r.value)
  {
    var normalized := Strip(v);
    if !IsDigits(normalized) then Err("Número de identificación '" + v + "' debe contener solo dígitos")
    else Ok(normalized)
  }

  /**
   * Accepted exactly when the stripped value is a non-empty run of digits,
   * and then returned unchanged: no padding, no leading zeros dropped.
   */
  lemma {:induction false} IdentificationIdAccepted(v: string)
    ensures ValidateIdentificationId(v).Ok? <==> IsDigits(Strip(v))
    ensures ValidateIdentificationId(v).Ok? ==> ValidateIdentificationId(v).value == Strip(v)
    ensures ValidateIdentificationId(v).Ok? ==> ValidateIdentificationId(ValidateIdentificationId(v).value) == ValidateIdentificationId(v)
  {
    if IsDigits(Strip(v)) {
      StripIsStripped(v);
      StripStripped(Strip(v));
    }
  }

  lemma {:induction false} IdentificationIdExamples(a: string, b: string, c: string)
    requires a == "  456  " && b == "abc123" && c == ""
    ensures ValidateIdentificationId(a) == Ok("456")
    ensures ValidateIdentificationId(b).Err? && ValidateIdentificationId(c).Err?
  {
    assert a == "  " + "456" + "  ";
    StripPadded("  ", "456", "  ");
    StripStripped(b);
  }

  // ------------------------------------------------------------------
  // The whole record
  // ------------------------------------------------------------------

  /** The eight input fields of a candidate, raw or validated. */
  datatype Fields = Fields(
    requestType: string,
    fullName: string,
    fullLastName: string,
    typeDocument: string,
    identificationId: string,
    vinculationType: string,
    academicProgram: string,
    emailPersonal: string)

  /** One failed field: its name and the validator's message, as the validation library reports it. */
  datatype FieldError = FieldError(field: string, msg: string)

  /** The validation library's wording for a message raised by a validator. */
  function ValueError(msg: string): string {
    "Value error, " + msg
  }

  function ErrorOf(field: string, r: Result<string, string>): seq<FieldError> {
    if r.Err? then [FieldError(field, ValueError(r.error))] else []
  }

  /** The field errors, in declaration order. */
  function FieldErrors(raw: Fields): seq<FieldError> {
    ErrorOf("request_type", ValidateRequestType(raw.requestType))
    + ErrorOf("type_document", ValidateTypeDocument(raw.typeDocument))
    + ErrorOf("identification_id", ValidateIdentificationId(raw.identificationId))
    + ErrorOf("vinculation_type", ValidateVinculationType(raw.vinculationType))
  }

  /** Building a `UserSchema`: every validator runs; any failure rejects the record with all field errors. */
  function Validate(raw: Fields): (r: Result<Fields, seq<FieldError>>)
    ensures r.Err? ==> r.error != []
  {
    var errors := FieldErrors(raw);
    if errors != [] then Err(errors)
    else Ok(Fields(
      ValidateRequestType(raw.requestType).value,
      ValidateFullName(raw.fullName),
      FullLastName(raw.fullLastName),
      ValidateTypeDocument(raw.typeDocument).value,
      ValidateIdentificationId(raw.identificationId).value,
      ValidateVinculationType(raw.vinculationType).value,
      ValidateAcademicProgram(raw.academicProgram),
      raw.emailPersonal))
  }

  /**
   * A record is accepted exactly when the four rejecting validators accept
   * their fields, and the accepted record holds the normalised values.
   */
  lemma {:induction false} ValidateAccepts(raw: Fields)
    ensures var r := Validate(raw);
      && (r.Ok? <==> ValidateRequestType(raw.requestType).Ok? && ValidateTypeDocument(raw.typeDocument).Ok?
                     && ValidateIdentificationId(raw.identificationId).Ok? && ValidateVinculationType(raw.vinculationType).Ok?)
      && (r.Ok? ==> r.value.requestType in AllowedRequestTypes && r.value.vinculationType in AllowedVinculationTypes
                    && (r.value.typeDocument == "C.C" || r.value.typeDocument == "C.E")
                    && IsDigits(r.value.identificationId)
                    && r.value.fullName == ValidateFullName(raw.fullName)
                    && r.value.fullLastName == FullLastName(raw.fullLastName))
  {
  }

  /** The names of the fields an error list reports. */
  function FieldNames(errors: seq<FieldError>): (r: seq<string>)
    ensures |r| == |errors|
  {
    seq(|errors|, i requires 0 <= i < |errors| => errors[i].field)
  }

  lemma {:induction false} FieldNamesOfErrorOf(field: string, r: Result<string, string>)
    ensures FieldNames(ErrorOf(field, r)) == if r.Err? then [field] else []
  {
  }

  lemma {:induction false} FieldNamesConcat(a: seq<FieldError>, b: seq<FieldError>)
    ensures FieldNames(a + b) == FieldNames(a) + FieldNames(b)
  {
  }

  /** Four optional, pairwise distinct names laid end to end. */
  lemma {:induction false} FourOptionalNames(names: seq<string>, n1: string, n2: string, n3: string, n4: string,
                                             x1: bool, x2: bool, x3: bool, x4: bool)
    requires n1 != n2 && n1 != n3 && n1 != n4 && n2 != n3 && n2 != n4 && n3 != n4
    requires names == (if x1 then [n1] else []) + (if x2 then [n2] else [])
                      + (if x3 then [n3] else []) + (if x4 then [n4] else [])
    ensures (n1 in names <==> x1) && (n2 in names <==> x2) && (n3 in names <==> x3) && (n4 in names <==> x4)
    ensures |names| <= 4
  {
  }

  /** A rejection names each failing field, and only those. */
  lemma {:induction false} ValidateReportsFailingFields(raw: Fields)
    requires Validate(raw).Err?
    ensures var names := FieldNames(Validate(raw).error);
      && ("request_type" in names <==> ValidateRequestType(raw.requestType).Err?)
      && ("type_document" in names <==> ValidateTypeDocument(raw.typeDocument).Err?)
      && ("identification_id" in names <==> ValidateIdentificationId(raw.identificationId).Err?)
      && ("vinculation_type" in names <==> ValidateVinculationType(raw.vinculationType).Err?)
      && |names| <= 4
  {
    var ra, rb := ValidateRequestType(raw.requestType), ValidateTypeDocument(raw.typeDocument);
    var rc, rd := ValidateIdentificationId(raw.identificationId), ValidateVinculationType(raw.vinculationType);
    var a, b := ErrorOf("request_type", ra), ErrorOf("type_document", rb);
    var c, d := ErrorOf("identification_id", rc), ErrorOf("vinculation_type", rd);
    assert Validate(raw).error == a + b + c + d;
    FieldNamesConcat(a + b + c, d);
    FieldNamesConcat(a + b, c);
    FieldNamesConcat(a, b);
    FieldNamesOfErrorOf("request_type", ra);
    FieldNamesOfErrorOf("type_document", rb);
    FieldNamesOfErrorOf("identification_id", rc);
    FieldNamesOfErrorOf("vinculation_type", rd);
    FourOptionalNames(FieldNames(Validate(raw).error), "request_type", "type_document", "identification_id",
                      "vinculation_type", ra.Err?, rb.Err?, rc.Err?, rd.Err?);
  }

  // ------------------------------------------------------------------
  // extract_names_for_email
  // ------------------------------------------------------------------

  /** The first word of `s`, or "". */
  function FirstWord(s: string): string {
    var ws := Split(s);
    if ws != [] then ws[0] else ""
  }

  /** The second word of `s`, or "". */
  function SecondWord(s: string): string {
    var ws := Split(s);
    if |ws| > 1 then ws[1] else ""
  }

  /**
   * On names made of words separated by single blanks, the parts are the
   * first given name, the first surname and the second surname, which may
   * be a particle such as "de".
   */
  lemma {:induction false} NamePartsOfWords(givens: seq<string>, surnames: seq<string>)
    requires forall i :: 0 <= i < |givens| ==> IsWord(givens[i])
    requires forall i :: 0 <= i < |surnames| ==> IsWord(surnames[i])
    ensures FirstWord(Join(givens)) == if givens != [] then givens[0] else ""
    ensures FirstWord(Join(surnames)) == if surnames != [] then surnames[0] else ""
    ensures SecondWord(Join(surnames)) == if |surnames| > 1 then surnames[1] else ""
  {
    SplitJoin(givens);
    SplitJoin(surnames);
  }

  /** A validated candidate. */
  class UserSchema {
    var requestType: string
    var fullName: string
    var fullLastName: string
    var typeDocument: string
    var identificationId: string
    var vinculationType: string
    var academicProgram: string
    var emailPersonal: string
    var firstName: Option<string>
    var firstLastName: Option<string>
    var secondLastName: Option<string>
    var institutionalEmail: Option<string>

    /** The validated fields, with the derived ones unset. */
    constructor (f: Fields)
      ensures requestType == f.requestType && fullName == f.fullName && fullLastName == f.fullLastName
      ensures typeDocument == f.typeDocument && identificationId == f.identificationId
      ensures vinculationType == f.vinculationType && academicProgram == f.academicProgram
      ensures emailPersonal == f.emailPersonal
      ensures firstName.None? && firstLastName.None? && secondLastName.None? && institutionalEmail.None?
    {
      requestType := f.requestType;
      fullName := f.fullName;
      fullLastName := f.fullLastName;
      typeDocument := f.typeDocument;
      identificationId := f.identificationId;
      vinculationType := f.vinculationType;
      academicProgram := f.academicProgram;
      emailPersonal := f.emailPersonal;
      firstName := None;
      firstLastName := None;
      secondLastName := None;
      institutionalEmail := None;
    }

    /** `extract_names_for_email`: sets the three name parts and nothing else. */
    method ExtractNamesForEmail()
      modifies this`firstName, this`firstLastName, this`secondLastName
      ensures firstName == Some(FirstWord(fullName))
      ensures firstLastName == Some(FirstWord(fullLastName))
      ensures secondLastName == Some(SecondWord(fullLastName))
    {
      var nameParts := Split(fullName);
      firstName := if nameParts != [] then Some(nameParts[0]) else Some("");
      var lastNameParts := Split(fullLastName);
      firstLastName := if lastNameParts != [] then Some(lastNameParts[0]) else Some("");
      secondLastName := if |lastNameParts| > 1 then Some(lastNameParts[1]) else Some("");
    }

    /** `model_dump()` of a candidate whose names have been extracted, as the pipeline's record. */
    function ModelDump(): (u: User)
      reads this
      requires firstName.Some? && firstLastName.Some? && secondLastName.Some?
      ensures u.firstName == firstName.value && u.firstLastName == firstLastName.value
      ensures u.secondLastName == secondLastName.value
      ensures u.status == NoStatus && u.creation.None? && u.institutionalEmail == institutionalEmail
    {
      User(requestType, fullName, fullLastName, typeDocument, identificationId, vinculationType,
           academicProgram, emailPersonal, firstName.value, firstLastName.value, secondLastName.value,
           institutionalEmail, NoStatus, None, None, None)
    }
  }

  /** The record a validated candidate contributes, once its names are extracted. */
  function Candidate(f: Fields): (u: User)
    ensures u.firstName == FirstWord(f.fullName) && u.firstLastName == FirstWord(f.fullLastName)
    ensures u.secondLastName == SecondWord(f.fullLastName)
    ensures u.status == NoStatus && u.institutionalEmail.None? && u.creation.None?
  {
    User(f.requestType, f.fullName, f.fullLastName, f.typeDocument, f.identificationId, f.vinculationType,
         f.academicProgram, f.emailPersonal, FirstWord(f.fullName), FirstWord(f.fullLastName),
         SecondWord(f.fullLastName), None, NoStatus, None, None, None)
  }

  /** Building the schema object, extracting the names and dumping it gives `Candidate`. */
  method BuildCandidate(f: Fields) returns (u: User)
    ensures u == Candidate(f)
  {
    var schema := new UserSchema(f);
    schema.ExtractNamesForEmail();
    u := schema.ModelDump();
  }

  /** The documented example record: "Laura Sofia" / "Becerra Sandoval" gives Laura, Becerra, Sandoval. */
  lemma {:induction false} CandidateExample(f: Fields)
    requires f.fullName == "Laura Sofia" && f.fullLastName == "Becerra Sandoval"
    ensures Candidate(f).firstName == "Laura"
    ensures Candidate(f).firstLastName == "Becerra" && Candidate(f).secondLastName == "Sandoval"
  {
    assert Join(["Laura", "Sofia"]) == f.fullName;
    assert Join(["Becerra", "Sandoval"]) == f.fullLastName;
    NamePartsOfWords(["Laura", "Sofia"], ["Becerra", "Sandoval"]);
  }
}
