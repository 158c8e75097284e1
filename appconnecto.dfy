/**
 * The decision logic of the portal client: the role and document-type
 * mappings, and how the per-user creation results are sorted into the
 * summary. The browser steps that fill the form are not modelled; each
 * creation's result arrives as a parameter.
 */
module AppConnecto {
  import opened Wrappers

  /** `_map_vinculation_to_role`: teachers get "Docentes", everyone else "Estudiantes". */
  function MapVinculationToRole(vinculationType: string): (role: string)
    ensures role == "Estudiantes" || role == "Docentes"
    ensures role == "Docentes" <==> vinculationType == "Docente"
  {
    if vinculationType == "Estudiante" then "Estudiantes"
    else if vinculationType == "Docente" then "Docentes"
    else "Estudiantes"
  }

  /** `_map_document_type`: the select value, "2" for a foreigner's card and "1" otherwise. */
  function MapDocumentType(typeDocument: string): (value: string)
    ensures value == "1" || value == "2"
    ensures value == "2" <==> typeDocument == "C.E"
  {
    var mapping := map["C.C" := "1", "C.E" := "2"];
    if typeDocument in mapping then mapping[typeDocument] else "1"
  }

  /** The mappings on the two values each validator admits. */
  lemma MappingsOnValidatedValues()
    ensures MapVinculationToRole("Estudiante") == "Estudiantes" && MapVinculationToRole("Docente") == "Docentes"
    ensures MapDocumentType("C.C") == "1" && MapDocumentType("C.E") == "2"
  {
  }

  /** The user record as far as the summary is concerned: its identification number, if present. */
  datatype Account = Account(identificationId: Option<string>)

  /** `user_data.get("identification_id", "unknown")`. */
  function Username(a: Account): (name: string)
    ensures a.identificationId.None? ==> name == "unknown"
  {
    a.identificationId.GetOr("unknown")
  }

  /** What one creation did: returned a result with a status and maybe an error text, or raised. */
  datatype Attempt = Returned(status: string, error: Option<string>) | Raised(message: string)

  /** A failed user in the summary. */
  datatype ErrorEntry = ErrorEntry(username: string, error: string)

  /** Where one user goes. */
  datatype Route = ToCreated(name: string) | ToAlreadyExists(name: string) | ToErrors(entry: ErrorEntry)

  /** The branch of the loop body one user takes. */
  function RouteOf(a: Account, at: Attempt): Route {
    match at
    case Returned(status, error) =>
      if status == "created" then ToCreated(Username(a))
      else if status == "already_exists" then ToAlreadyExists(Username(a))
      else ToErrors(ErrorEntry(Username(a), error.GetOr("Error desconocido")))
    case Raised(message) => ToErrors(ErrorEntry(Username(a), message))
  }

  /**
   * A user is created exactly on a "created" result, already existing exactly
   * on an "already_exists" result, and an error otherwise; an error carries
   * the user's name and the result's error text, "Error desconocido" when it
   * has none, or the exception text.
   */
  lemma RouteOfClassifies(a: Account, at: Attempt)
    ensures RouteOf(a, at).ToCreated? <==> at.Returned? && at.status == "created"
    ensures RouteOf(a, at).ToAlreadyExists? <==> at.Returned? && at.status == "already_exists"
    ensures RouteOf(a, at).ToErrors? ==> RouteOf(a, at).entry.username == Username(a)
    ensures at.Returned? && at.status != "created" && at.status != "already_exists" ==>
              RouteOf(a, at).entry.error == at.error.GetOr("Error desconocido")
    ensures at.Raised? ==> RouteOf(a, at) == ToErrors(ErrorEntry(Username(a), at.message))
  {
  }

  /** The dict `create_users` returns. */
  datatype Summary = Summary(created: seq<string>, alreadyExists: seq<string>, errors: seq<ErrorEntry>, total: nat)

  /** The routes of the users, in order. */
  function Routes(accounts: seq<Account>, attempts: nat -> Attempt): (rs: seq<Route>)
    ensures |rs| == |accounts|
    ensures forall i :: 0 <= i < |accounts| ==> rs[i] == RouteOf(accounts[i], attempts(i))
  {
    seq(|accounts|, i requires 0 <= i < |accounts| => RouteOf(accounts[i], attempts(i)))
  }

  function CreatedOf(rs: seq<Route>): seq<string> {
    if rs == [] then [] else
      CreatedOf(rs[..|rs| - 1]) + (if rs[|rs| - 1].ToCreated? then [rs[|rs| - 1].name] else [])
  }

  function AlreadyExistsOf(rs: seq<Route>): seq<string> {
    if rs == [] then [] else
      AlreadyExistsOf(rs[..|rs| - 1]) + (if rs[|rs| - 1].ToAlreadyExists? then [rs[|rs| - 1].name] else [])
  }

  function ErrorsOf(rs: seq<Route>): seq<ErrorEntry> {
    if rs == [] then [] else
      ErrorsOf(rs[..|rs| - 1]) + (if rs[|rs| - 1].ToErrors? then [rs[|rs| - 1].entry] else [])
  }

  /** What `create_users` returns for these users and results. */
  function CreateUsersSpec(accounts: seq<Account>, attempts: nat -> Attempt): Summary {
    var rs := Routes(accounts, attempts);
    Summary(CreatedOf(rs), AlreadyExistsOf(rs), ErrorsOf(rs), |accounts|)
  }

  /** Every route lands in exactly one list. */
  lemma {:induction false} RoutesPartition(rs: seq<Route>)
    ensures |CreatedOf(rs)| + |AlreadyExistsOf(rs)| + |ErrorsOf(rs)| == |rs|
  {
    if rs != [] {
      RoutesPartition(rs[..|rs| - 1]);
    }
  }

  /** A single list's contents grow by one exactly when the next route goes there. */
  lemma {:induction false} CreatedOfMembers(rs: seq<Route>)
    ensures forall n :: n in CreatedOf(rs) <==> exists i :: 0 <= i < |rs| && rs[i] == ToCreated(n)
  {
    if rs != [] {
      var init := rs[..|rs| - 1];
      CreatedOfMembers(init);
      assert forall i :: 0 <= i < |init| ==> init[i] == rs[i];
      forall n | n in CreatedOf(rs) ensures exists i :: 0 <= i < |rs| && rs[i] == ToCreated(n) {
        if n in CreatedOf(init) {
          var i :| 0 <= i < |init| && init[i] == ToCreated(n);
          assert rs[i] == init[i];
        } else {
          assert rs[|rs| - 1] == ToCreated(n);
        }
      }
    }
  }

  lemma {:induction false} AlreadyExistsOfMembers(rs: seq<Route>)
    ensures forall n :: n in AlreadyExistsOf(rs) <==> exists i :: 0 <= i < |rs| && rs[i] == ToAlreadyExists(n)
  {
    if rs != [] {
      var init := rs[..|rs| - 1];
      AlreadyExistsOfMembers(init);
      assert forall i :: 0 <= i < |init| ==> init[i] == rs[i];
      forall n | n in AlreadyExistsOf(rs) ensures exists i :: 0 <= i < |rs| && rs[i] == ToAlreadyExists(n) {
        if n in AlreadyExistsOf(init) {
          var i :| 0 <= i < |init| && init[i] == ToAlreadyExists(n);
          assert rs[i] == init[i];
        } else {
          assert rs[|rs| - 1] == ToAlreadyExists(n);
        }
      }
    }
  }

  lemma {:induction false} ErrorsOfMembers(rs: seq<Route>)
    ensures forall e :: e in ErrorsOf(rs) <==> exists i :: 0 <= i < |rs| && rs[i] == ToErrors(e)
  {
    if rs != [] {
      var init := rs[..|rs| - 1];
      ErrorsOfMembers(init);
      assert forall i :: 0 <= i < |init| ==> init[i] == rs[i];
      forall e | e in ErrorsOf(rs) ensures exists i :: 0 <= i < |rs| && rs[i] == ToErrors(e) {
        if e in ErrorsOf(init) {
          var i :| 0 <= i < |init| && init[i] == ToErrors(e);
          assert rs[i] == init[i];
        } else {
          assert rs[|rs| - 1] == ToErrors(e);
        }
      }
    }
  }

  /** A "created" result. */
  predicate IsCreated(at: Attempt) { at.Returned? && at.status == "created" }

  /** An "already_exists" result. */
  predicate IsAlreadyExisting(at: Attempt) { at.Returned? && at.status == "already_exists" }

  /** The error text reported for a result that is neither: the result's own, "Error desconocido", or the exception's. */
  function ErrorText(at: Attempt): string {
    if at.Raised? then at.message else at.error.GetOr("Error desconocido")
  }

  /**
   * The summary accounts for every user: the three lists' lengths add up to
   * `total`, which is the number of users; a name is in `created` exactly
   * when some user with that name got a "created" result, in `alreadyExists`
   * exactly when one got an "already_exists" result, and an entry is in
   * `errors` exactly when some user with that name got any other result or
   * raised, with that result's error text.
   */
  lemma {:induction false} CreateUsersPartition(accounts: seq<Account>, attempts: nat -> Attempt)
    ensures var s := CreateUsersSpec(accounts, attempts);
      && s.total == |accounts|
      && |s.created| + |s.alreadyExists| + |s.errors| == s.total
      && (forall n :: n in s.created <==>
            exists i :: 0 <= i < |accounts| && IsCreated(attempts(i)) && Username(accounts[i]) == n)
      && (forall n :: n in s.alreadyExists <==>
            exists i :: 0 <= i < |accounts| && IsAlreadyExisting(attempts(i)) && Username(accounts[i]) == n)
      && (forall e :: e in s.errors <==>
            exists i :: 0 <= i < |accounts| && !IsCreated(attempts(i)) && !IsAlreadyExisting(attempts(i))
                        && e == ErrorEntry(Username(accounts[i]), ErrorText(attempts(i))))
  {
    var rs := Routes(accounts, attempts);
    RoutesPartition(rs);
    CreatedOfMembers(rs);
    AlreadyExistsOfMembers(rs);
    ErrorsOfMembers(rs);
    forall i | 0 <= i < |accounts|
      ensures rs[i] == RouteOf(accounts[i], attempts(i))
      ensures IsCreated(attempts(i)) <==> rs[i] == ToCreated(Username(accounts[i]))
      ensures IsAlreadyExisting(attempts(i)) <==> rs[i] == ToAlreadyExists(Username(accounts[i]))
      ensures (!IsCreated(attempts(i)) && !IsAlreadyExisting(attempts(i)))
          <==> rs[i] == ToErrors(ErrorEntry(Username(accounts[i]), ErrorText(attempts(i))))
    {
      RouteOfClassifies(accounts[i], attempts(i));
    }
  }

  /** `create_users`: try each user in turn, pausing after each, and sort the results. */
  method CreateUsers(accounts: seq<Account>, attempts: nat -> Attempt) returns (s: Summary, pauses: nat)
    ensures s == CreateUsersSpec(accounts, attempts)
    ensures pauses == |accounts|
  {
    var created: seq<string> := [];
    var alreadyExists: seq<string> := [];
    var errors: seq<ErrorEntry> := [];
    pauses := 0;
    ghost var rs := Routes(accounts, attempts);
    for i := 0 to |accounts|
      invariant created == CreatedOf(rs[..i])
      invariant alreadyExists == AlreadyExistsOf(rs[..i])
      invariant errors == ErrorsOf(rs[..i])
      invariant pauses == i
    {
      assert rs[..i + 1][..i] == rs[..i];
      var username := Username(accounts[i]);
      pauses := pauses + 1;
      match attempts(i)
      case Returned(status, error) =>
        if status == "created" {
          created := created + [username];
        } else if status == "already_exists" {
          alreadyExists := alreadyExists + [username];
        } else {
          errors := errors + [ErrorEntry(username, error.GetOr("Error desconocido"))];
        }
      case Raised(message) =>
        errors := errors + [ErrorEntry(username, message)];
    }
    assert rs[..|accounts|] == rs;
    s := Summary(created, alreadyExists, errors, |accounts|);
  }

  /** The summary of a failed login: nothing created, one "login" error, `total` still the number of users. */
  function LoginFailed(accounts: seq<Account>): (s: Summary)
    ensures s.created == [] && s.alreadyExists == [] && s.total == |accounts|
    ensures s.errors == [ErrorEntry("login", "Login fallido")]
  {
    Summary([], [], [ErrorEntry("login", "Login fallido")], |accounts|)
  }

  /** `create_users_in_appconnecto`: log in, then create the users; a failed login creates nobody. */
  method CreateUsersInAppConnecto(loginOk: bool, accounts: seq<Account>, attempts: nat -> Attempt)
    returns (s: Summary, creations: nat)
    ensures !loginOk ==> s == LoginFailed(accounts) && creations == 0
    ensures loginOk ==> s == CreateUsersSpec(accounts, attempts) && creations == |accounts|
  {
    if !loginOk {
      return LoginFailed(accounts), 0;
    }
    var pauses;
    s, pauses := CreateUsers(accounts, attempts);
    creations := |accounts|;
  }
}
