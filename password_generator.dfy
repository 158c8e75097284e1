/**
 * Temporary passwords: a rejection loop that draws characters from four
 * unambiguous alphabets until every alphabet is represented, and a batch of
 * pairwise-distinct passwords. The random source is a parameter: draw `k`
 * picks the character at `choice(k)` modulo the pool size. Where the source
 * loops until it succeeds, the model is given a budget of rounds.
 */
module PasswordGenerator {
  import opened Wrappers

  const Uppercase: string := "ABCDEFGHJKLMNPQRSTUVWXYZ"
  const Lowercase: string := "abcdefghjkmnpqrstuvwxyz"
  const Digits: string := "23456789"
  const Symbols: string := "@#$%&*+=?"

  /** The pool every character is drawn from. */
  function AllChars(): (pool: string)
    ensures |pool| == |Uppercase| + |Lowercase| + |Digits| + |Symbols|
  {
    Uppercase + Lowercase + Digits + Symbols
  }

  /** The characters the alphabets leave out because they are easily confused. */
  const Ambiguous: set<char> := {'0', 'O', 'l', '1', 'I'}

  predicate Unambiguous(c: char) {
    c != '0' && c != 'O' && c != 'l' && c != '1' && c != 'I'
  }

  lemma UppercaseUnambiguous()
    ensures forall i :: 0 <= i < |Uppercase| ==> Unambiguous(Uppercase[i])
  {
  }

  lemma LowercaseUnambiguous()
    ensures forall i :: 0 <= i < |Lowercase| ==> Unambiguous(Lowercase[i])
  {
  }

  lemma DigitsSymbolsUnambiguous()
    ensures forall i :: 0 <= i < |Digits| ==> Unambiguous(Digits[i])
    ensures forall i :: 0 <= i < |Symbols| ==> Unambiguous(Symbols[i])
  {
  }

  /** None of the confusable characters is in the pool. */
  lemma {:induction false} NoAmbiguousInPool()
    ensures forall c :: c in AllChars() ==> c !in Ambiguous
  {
    UppercaseUnambiguous();
    LowercaseUnambiguous();
    DigitsSymbolsUnambiguous();
    forall c | c in AllChars() ensures Unambiguous(c) {
      var k :| 0 <= k < |AllChars()| && AllChars()[k] == c;
      var a, b, d := |Uppercase|, |Uppercase| + |Lowercase|, |Uppercase| + |Lowercase| + |Digits|;
      if k < a {
        assert c == Uppercase[k];
      } else if k < b {
        assert c == Lowercase[k - a];
      } else if k < d {
        assert c == Digits[k - b];
      } else {
        assert c == Symbols[k - d];
      }
    }
  }

  /** `any(c in alphabet for c in password)`. */
  predicate HasAny(password: string, alphabet: string) {
    exists i :: 0 <= i < |password| && password[i] in alphabet
  }

  /** The acceptance test of the loop: one character of each kind. */
  predicate HasEveryKind(password: string) {
    HasAny(password, Uppercase) && HasAny(password, Lowercase) && HasAny(password, Digits) && HasAny(password, Symbols)
  }

  /** What the source promises of a password of the given length. */
  predicate ValidPassword(password: string, length: int) {
    && |password| == length
    && (forall i :: 0 <= i < |password| ==> password[i] in AllChars())
    && HasEveryKind(password)
  }

  /** A valid password contains none of the confusable characters. */
  lemma {:induction false} ValidPasswordUnambiguous(password: string, length: int)
    requires ValidPassword(password, length)
    ensures forall i :: 0 <= i < |password| ==> password[i] !in Ambiguous
  {
    NoAmbiguousInPool();
  }

  /** One candidate: `length` characters picked by draws `start`, `start + 1`, and so on. */
  function Draw(choice: nat -> nat, start: nat, length: nat): (p: string)
    ensures |p| == length
  {
    seq(length, j requires 0 <= j < length => AllChars()[choice(start + j) % |AllChars()|])
  }

  /** Every drawn character comes from the pool. */
  lemma DrawInPool(choice: nat -> nat, start: nat, length: nat)
    ensures forall i :: 0 <= i < length ==> Draw(choice, start, length)[i] in AllChars()
  {
  }

  /** One more draw appends one more character. */
  lemma DrawNext(choice: nat -> nat, start: nat, j: nat)
    ensures Draw(choice, start, j + 1) == Draw(choice, start, j) + [AllChars()[choice(start + j) % |AllChars()|]]
  {
    var d, e := Draw(choice, start, j + 1), Draw(choice, start, j);
    assert forall m :: 0 <= m < j ==> d[m] == e[m];
  }

  /** What a call returns: a password, the error for a too-short length, or an exhausted budget. */
  datatype Generated = Password(value: string) | TooShort(error: string) | OutOfRounds

  const TooShortMessage: string := "La contraseña debe tener al menos 8 caracteres"

  /** Where round `k` of a call starting at draw `start` begins: `start + k * length`. */
  function RoundStart(start: nat, length: nat, k: nat): nat {
    if k == 0 then start else RoundStart(start, length, k - 1) + length
  }

  /** The candidate of round `k`. */
  function Candidate(choice: nat -> nat, start: nat, length: nat, k: nat): string {
    Draw(choice, RoundStart(start, length, k), length)
  }

  /** The candidate of round `k` fails the acceptance test. */
  predicate Rejected(choice: nat -> nat, start: nat, length: nat, k: nat) {
    !HasEveryKind(Candidate(choice, start, length, k))
  }

  /** The acceptance test, round by round. */
  function Accepts(choice: nat -> nat, start: nat, length: nat): nat -> bool {
    (k: nat) => HasEveryKind(Candidate(choice, start, length, k))
  }

  /** The first round from `k` on, below `rounds`, that `accepted` holds of. */
  function FirstAccepted(accepted: nat -> bool, k: nat, rounds: nat): (r: Option<nat>)
    ensures r.None? <==> forall j :: k <= j < rounds ==> !accepted(j)
    ensures r.Some? ==> k <= r.value < rounds && accepted(r.value)
    ensures r.Some? ==> forall j :: k <= j < r.value ==> !accepted(j)
    decreases rounds - k
  {
    if k >= rounds then None
    else if accepted(k) then Some(k)
    else FirstAccepted(accepted, k + 1, rounds)
  }

  /** The first acceptable candidate within `rounds` rounds. */
  function FirstAcceptable(choice: nat -> nat, start: nat, length: nat, rounds: nat): Generated {
    match FirstAccepted(Accepts(choice, start, length), 0, rounds)
    case None => OutOfRounds
    case Some(k) => Password(Candidate(choice, start, length, k))
  }

  /** Where the next call's draws start: after the accepted round, or after the last round. */
  function NextStart(choice: nat -> nat, start: nat, length: nat, rounds: nat): nat {
    match FirstAccepted(Accepts(choice, start, length), 0, rounds)
    case None => RoundStart(start, length, rounds)
    case Some(k) => RoundStart(start, length, k + 1)
  }

  /** `generate_secure_password`, given its random draws and a budget of rounds. */
  function GenerateSpec(length: int, choice: nat -> nat, start: nat, rounds: nat): Generated {
    if length < 8 then TooShort(TooShortMessage) else FirstAcceptable(choice, start, length, rounds)
  }

  /**
   * The loop gives up exactly when every candidate within the budget was
   * rejected, and a returned password is valid and is the first acceptable
   * candidate: that of some round whose earlier rounds were all rejected.
   */
  lemma FirstAcceptableIsFirst(choice: nat -> nat, start: nat, length: nat, rounds: nat)
    ensures var g := FirstAcceptable(choice, start, length, rounds);
      && !g.TooShort?
      && (g.OutOfRounds? <==> forall j :: 0 <= j < rounds ==> Rejected(choice, start, length, j))
      && (g.Password? ==> ValidPassword(g.value, length))
      && (g.Password? ==> exists j :: 0 <= j < rounds && g.value == Candidate(choice, start, length, j) &&
                                      forall i :: 0 <= i < j ==> Rejected(choice, start, length, i))
  {
    var acc := Accepts(choice, start, length);
    assert forall j :: acc(j) == !Rejected(choice, start, length, j);
    var r := FirstAccepted(acc, 0, rounds);
    if r.Some? {
      DrawInPool(choice, RoundStart(start, length, r.value), length);
    }
  }

  /** A length below 8 is always refused; any other length never is, and what comes back is valid. */
  lemma {:induction false} GenerateSpecCorrect(length: int, choice: nat -> nat, start: nat, rounds: nat)
    ensures GenerateSpec(length, choice, start, rounds).TooShort? <==> length < 8
    ensures GenerateSpec(length, choice, start, rounds).Password? ==>
              ValidPassword(GenerateSpec(length, choice, start, rounds).value, length)
  {
    if length >= 8 {
      FirstAcceptableIsFirst(choice, start, length, rounds);
    }
  }

  /** `generate_secure_password`: draw candidates until one has every kind of character. */
  method GenerateSecurePassword(length: int, choice: nat -> nat, start: nat, rounds: nat) returns (g: Generated, next: nat)
    ensures g == GenerateSpec(length, choice, start, rounds)
    ensures length >= 8 ==> next == NextStart(choice, start, length, rounds)
  {
    if length < 8 {
      return TooShort(TooShortMessage), start;
    }
    ghost var acc := Accepts(choice, start, length);
    next := start;
    for k := 0 to rounds
      invariant next == RoundStart(start, length, k)
      invariant FirstAccepted(acc, k, rounds) == FirstAccepted(acc, 0, rounds)
    {
      var password := PickCharacters(choice, next, length);
      assert acc(k) == HasEveryKind(password);
      next := next + length;
      if HasEveryKind(password) {
        return Password(password), next;
      }
    }
    g := OutOfRounds;
  }

  /** `''.join(secrets.choice(all_chars) for _ in range(length))`. */
  method PickCharacters(choice: nat -> nat, start: nat, length: nat) returns (password: string)
    ensures password == Draw(choice, start, length)
  {
    password := [];
    var pool := AllChars();
    for j := 0 to length
      invariant password == Draw(choice, start, j)
    {
      DrawNext(choice, start, j);
      password := password + [pool[choice(start + j) % |pool|]];
    }
  }

  /** What `generate_passwords` returns, or why it stopped. */
  datatype Batch = Passwords(values: seq<string>) | BatchTooShort(error: string) | BatchOutOfRounds

  /** No two elements are equal. */
  predicate Distinct(s: seq<string>) {
    forall i, j :: 0 <= i < j < |s| ==> s[i] != s[j]
  }

  /** Every element is a valid password of the given length. */
  predicate AllValid(ps: seq<string>, length: int) {
    forall i :: 0 <= i < |ps| ==> ValidPassword(ps[i], length)
  }

  lemma {:induction false} AddPassword(ps: seq<string>, p: string, length: int)
    requires Distinct(ps) && AllValid(ps, length)
    requires p !in ps && ValidPassword(p, length)
    ensures Distinct(ps + [p]) && AllValid(ps + [p], length)
  {
    assert forall i :: 0 <= i < |ps| ==> (ps + [p])[i] == ps[i];
  }

  /**
   * `generate_passwords`: generate until `count` different passwords have
   * been seen. Each call has `rounds` rounds, and at most `calls` calls are made.
   */
  method GeneratePasswords(count: int, length: int, choice: nat -> nat, rounds: nat, calls: nat) returns (b: Batch)
    ensures count <= 0 ==> b == Passwords([])
    ensures b.Passwords? ==> |b.values| == (if count <= 0 then 0 else count) && Distinct(b.values)
    ensures b.Passwords? ==> AllValid(b.values, length)
    ensures b.BatchTooShort? <==> count > 0 && length < 8
    ensures b.BatchTooShort? ==> b.error == TooShortMessage
  {
    var passwords: seq<string> := [];
    var start := 0;
    var made := 0;
    while |passwords| < count
      invariant made <= calls
      invariant |passwords| <= (if count <= 0 then 0 else count)
      invariant Distinct(passwords) && AllValid(passwords, length)
      invariant |passwords| > 0 ==> length >= 8
      decreases calls - made
    {
      if made == calls {
        if length < 8 {
          return BatchTooShort(TooShortMessage);
        }
        return BatchOutOfRounds;
      }
      var g;
      var from := start;
      g, start := GenerateSecurePassword(length, choice, from, rounds);
      GenerateSpecCorrect(length, choice, from, rounds);
      made := made + 1;
      if g.TooShort? {
        return BatchTooShort(g.error);
      } else if g.OutOfRounds? {
        return BatchOutOfRounds;
      }
      if g.value !in passwords {
        AddPassword(passwords, g.value, length);
        passwords := passwords + [g.value];
      }
    }
    b := Passwords(passwords);
  }
}
