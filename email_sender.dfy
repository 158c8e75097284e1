/**
 * The welcome-mail step: the outcome of one send and the sent/failed
 * summary of a batch. Rendering the template is not modelled; what rendering
 * and sending did arrives as a parameter.
 */
module EmailSender {
  import opened Records

  /** What rendering and sending one mail did: the send returned a flag, or something raised. */
  datatype SendAttempt = Returned(success: bool) | Raised(message: string)

  /** What `send_welcome_email` returns: the recipient, the reported name and, on failure, the reason. */
  datatype WelcomeResult = Sent(email: string, name: string) | Failed(email: string, name: string, error: string)

  /** The name the result reports: the given names, a space, the family names. */
  function FullName(u: User): string {
    u.fullName + " " + u.fullLastName
  }

  /** `send_welcome_email`. */
  function SendWelcomeEmail(u: User, at: SendAttempt): (r: WelcomeResult)
    ensures r.email == u.emailPersonal && r.name == FullName(u)
  {
    match at
    case Returned(success) =>
      if success then Sent(u.emailPersonal, FullName(u))
      else Failed(u.emailPersonal, FullName(u), "Error desconocido")
    case Raised(message) => Failed(u.emailPersonal, FullName(u), message)
  }

  /** A mail counts as sent exactly when the send returned true; a false send is "Error desconocido", an exception its text. */
  lemma SendWelcomeEmailOutcome(u: User, at: SendAttempt)
    ensures SendWelcomeEmail(u, at).Sent? <==> at == Returned(true)
    ensures at == Returned(false) ==> SendWelcomeEmail(u, at).error == "Error desconocido"
    ensures at.Raised? ==> SendWelcomeEmail(u, at).error == at.message
  {
  }

  /** An entry of `sent`: email and name. */
  datatype SentEntry = SentEntry(email: string, name: string)

  /** An entry of `failed`: email, name and error. */
  datatype FailedEntry = FailedEntry(email: string, name: string, error: string)

  /** The dict `send_welcome_emails` returns. */
  datatype Report = Report(sent: seq<SentEntry>, failed: seq<FailedEntry>, total: nat)

  /** The results of the batch, in order. */
  function Results(users: seq<User>, attempts: nat -> SendAttempt): (rs: seq<WelcomeResult>)
    ensures |rs| == |users|
    ensures forall i :: 0 <= i < |users| ==> rs[i] == SendWelcomeEmail(users[i], attempts(i))
  {
    seq(|users|, i requires 0 <= i < |users| => SendWelcomeEmail(users[i], attempts(i)))
  }

  function SentOf(rs: seq<WelcomeResult>): seq<SentEntry> {
    if rs == [] then [] else
      var last := rs[|rs| - 1];
      SentOf(rs[..|rs| - 1]) + (if last.Sent? then [SentEntry(last.email, last.name)] else [])
  }

  function FailedOf(rs: seq<WelcomeResult>): seq<FailedEntry> {
    if rs == [] then [] else
      var last := rs[|rs| - 1];
      FailedOf(rs[..|rs| - 1]) + (if last.Failed? then [FailedEntry(last.email, last.name, last.error)] else [])
  }

  /** What `send_welcome_emails` returns for these users and attempts. */
  function SendWelcomeEmailsSpec(users: seq<User>, attempts: nat -> SendAttempt): Report {
    var rs := Results(users, attempts);
    Report(SentOf(rs), FailedOf(rs), |users|)
  }

  /** Each result goes to exactly one of the two lists. */
  lemma {:induction false} ResultsPartition(rs: seq<WelcomeResult>)
    ensures |SentOf(rs)| + |FailedOf(rs)| == |rs|
  {
    if rs != [] {
      ResultsPartition(rs[..|rs| - 1]);
    }
  }

  lemma {:induction false} SentOfMembers(rs: seq<WelcomeResult>)
    ensures forall e :: e in SentOf(rs) <==> exists i :: 0 <= i < |rs| && rs[i] == Sent(e.email, e.name)
  {
    if rs != [] {
      var init := rs[..|rs| - 1];
      SentOfMembers(init);
      assert forall i :: 0 <= i < |init| ==> init[i] == rs[i];
      forall e | e in SentOf(rs) ensures exists i :: 0 <= i < |rs| && rs[i] == Sent(e.email, e.name) {
        if e in SentOf(init) {
          var i :| 0 <= i < |init| && init[i] == Sent(e.email, e.name);
          assert rs[i] == init[i];
        } else {
          assert rs[|rs| - 1] == Sent(e.email, e.name);
        }
      }
    }
  }

  lemma {:induction false} FailedOfMembers(rs: seq<WelcomeResult>)
    ensures forall e :: e in FailedOf(rs) <==> exists i :: 0 <= i < |rs| && rs[i] == Failed(e.email, e.name, e.error)
  {
    if rs != [] {
      var init := rs[..|rs| - 1];
      FailedOfMembers(init);
      assert forall i :: 0 <= i < |init| ==> init[i] == rs[i];
      forall e | e in FailedOf(rs) ensures exists i :: 0 <= i < |rs| && rs[i] == Failed(e.email, e.name, e.error) {
        if e in FailedOf(init) {
          var i :| 0 <= i < |init| && init[i] == Failed(e.email, e.name, e.error);
          assert rs[i] == init[i];
        } else {
          assert rs[|rs| - 1] == Failed(e.email, e.name, e.error);
        }
      }
    }
  }

  /** The reason reported for a send that did not succeed: "Error desconocido", or the exception's text. */
  function FailureText(at: SendAttempt): string {
    if at.Raised? then at.message else "Error desconocido"
  }

  /** With every send succeeding, `sent` lists every user's address and name, in order, and `failed` is empty. */
  lemma {:induction false} AllSent(rs: seq<WelcomeResult>)
    requires forall i :: 0 <= i < |rs| ==> rs[i].Sent?
    ensures |SentOf(rs)| == |rs| && FailedOf(rs) == []
    ensures forall i :: 0 <= i < |rs| ==> SentOf(rs)[i] == SentEntry(rs[i].email, rs[i].name)
  {
    if rs != [] {
      var init := rs[..|rs| - 1];
      assert forall i :: 0 <= i < |init| ==> init[i] == rs[i];
      AllSent(init);
    }
  }

  /**
   * `total` counts every user and the two lists' lengths add up to it; an
   * entry is in `sent` exactly when some user with that address and name had
   * a successful send, and in `failed` exactly when some user with that
   * address and name had a send that returned false or raised, with its reason.
   */
  lemma {:induction false} SendWelcomeEmailsPartition(users: seq<User>, attempts: nat -> SendAttempt)
    ensures var r := SendWelcomeEmailsSpec(users, attempts);
      r.total == |users| && |r.sent| + |r.failed| == r.total
    ensures var r := SendWelcomeEmailsSpec(users, attempts);
      forall e :: e in r.sent <==>
        exists i :: 0 <= i < |users| && attempts(i) == Returned(true) && e == SentEntry(users[i].emailPersonal, FullName(users[i]))
    ensures var r := SendWelcomeEmailsSpec(users, attempts);
      forall e :: e in r.failed <==>
        exists i :: 0 <= i < |users| && attempts(i) != Returned(true)
                    && e == FailedEntry(users[i].emailPersonal, FullName(users[i]), FailureText(attempts(i)))
    ensures (forall i :: 0 <= i < |users| ==> attempts(i) == Returned(true)) ==>
      var r := SendWelcomeEmailsSpec(users, attempts);
      r.failed == [] && forall i :: 0 <= i < |users| ==> r.sent[i] == SentEntry(users[i].emailPersonal, FullName(users[i]))
  {
    var rs := Results(users, attempts);
    ResultsPartition(rs);
    SentOfMembers(rs);
    FailedOfMembers(rs);
    forall i | 0 <= i < |users|
      ensures attempts(i) == Returned(true) <==> rs[i] == Sent(users[i].emailPersonal, FullName(users[i]))
      ensures attempts(i) != Returned(true)
          <==> rs[i] == Failed(users[i].emailPersonal, FullName(users[i]), FailureText(attempts(i)))
    {
      SendWelcomeEmailOutcome(users[i], attempts(i));
    }
    if forall i :: 0 <= i < |users| ==> attempts(i) == Returned(true) {
      AllSent(rs);
    }
  }

  /** `send_welcome_emails`: send to each user in turn and sort the results. */
  method SendWelcomeEmails(users: seq<User>, attempts: nat -> SendAttempt) returns (r: Report)
    ensures r == SendWelcomeEmailsSpec(users, attempts)
  {
    var sent: seq<SentEntry> := [];
    var failed: seq<FailedEntry> := [];
    ghost var rs := Results(users, attempts);
    for i := 0 to |users|
      invariant sent == SentOf(rs[..i])
      invariant failed == FailedOf(rs[..i])
    {
      assert rs[..i + 1][..i] == rs[..i];
      var result := SendWelcomeEmail(users[i], attempts(i));
      if result.Sent? {
        sent := sent + [SentEntry(result.email, result.name)];
      } else {
        failed := failed + [FailedEntry(result.email, result.name, result.error)];
      }
    }
    assert rs[..|users|] == rs;
    r := Report(sent, failed, |users|);
  }
}
