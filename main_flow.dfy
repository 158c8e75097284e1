/**
 * The top-level flow: the operator's confirmation, the new/existing split and
 * its early exits, the filters between the phases, and the sorting of the
 * portal phase into created, already existing and failed users. The prompts'
 * answers and every service's replies arrive as parameters.
 */
module MainFlow {
  import opened Wrappers
  import opened Text
  import opened Records
  import UserCreator
  import EmailSender

  // ---------------------------------------------------------------------------
  // The operator's answers
  // ---------------------------------------------------------------------------

  /** The answers read as yes, after stripping and upper-casing. */
  const YesAnswers: seq<string> := ["S", "SI", "SÍ", "Y", "YES"]

  /** The answers read as no. */
  const NoAnswers: seq<string> := ["N", "NO"]

  /** `response.strip().upper()`. */
  function Normalize(answer: string): string {
    Upper(Strip(answer))
  }

  /** One answer to the confirmation prompt: yes, no, or not understood (`None`). */
  function Classify(answer: string): Option<bool> {
    var r := Normalize(answer);
    if r in YesAnswers then Some(true) else if r in NoAnswers then Some(false) else None
  }

  /** No answer is read both ways, so an answer is yes exactly when it is not read as no or not understood. */
  lemma YesNoDisjoint(answer: string)
    ensures Classify(answer) == Some(true) <==> Normalize(answer) in YesAnswers
    ensures Classify(answer) == Some(false) <==> Normalize(answer) in NoAnswers
    ensures Normalize(answer) in YesAnswers ==> Normalize(answer) !in NoAnswers
  {
  }

  /** Surrounding whitespace never changes how an answer is read. */
  lemma {:induction false} ClassifyPadded(pre: string, w: string, post: string)
    requires IsSpaces(pre) && IsSpaces(post) && w != [] && IsStripped(w)
    ensures Classify(pre + w + post) == Classify(w)
  {
    StripPadded(pre, w, post);
    StripStripped(w);
  }

  /** A lower-case "sí", padded with spaces, is read as yes. */
  lemma {:induction false} AccentedYes(w: string, padded: string)
    requires w == "sí" && padded == " " + w + " "
    ensures Classify(padded) == Some(true)
  {
    assert IsSpaces(" ");
    ClassifyPadded(" ", w, " ");
    StripStripped(w);
    assert Upper(w) == "SÍ";
  }

  /** An answer such as "ok" is not understood, so the prompt is repeated. */
  lemma {:induction false} OtherAnswer(w: string)
    requires w == "ok"
    ensures Classify(w).None?
  {
    StripStripped(w);
    assert Upper(w) == "OK";
  }

  /** The headless and e-mail prompts read an answer as yes exactly as the confirmation does, and anything else as no. */
  predicate IsYes(answer: string) {
    Normalize(answer) in YesAnswers
  }

  lemma IsYesClassify(answer: string)
    ensures IsYes(answer) <==> Classify(answer) == Some(true)
  {
  }

  /** The decision the confirmation loop reaches on these answers: that of the first answer it understands. */
  function Decision(answers: seq<string>): (d: Option<bool>)
    ensures d.Some? <==> exists k :: 0 <= k < |answers| && Classify(answers[k]).Some?
    ensures d.Some? ==> exists k :: 0 <= k < |answers| && Classify(answers[k]) == d &&
                                    forall j :: 0 <= j < k ==> Classify(answers[j]).None?
  {
    if answers == [] then None
    else if Classify(answers[0]).Some? then Classify(answers[0])
    else
      var tail := answers[1..];
      var d := Decision(tail);
      assert forall k :: 0 < k < |answers| ==> answers[k] == tail[k - 1];
      if d.Some? then
        var k :| 0 <= k < |tail| && Classify(tail[k]) == d && forall j :: 0 <= j < k ==> Classify(tail[j]).None?;
        assert Classify(answers[k + 1]) == d;
        d
      else
        d
  }

  /**
   * `get_user_confirmation`: keep asking until an answer is understood. It
   * returns the first understood answer's reading and how many answers were
   * read; when the answers run out first, `None`.
   */
  method GetUserConfirmation(answers: seq<string>) returns (r: Option<bool>, asked: nat)
    ensures r == Decision(answers)
    ensures asked <= |answers|
    ensures r.Some? ==> asked > 0 && Classify(answers[asked - 1]) == r
    ensures forall i :: 0 <= i < asked - 1 ==> Classify(answers[i]).None?
    ensures r.None? ==> asked == |answers|
  {
    asked := 0;
    while asked < |answers|
      invariant asked <= |answers|
      invariant forall i :: 0 <= i < asked ==> Classify(answers[i]).None?
      invariant Decision(answers) == Decision(answers[asked..])
    {
      var c := Classify(answers[asked]);
      assert answers[asked..][1..] == answers[asked + 1..];
      asked := asked + 1;
      if c.Some? {
        return c, asked;
      }
    }
    r := None;
  }

  // ---------------------------------------------------------------------------
  // Between the phases
  // ---------------------------------------------------------------------------

  /** A value Python reads as true: a non-empty string. */
  predicate Truthy(p: Option<string>) {
    p.Some? && p.value != ""
  }

  /** `u.get('password_generated')` is truthy. */
  predicate HasPassword(u: User) {
    u.creation.Some? && Truthy(u.creation.value.passwordGenerated)
  }

  /** `u.get('office365_created') and u.get('password_generated')`; the metadata item has neither key. */
  predicate OfficeCreatedEntry(e: Entry) {
    e.UserEntry? && e.user.creation.Some? && e.user.creation.value.office365Created && HasPassword(e.user)
  }

  /** What `process_office365_users` keeps of the results: the records whose account and password were made. */
  function OfficeCreated(rs: seq<Entry>): seq<User> {
    if rs == [] then [] else
      var last := rs[|rs| - 1];
      OfficeCreated(rs[..|rs| - 1]) + (if OfficeCreatedEntry(last) then [last.user] else [])
  }

  /** A record is kept exactly when some result is that record, with its account and password made. */
  lemma {:induction false} OfficeCreatedMembers(rs: seq<Entry>)
    ensures forall u :: u in OfficeCreated(rs) <==>
              exists i :: 0 <= i < |rs| && rs[i] == UserEntry(u) && OfficeCreatedEntry(rs[i])
  {
    if rs != [] {
      var init := rs[..|rs| - 1];
      OfficeCreatedMembers(init);
      assert forall i :: 0 <= i < |init| ==> init[i] == rs[i];
      forall u | u in OfficeCreated(rs)
        ensures exists i :: 0 <= i < |rs| && rs[i] == UserEntry(u) && OfficeCreatedEntry(rs[i])
      {
        if u in OfficeCreated(init) {
          var i :| 0 <= i < |init| && init[i] == UserEntry(u) && OfficeCreatedEntry(init[i]);
          assert rs[i] == init[i];
        } else {
          assert rs[|rs| - 1] == UserEntry(u);
        }
      }
    }
  }

  /** Every kept record has its account made and a password. */
  lemma {:induction false} OfficeCreatedHavePasswords(rs: seq<Entry>)
    ensures forall i :: 0 <= i < |OfficeCreated(rs)| ==>
              HasPassword(OfficeCreated(rs)[i]) && OfficeCreated(rs)[i].creation.value.office365Created
  {
    if rs != [] {
      OfficeCreatedHavePasswords(rs[..|rs| - 1]);
    }
  }

  /**
   * After a `create_users` run, only new records are kept: the existing
   * ones are all marked as not created, and the results hold no metadata
   * item.
   */
  lemma {:induction false} OfficeCreatedOnlyNew(users: seq<User>, passwords: nat -> string, replies: nat -> UserCreator.Reply)
    ensures var rs := UserCreator.CreateUsersSpec(users, true, passwords, replies);
      forall u :: u in OfficeCreated(rs) ==> u.status == New
  {
    var news, olds := WithStatus(users, New), WithStatus(users, Existing);
    var p := UserCreator.ProvisionAll(news, true, passwords, replies);
    var rs := UserCreator.CreateUsersSpec(users, true, passwords, replies);
    UserCreator.CreateUsersShape(users, news, olds, true, passwords, replies);
    UserCreator.ProvisionAllFacts(news, true, passwords, replies, p);
    OfficeCreatedMembers(rs);
    forall u | u in OfficeCreated(rs) ensures u.status == New {
      var i :| 0 <= i < |rs| && rs[i] == UserEntry(u) && OfficeCreatedEntry(rs[i]);
      KeptIsNew(rs, p, olds, i);
    }
  }

  /** A kept result is one of the provisioned new records: the existing ones come back not created. */
  lemma {:induction false} KeptIsNew(rs: seq<Entry>, p: UserCreator.Provisioned, olds: seq<User>, i: nat)
    requires UserCreator.ResultsLayout(rs, p, olds)
    requires forall k :: 0 <= k < |p.users| ==> p.users[k].status == New
    requires i < |rs| && OfficeCreatedEntry(rs[i])
    ensures rs[i].user.status == New
  {
    if i < |p.users| {
      assert rs[i].user == if i == 0 then UserCreator.Attached(p.users[0], p.pending) else p.users[i];
    } else {
      var j := i - |p.users|;
      var existing, marked := rs[|p.users| + j], UserCreator.MarkExisting(olds[j]);
      assert false;
    }
  }

  /** `users_for_email`: the office records with a generated password. */
  function UsersForEmail(office: seq<User>): seq<User> {
    if office == [] then [] else
      var last := office[|office| - 1];
      UsersForEmail(office[..|office| - 1]) + (if HasPassword(last) then [last] else [])
  }

  /** The e-mail filter keeps every record the office filter kept: on its output it changes nothing. */
  lemma {:induction false} UsersForEmailKeepsAll(office: seq<User>)
    requires forall i :: 0 <= i < |office| ==> HasPassword(office[i])
    ensures UsersForEmail(office) == office
  {
    if office != [] {
      var init := office[..|office| - 1];
      assert forall i :: 0 <= i < |init| ==> init[i] == office[i];
      UsersForEmailKeepsAll(init);
    }
  }

  // ---------------------------------------------------------------------------
  // The portal phase
  // ---------------------------------------------------------------------------

  /** The dict `process_appconnecto_users` returns. */
  datatype PortalResults = PortalResults(created: seq<User>, alreadyExist: seq<User>, failed: seq<User>)

  /** The loop's three lists after the given users, the i-th of which got creation status `statuses(i)`. */
  function SortByResult(users: seq<User>, statuses: nat -> string): PortalResults {
    if users == [] then PortalResults([], [], []) else
      var n := |users| - 1;
      var r := SortByResult(users[..n], statuses);
      if statuses(n) == "created" then r.(created := r.created + [users[n]])
      else if statuses(n) == "already_exists" then r.(alreadyExist := r.alreadyExist + [users[n]])
      else r.(failed := r.failed + [users[n]])
  }

  /** What `process_appconnecto_users` returns, given the login's success and each creation's status. */
  function PortalSpec(users: seq<User>, loginOk: bool, statuses: nat -> string): PortalResults {
    if !loginOk then PortalResults([], [], users) else SortByResult(users, statuses)
  }

  /** Each user lands in exactly one of the three lists: together they are the users, as a multiset. */
  lemma {:induction false} PortalPartition(users: seq<User>, statuses: nat -> string)
    ensures var r := SortByResult(users, statuses);
      multiset(r.created) + multiset(r.alreadyExist) + multiset(r.failed) == multiset(users)
  {
    if users != [] {
      var n := |users| - 1;
      var init := users[..n];
      PortalPartition(init, statuses);
      assert users == init + [users[n]];
      var r, r' := SortByResult(init, statuses), SortByResult(users, statuses);
      PartitionStep(r.created, r.alreadyExist, r.failed, init, users[n], r'.created, r'.alreadyExist, r'.failed);
    }
  }

  /** Adding one user to one of three lists that partition `init` gives three lists that partition `init + [x]`. */
  lemma PartitionStep(c: seq<User>, a: seq<User>, f: seq<User>, init: seq<User>, x: User,
                      c': seq<User>, a': seq<User>, f': seq<User>)
    requires multiset(c) + multiset(a) + multiset(f) == multiset(init)
    requires || (c' == c + [x] && a' == a && f' == f)
             || (c' == c && a' == a + [x] && f' == f)
             || (c' == c && a' == a && f' == f + [x])
    ensures multiset(c') + multiset(a') + multiset(f') == multiset(init + [x])
  {
  }

  /** A failed login puts every user in `failed`; otherwise every user lands in exactly one list. */
  lemma {:induction false} PortalSpecPartition(users: seq<User>, loginOk: bool, statuses: nat -> string)
    ensures var r := PortalSpec(users, loginOk, statuses);
      && multiset(r.created) + multiset(r.alreadyExist) + multiset(r.failed) == multiset(users)
      && |r.created| + |r.alreadyExist| + |r.failed| == |users|
      && (!loginOk ==> r.created == [] && r.alreadyExist == [] && r.failed == users)
  {
    if loginOk {
      PortalPartition(users, statuses);
    }
    var r := PortalSpec(users, loginOk, statuses);
    assert |multiset(r.created) + multiset(r.alreadyExist) + multiset(r.failed)| == |multiset(users)|;
  }

  /** With every creation reporting "created", every user is in `created`, in order. */
  lemma {:induction false} AllCreated(users: seq<User>, statuses: nat -> string)
    requires forall i :: 0 <= i < |users| ==> statuses(i) == "created"
    ensures PortalSpec(users, true, statuses) == PortalResults(users, [], [])
  {
    if users != [] {
      var n := |users| - 1;
      AllCreated(users[..n], statuses);
      assert users == users[..n] + [users[n]];
    }
  }

  /** `process_appconnecto_users`: log in, then create the users one by one and sort them by result. */
  method ProcessPortalUsers(users: seq<User>, loginOk: bool, statuses: nat -> string) returns (r: PortalResults)
    ensures r == PortalSpec(users, loginOk, statuses)
  {
    if !loginOk {
      return PortalResults([], [], users);
    }
    var created, alreadyExist, failed := [], [], [];
    for i := 0 to |users|
      invariant PortalResults(created, alreadyExist, failed) == SortByResult(users[..i], statuses)
    {
      assert users[..i + 1][..i] == users[..i];
      var status := statuses(i);
      if status == "created" {
        created := created + [users[i]];
      } else if status == "already_exists" {
        alreadyExist := alreadyExist + [users[i]];
      } else {
        failed := failed + [users[i]];
      }
    }
    assert users[..|users|] == users;
    r := PortalResults(created, alreadyExist, failed);
  }

  // ---------------------------------------------------------------------------
  // The whole run
  // ---------------------------------------------------------------------------

  /** How a run ends: one of the early exits, or with its three phases' results. */
  datatype RunOutcome =
    | NoNewUsers
    | Cancelled
    | Unanswered
    | NoAccountCreated
    | Completed(office: seq<User>, portal: PortalResults, emails: EmailSender.Report)

  /** The e-mail results when nothing is sent. */
  const NoEmails: EmailSender.Report := EmailSender.Report([], [], 0)

  /**
   * `main`, from the loaded records on: `answers` are the confirmation
   * prompt's answers, `passwords` and `replies` feed the directory phase,
   * `loginOk` and `statuses` the portal phase, and `emailAnswer` and
   * `sends` the e-mail phase.
   */
  method Run(all: seq<User>, answers: seq<string>, passwords: nat -> string, replies: nat -> UserCreator.Reply,
             loginOk: bool, statuses: nat -> string, emailAnswer: string, sends: nat -> EmailSender.SendAttempt)
    returns (o: RunOutcome)
    ensures o == NoNewUsers <==> WithStatus(all, New) == []
    ensures o == Cancelled <==> WithStatus(all, New) != [] && Decision(answers) == Some(false)
    ensures o == Unanswered <==> WithStatus(all, New) != [] && Decision(answers).None?
    ensures var office := OfficeCreated(UserCreator.CreateUsersSpec(WithStatus(all, New), true, passwords, replies));
      && (o == NoAccountCreated <==> WithStatus(all, New) != [] && Decision(answers) == Some(true) && office == [])
      && (o.Completed? ==>
            && WithStatus(all, New) != [] && Decision(answers) == Some(true)
            && o.office == office && office != []
            && (forall u :: u in office ==> u.status == New)
            && o.portal == PortalSpec(office, loginOk, statuses)
            && o.emails == if IsYes(emailAnswer) then EmailSender.SendWelcomeEmailsSpec(office, sends) else NoEmails)
  {
    var newUsers := WithStatus(all, New);
    if newUsers == [] {
      return NoNewUsers;
    }
    var confirmed, asked := GetUserConfirmation(answers);
    if confirmed == None {
      return Unanswered;
    } else if confirmed == Some(false) {
      return Cancelled;
    }
    var results, createCalls := UserCreator.CreateUsers(newUsers, true, passwords, replies);
    var office := OfficeCreated(results);
    if office == [] {
      return NoAccountCreated;
    }
    OfficeCreatedOnlyNew(newUsers, passwords, replies);
    var portal := ProcessPortalUsers(office, loginOk, statuses);
    OfficeCreatedHavePasswords(results);
    UsersForEmailKeepsAll(office);
    var forEmail := UsersForEmail(office);
    var emails := NoEmails;
    if forEmail != [] && IsYes(emailAnswer) {
      emails := EmailSender.SendWelcomeEmails(forEmail, sends);
    }
    o := Completed(office, portal, emails);
  }
}
