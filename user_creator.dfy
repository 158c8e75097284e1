/**
 * Provisioning of the new records in the directory (`UserCreator`): group
 * choice, bounded group-assignment retry, and the per-record outcome of
 * `create_users`. What the directory answers (creation, group lookup,
 * assignment) and the generated passwords are inputs.
 */
module UserCreator {
  import opened Wrappers
  import opened Records

  const StudentGroup: string := "Estudiantes Licencias A5"
  const TeacherGroup: string := "Administrativos Licencia A5"
  /** The number of assignment attempts `create_users` asks for. */
  const MaxAttempts: nat := 3
  const UnknownError: string := "Error desconocido"
  /**
   * The text of the exception a creation request raises for a record whose
   * address is `None`: the nickname is taken with `split` on the address.
   */
  const NoAddressError: string := "'NoneType' object has no attribute 'split'"

  /** `_get_group_for_vinculation`: teachers go to the teacher group, everyone else to the student group. */
  function GroupForVinculation(vinculationType: string): (g: string)
    ensures g == TeacherGroup <==> vinculationType == "Docente"
    ensures g == StudentGroup <==> vinculationType != "Docente"
  {
    if vinculationType == "Estudiante" then StudentGroup
    else if vinculationType == "Docente" then TeacherGroup
    else StudentGroup
  }

  // ---------------------------------------------------------------------------
  // Group assignment with retry
  // ---------------------------------------------------------------------------

  /** The directory's answer to assignment attempt `i` (0-based); no answer counts as a failure. */
  function Answer(replies: seq<bool>, i: nat): bool {
    i < |replies| && replies[i]
  }

  /** The first attempt in `from..n-1` that succeeds, if any. */
  function FirstSuccessFrom(replies: seq<bool>, from: nat, n: nat): (r: Option<nat>)
    ensures r.Some? ==> from <= r.value < n && Answer(replies, r.value)
    ensures r.Some? ==> forall j :: from <= j < r.value ==> !Answer(replies, j)
    ensures r.None? ==> forall j :: from <= j < n ==> !Answer(replies, j)
    decreases n - from
  {
    if from >= n then None
    else if Answer(replies, from) then Some(from)
    else FirstSuccessFrom(replies, from + 1, n)
  }

  /** The first of `n` attempts that succeeds. */
  function FirstSuccess(replies: seq<bool>, n: nat): Option<nat> {
    FirstSuccessFrom(replies, 0, n)
  }

  /**
   * `_assign_to_group_with_retry`: asks the directory at most `maxAttempts`
   * times, stops at the first success, and waits between attempts but never
   * after the last one.
   */
  method AssignWithRetry(replies: seq<bool>, maxAttempts: nat) returns (ok: bool, attempts: nat, waits: nat)
    ensures ok == FirstSuccess(replies, maxAttempts).Some?
    ensures ok ==> attempts == FirstSuccess(replies, maxAttempts).value + 1
    ensures !ok ==> attempts == maxAttempts
    ensures attempts <= maxAttempts
    ensures waits == if attempts == 0 then 0 else attempts - 1
  {
    attempts := 0;
    waits := 0;
    var attempt := 1;
    while attempt <= maxAttempts
      invariant 1 <= attempt <= maxAttempts + 1
      invariant attempts == attempt - 1
      invariant FirstSuccess(replies, maxAttempts) == FirstSuccessFrom(replies, attempt - 1, maxAttempts)
      invariant waits == if attempts == maxAttempts && attempts > 0 then attempts - 1 else attempts
    {
      var success := Answer(replies, attempt - 1);
      attempts := attempt;
      if success {
        return true, attempts, waits;
      }
      if attempt < maxAttempts {
        waits := waits + 1;
      }
      attempt := attempt + 1;
    }
    ok := false;
  }

  // ---------------------------------------------------------------------------
  // One record
  // ---------------------------------------------------------------------------

  /**
   * What happens to one creation request, in the order `create_user` and the
   * steps after it meet it: the token is refused before anything else; the
   * request raises, fails or creates the account; once the account exists, the
   * group lookup or an assignment attempt can still raise.
   */
  datatype Reply =
    | TokenRefused(description: string)
    | Raised(message: string)
    | Failed(error: Option<string>)
    | Created(userId: string, groupId: Option<string>, assignReplies: seq<bool>)
    | CreatedThenRaised(userId: string, message: string)

  /** A provisioned record, and the follow-up entry when its account was left without the group. */
  datatype Outcome = Outcome(user: User, pending: Option<PendingGroup>)

  function DisplayName(u: User): string {
    u.fullName + " " + u.fullLastName
  }

  function GroupNotFound(group: string): string {
    "Grupo '" + group + "' no encontrado"
  }

  function WithCreation(u: User, c: Creation): User {
    u.(creation := Some(c))
  }

  /** The text of the exception `get_token` raises when the token is refused. */
  function AuthError(description: string): string {
    "Error de autenticación: " + description
  }

  /** What the handler for an unexpected exception writes: not created, no password, no group. */
  function Unexpected(u: User, message: string): Outcome {
    Outcome(WithCreation(u, Creation(false, None, None, None, Some(message))), None)
  }

  /**
   * One iteration for a new record, with the generated `password`, in create
   * mode or in simulation mode.
   */
  function Provision(u: User, createMode: bool, password: string, reply: Reply): Outcome {
    var group := GroupForVinculation(u.vinculationType);
    if !createMode then
      Outcome(WithCreation(u, Creation(false, None, Some(password), Some(group), None)), None)
    else if reply.TokenRefused? then
      Unexpected(u, AuthError(reply.description))
    else if u.institutionalEmail.None? then
      Unexpected(u, NoAddressError)
    else if reply.Raised? || reply.CreatedThenRaised? then
      Unexpected(u, reply.message)
    else if reply.Failed? then
      Outcome(WithCreation(u, Creation(false, None, Some(password), None, Some(reply.error.GetOr(UnknownError)))), None)
    else
      var email := u.institutionalEmail.value;
      var id, gid, rs := reply.userId, reply.groupId, reply.assignReplies;
      var pending := PendingGroup(DisplayName(u), email, id, password, group);
      if gid.Some? && gid.value != "" then
        if FirstSuccess(rs, MaxAttempts).Some? then
          Outcome(WithCreation(u, Creation(true, Some(id), Some(password), Some(group), None)), None)
        else
          Outcome(WithCreation(u, Creation(true, Some(id), Some(password), None, None)), Some(pending))
      else
        Outcome(WithCreation(u, Creation(true, Some(id), Some(password), None, Some(GroupNotFound(group)))), Some(pending))
  }

  /** Created in the directory and placed in its group. */
  predicate CreatedWithGroup(u: User) {
    u.creation.Some? && u.creation.value.office365Created
    && u.creation.value.groupAssigned.Some? && u.creation.value.groupAssigned.value != ""
  }

  /** Created in the directory but without its group. */
  predicate CreatedWithoutGroup(u: User) {
    u.creation.Some? && u.creation.value.office365Created && u.creation.value.groupAssigned.None?
  }

  /** Not created in the directory (the summary's error count). */
  predicate NotCreated(u: User) {
    u.creation.Some? && !u.creation.value.office365Created
  }

  /**
   * In create mode each record lands in exactly one of the three categories,
   * and it is queued for follow-up exactly when it was created without its
   * group. The directory account is kept when the group is missing.
   */
  lemma {:induction false} ProvisionPartition(u: User, password: string, reply: Reply)
    ensures var o := Provision(u, true, password, reply);
      && (CreatedWithGroup(o.user) || CreatedWithoutGroup(o.user) || NotCreated(o.user))
      && !(CreatedWithGroup(o.user) && CreatedWithoutGroup(o.user))
      && !(CreatedWithGroup(o.user) && NotCreated(o.user))
      && !(CreatedWithoutGroup(o.user) && NotCreated(o.user))
      && (o.pending.Some? <==> CreatedWithoutGroup(o.user))
  {
  }

  /** A missing group leaves the account created, without group, with the "not found" message, and queued. */
  lemma {:induction false} ProvisionGroupNotFound(u: User, password: string, id: string, rs: seq<bool>)
    requires u.institutionalEmail.Some?
    ensures var o := Provision(u, true, password, Created(id, None, rs));
      var group := GroupForVinculation(u.vinculationType);
      && o.user.creation == Some(Creation(true, Some(id), Some(password), None, Some(GroupNotFound(group))))
      && o.pending == Some(PendingGroup(DisplayName(u), u.institutionalEmail.value, id, password, group))
  {
  }

  /**
   * Simulation mode prepares every record the same way, with or without an
   * address: not created, with the generated password and the group it would join.
   */
  lemma {:induction false} ProvisionSimulation(u: User, password: string, reply: Reply)
    ensures var o := Provision(u, false, password, reply);
      && o.user.creation == Some(Creation(false, None, Some(password), Some(GroupForVinculation(u.vinculationType)), None))
      && o.pending.None?
  {
  }

  /**
   * In create mode a refused token makes the creation request raise first,
   * with or without an address; the handler drops the password and keeps the
   * authentication error.
   */
  lemma {:induction false} ProvisionTokenRefused(u: User, password: string, description: string)
    ensures var o := Provision(u, true, password, TokenRefused(description));
      && o.user.creation == Some(Creation(false, None, None, None, Some("Error de autenticación: " + description)))
      && NotCreated(o.user) && o.pending.None?
  {
  }

  /**
   * In create mode, once the token is granted, a record whose address is
   * `None` makes the creation request raise before anything is sent; the
   * handler drops the password and keeps the exception's text.
   */
  lemma {:induction false} ProvisionWithoutAddress(u: User, password: string, reply: Reply)
    requires u.institutionalEmail.None? && !reply.TokenRefused?
    ensures var o := Provision(u, true, password, reply);
      && o.user.creation == Some(Creation(false, None, None, None, Some(NoAddressError)))
      && o.pending.None?
  {
  }

  /**
   * An exception after the account was created (in the group lookup or an
   * assignment attempt) reaches the same handler: the record is reported as
   * not created, without its directory id, password or group, and is not
   * queued, although the directory holds the account.
   */
  lemma {:induction false} ProvisionRaisedAfterCreation(u: User, password: string, id: string, m: string)
    requires u.institutionalEmail.Some?
    ensures var o := Provision(u, true, password, CreatedThenRaised(id, m));
      && o.user.creation == Some(Creation(false, None, None, None, Some(m)))
      && NotCreated(o.user) && o.pending.None?
  {
  }

  /** A failed creation keeps the generated password so that it can be retried, and reports the directory's error. */
  lemma {:induction false} ProvisionFailedKeepsPassword(u: User, password: string, e: Option<string>)
    requires u.institutionalEmail.Some?
    ensures var o := Provision(u, true, password, Failed(e));
      && o.user.creation == Some(Creation(false, None, Some(password), None, Some(if e.Some? then e.value else UnknownError)))
      && o.pending.None?
  {
  }

  /** Provisioning writes only the creation keys of the record. */
  lemma {:induction false} ProvisionKeepsFields(u: User, createMode: bool, password: string, reply: Reply)
    ensures Provision(u, createMode, password, reply).user.(creation := None) == u.(creation := None)
  {
  }

  // ---------------------------------------------------------------------------
  // The batch
  // ---------------------------------------------------------------------------

  /** The provisioned new records, and the follow-up list in the same order. */
  datatype Provisioned = Provisioned(users: seq<User>, pending: seq<PendingGroup>)

  function PendingList(p: Option<PendingGroup>): seq<PendingGroup> {
    if p.Some? then [p.value] else []
  }

  /**
   * The loop over the new records: record `i` gets password `passwords(i)`
   * and directory answer `replies(i)`.
   */
  function ProvisionAll(news: seq<User>, createMode: bool, passwords: nat -> string, replies: nat -> Reply): Provisioned
    decreases |news|
  {
    if news == [] then Provisioned([], [])
    else
      var i := |news| - 1;
      var prev := ProvisionAll(news[..i], createMode, passwords, replies);
      var o := Provision(news[i], createMode, passwords(i), replies(i));
      Provisioned(prev.users + [o.user], prev.pending + PendingList(o.pending))
  }

  /** Record by record, in input order. */
  lemma {:induction false} ProvisionAllAt(news: seq<User>, createMode: bool, passwords: nat -> string,
                                          replies: nat -> Reply, i: nat)
    requires i < |news|
    ensures |ProvisionAll(news, createMode, passwords, replies).users| == |news|
    ensures ProvisionAll(news, createMode, passwords, replies).users[i]
         == Provision(news[i], createMode, passwords(i), replies(i)).user
    decreases |news|
  {
    var n := |news| - 1;
    ProvisionAllLength(news[..n], createMode, passwords, replies);
    if i < n {
      ProvisionAllAt(news[..n], createMode, passwords, replies, i);
    }
  }

  lemma {:induction false} ProvisionAllLength(news: seq<User>, createMode: bool, passwords: nat -> string, replies: nat -> Reply)
    ensures |ProvisionAll(news, createMode, passwords, replies).users| == |news|
    ensures |ProvisionAll(news, createMode, passwords, replies).pending| <= |news|
    decreases |news|
  {
    if news != [] {
      ProvisionAllLength(news[..|news| - 1], createMode, passwords, replies);
    }
  }

  /** How many records satisfy `p`. */
  function CountWhere(us: seq<User>, p: User -> bool): (n: nat)
    ensures n <= |us|
    decreases |us|
  {
    if us == [] then 0 else CountWhere(us[..|us| - 1], p) + (if p(us[|us| - 1]) then 1 else 0)
  }

  lemma {:induction false} CountWhereAppend(us: seq<User>, u: User, p: User -> bool)
    ensures CountWhere(us + [u], p) == CountWhere(us, p) + (if p(u) then 1 else 0)
  {
    assert (us + [u])[..|us|] == us;
  }

  /**
   * In create mode the summary's three counts (created with group, left
   * without group, not created) add up to the number of new records, and
   * the follow-up list holds exactly the records created without group.
   */
  lemma {:induction false} ProvisionAllCounts(news: seq<User>, passwords: nat -> string, replies: nat -> Reply)
    ensures var p := ProvisionAll(news, true, passwords, replies);
      && CountWhere(p.users, CreatedWithGroup) + |p.pending| + CountWhere(p.users, NotCreated) == |news|
      && |p.pending| == CountWhere(p.users, CreatedWithoutGroup)
    decreases |news|
  {
    if news != [] {
      var i := |news| - 1;
      var prev := ProvisionAll(news[..i], true, passwords, replies);
      ProvisionAllCounts(news[..i], passwords, replies);
      ProvisionAllLength(news[..i], true, passwords, replies);
      ProvisionPartition(news[i], passwords(i), replies(i));
      CountsStep(prev.users, prev.pending, i, Provision(news[i], true, passwords(i), replies(i)));
    }
  }

  /** One classified outcome keeps the summary counts in balance. */
  lemma {:induction false} CountsStep(users: seq<User>, pending: seq<PendingGroup>, n: nat, o: Outcome)
    requires CountWhere(users, CreatedWithGroup) + |pending| + CountWhere(users, NotCreated) == n
    requires |pending| == CountWhere(users, CreatedWithoutGroup)
    requires CreatedWithGroup(o.user) || CreatedWithoutGroup(o.user) || NotCreated(o.user)
    requires !(CreatedWithGroup(o.user) && CreatedWithoutGroup(o.user))
    requires !(CreatedWithGroup(o.user) && NotCreated(o.user))
    requires !(CreatedWithoutGroup(o.user) && NotCreated(o.user))
    requires o.pending.Some? <==> CreatedWithoutGroup(o.user)
    ensures var us, ps := users + [o.user], pending + PendingList(o.pending);
      && CountWhere(us, CreatedWithGroup) + |ps| + CountWhere(us, NotCreated) == n + 1
      && |ps| == CountWhere(us, CreatedWithoutGroup)
  {
    CountWhereAppend(users, o.user, CreatedWithGroup);
    CountWhereAppend(users, o.user, CreatedWithoutGroup);
    CountWhereAppend(users, o.user, NotCreated);
  }

  /**
   * In simulation mode nothing is created and nothing is queued, so the
   * summary counts every new record as an error.
   */
  lemma {:induction false} SimulationCreatesNothing(news: seq<User>, passwords: nat -> string, replies: nat -> Reply)
    ensures var p := ProvisionAll(news, false, passwords, replies);
      p.pending == [] && CountWhere(p.users, NotCreated) == |news|
    decreases |news|
  {
    if news != [] {
      var i := |news| - 1;
      var prev := ProvisionAll(news[..i], false, passwords, replies);
      SimulationCreatesNothing(news[..i], passwords, replies);
      ProvisionAllLength(news[..i], false, passwords, replies);
      CountWhereAppend(prev.users, Provision(news[i], false, passwords(i), replies(i)).user, NotCreated);
    }
  }

  /** The provisioned new records are still marked new. */
  lemma {:induction false} ProvisionAllNew(news: seq<User>, createMode: bool, passwords: nat -> string, replies: nat -> Reply)
    requires forall i :: 0 <= i < |news| ==> news[i].status == New
    ensures var p := ProvisionAll(news, createMode, passwords, replies);
      |p.users| == |news| && forall i :: 0 <= i < |p.users| ==> p.users[i].status == New
  {
    var p := ProvisionAll(news, createMode, passwords, replies);
    ProvisionAllLength(news, createMode, passwords, replies);
    forall i | 0 <= i < |p.users|
      ensures p.users[i].status == New
    {
      ProvisionAllAt(news, createMode, passwords, replies, i);
      ProvisionKeepsFields(news[i], createMode, passwords(i), replies(i));
      assert p.users[i].status == news[i].status;
    }
  }

  /** The existing records, which come back marked as not created. */
  function MarkExisting(u: User): User {
    WithCreation(u, Creation(false, None, None, None, None))
  }

  function MarkAllExisting(us: seq<User>): (r: seq<User>)
    ensures |r| == |us|
    ensures forall i :: 0 <= i < |us| ==> r[i] == MarkExisting(us[i])
  {
    seq(|us|, i requires 0 <= i < |us| => MarkExisting(us[i]))
  }

  function Entries(us: seq<User>): (r: seq<Entry>)
    ensures |r| == |us|
    ensures forall i :: 0 <= i < |us| ==> r[i] == UserEntry(us[i])
  {
    seq(|us|, i requires 0 <= i < |us| => UserEntry(us[i]))
  }

  /** The test of line `result.get('status') == 'metadata'`. */
  predicate IsMetadata(e: Entry) {
    e.Metadata? || e.user.status == OtherStatus("metadata")
  }

  /** The first entry from `from` on that is not metadata. */
  function FirstNonMetadata(rs: seq<Entry>, from: nat): (r: Option<nat>)
    requires from <= |rs|
    ensures r.Some? ==> from <= r.value < |rs| && !IsMetadata(rs[r.value])
    ensures r.Some? ==> forall j :: from <= j < r.value ==> IsMetadata(rs[j])
    ensures r.None? ==> forall j :: from <= j < |rs| ==> IsMetadata(rs[j])
    decreases |rs| - from
  {
    if from == |rs| then None
    else if !IsMetadata(rs[from]) then Some(from)
    else FirstNonMetadata(rs, from + 1)
  }

  /** The follow-up list goes onto the first non-metadata entry, or into a new metadata entry if there is none. */
  function Attach(rs: seq<Entry>, pending: seq<PendingGroup>): seq<Entry> {
    if pending == [] then rs
    else match FirstNonMetadata(rs, 0)
      case Some(i) => rs[i := UserEntry(rs[i].user.(createdWithoutGroupList := Some(pending)))]
      case None => rs + [Metadata(pending)]
  }

  /** `create_users` as a function of its inputs and the directory's answers. */
  function CreateUsersSpec(users: seq<User>, createMode: bool, passwords: nat -> string, replies: nat -> Reply): seq<Entry> {
    Results(ProvisionAll(WithStatus(users, New), createMode, passwords, replies), WithStatus(users, Existing))
  }

  /** The results list: the provisioned new records, the existing ones, and the follow-up list attached. */
  function Results(p: Provisioned, olds: seq<User>): seq<Entry> {
    Attach(Entries(p.users) + Entries(MarkAllExisting(olds)), p.pending)
  }

  /** The follow-up loop at the end of `create_users`. */
  method AttachPending(rs: seq<Entry>, pending: seq<PendingGroup>) returns (out: seq<Entry>)
    ensures out == Attach(rs, pending)
  {
    out := rs;
    if pending != [] {
      var i := 0;
      while i < |rs|
        invariant 0 <= i <= |rs|
        invariant FirstNonMetadata(rs, 0) == FirstNonMetadata(rs, i)
      {
        if !IsMetadata(rs[i]) {
          out := rs[i := UserEntry(rs[i].user.(createdWithoutGroupList := Some(pending)))];
          return;
        }
        i := i + 1;
      }
      out := rs + [Metadata(pending)];
    }
  }

  /** One more new record on top of a provisioned prefix. */
  lemma {:induction false} ProvisionAllSnoc(news: seq<User>, createMode: bool, passwords: nat -> string, replies: nat -> Reply, i: nat)
    requires i < |news|
    ensures var prev := ProvisionAll(news[..i], createMode, passwords, replies);
      var o := Provision(news[i], createMode, passwords(i), replies(i));
      ProvisionAll(news[..i + 1], createMode, passwords, replies)
        == Provisioned(prev.users + [o.user], prev.pending + PendingList(o.pending))
  {
    assert news[..i + 1][..i] == news[..i];
    ProvisionAllLength(news[..i], createMode, passwords, replies);
  }

  /** One iteration of the loop over the new records keeps its invariant. */
  lemma {:induction false} ProvisionNewStep(news: seq<User>, createMode: bool, passwords: nat -> string, replies: nat -> Reply,
                                            i: nat, done: seq<User>, pending: seq<PendingGroup>, calls: nat, o: Outcome)
    requires i < |news|
    requires Provisioned(done, pending) == ProvisionAll(news[..i], createMode, passwords, replies)
    requires calls == if createMode then RequestsSent(news[..i], replies) else 0
    requires o == Provision(news[i], createMode, passwords(i), replies(i))
    ensures Provisioned(done + [o.user], pending + PendingList(o.pending))
         == ProvisionAll(news[..i + 1], createMode, passwords, replies)
    ensures (if createMode && SendsRequest(news[i], replies(i)) then calls + 1 else calls)
         == if createMode then RequestsSent(news[..i + 1], replies) else 0
  {
    assert news[..i + 1][..i] == news[..i];
    ProvisionAllSnoc(news, createMode, passwords, replies, i);
  }

  /** The loop over the new records, counting the creation requests it sends. */
  method ProvisionNew(news: seq<User>, createMode: bool, passwords: nat -> string, replies: nat -> Reply)
    returns (done: seq<User>, pending: seq<PendingGroup>, createCalls: nat)
    ensures Provisioned(done, pending) == ProvisionAll(news, createMode, passwords, replies)
    ensures createCalls == if createMode then RequestsSent(news, replies) else 0
  {
    done := [];
    pending := [];
    createCalls := 0;
    var i := 0;
    while i < |news|
      invariant 0 <= i <= |news|
      invariant Provisioned(done, pending) == ProvisionAll(news[..i], createMode, passwords, replies)
      invariant createCalls == if createMode then RequestsSent(news[..i], replies) else 0
    {
      var o := ProvisionOne(news[i], createMode, passwords(i), replies(i));
      ProvisionNewStep(news, createMode, passwords, replies, i, done, pending, createCalls, o);
      if createMode && SendsRequest(news[i], replies(i)) {
        createCalls := createCalls + 1;
      }
      done := done + [o.user];
      pending := pending + PendingList(o.pending);
      i := i + 1;
    }
    assert news[..|news|] == news;
  }

  /** The loop over the existing records, which come back marked as not created. */
  method AppendExisting(rs: seq<Entry>, olds: seq<User>) returns (out: seq<Entry>)
    ensures out == rs + Entries(MarkAllExisting(olds))
  {
    out := rs;
    var j := 0;
    while j < |olds|
      invariant 0 <= j <= |olds|
      invariant out == rs + Entries(MarkAllExisting(olds[..j]))
    {
      assert Entries(MarkAllExisting(olds[..j + 1])) == Entries(MarkAllExisting(olds[..j])) + [UserEntry(MarkExisting(olds[j]))];
      out := out + [UserEntry(MarkExisting(olds[j]))];
      j := j + 1;
    }
    assert olds[..|olds|] == olds;
  }

  /**
   * `create_users`: provisions the new records in order, then appends the
   * existing ones marked as not created, and attaches the follow-up list.
   * Records of any other status are dropped. `passwords(i)` and `replies(i)`
   * are the generated password and the directory's answers for the i-th new
   * record. Also returns how many creation requests were sent.
   */
  method CreateUsers(users: seq<User>, createMode: bool, passwords: nat -> string, replies: nat -> Reply)
    returns (results: seq<Entry>, createCalls: nat)
    ensures results == CreateUsersSpec(users, createMode, passwords, replies)
    ensures createCalls == if createMode then RequestsSent(WithStatus(users, New), replies) else 0
  {
    var news := WithStatus(users, New);
    var olds := WithStatus(users, Existing);
    var done, pending;
    done, pending, createCalls := ProvisionNew(news, createMode, passwords, replies);
    var rs := AppendExisting(Entries(done), olds);
    results := AttachPending(rs, pending);
    assert results == Results(Provisioned(done, pending), olds);
  }

  /** The creation request goes out once the token is granted and the record's address can be read. */
  predicate SendsRequest(u: User, reply: Reply) {
    u.institutionalEmail.Some? && !reply.TokenRefused?
  }

  /** How many creation requests go out for the records, record `i` meeting `replies(i)`. */
  function RequestsSent(news: seq<User>, replies: nat -> Reply): (n: nat)
    ensures n <= |news|
    decreases |news|
  {
    if news == [] then 0
    else RequestsSent(news[..|news| - 1], replies) + (if SendsRequest(news[|news| - 1], replies(|news| - 1)) then 1 else 0)
  }

  /** The body of the loop for one new record, with the retry made explicit. */
  method ProvisionOne(u: User, createMode: bool, password: string, reply: Reply) returns (o: Outcome)
    ensures o == Provision(u, createMode, password, reply)
  {
    var group := GroupForVinculation(u.vinculationType);
    if !createMode {
      return Outcome(WithCreation(u, Creation(false, None, Some(password), Some(group), None)), None);
    }
    if reply.TokenRefused? {
      return Unexpected(u, AuthError(reply.description));
    }
    if u.institutionalEmail.None? {
      return Unexpected(u, NoAddressError);
    }
    var email := u.institutionalEmail.value;
    if reply.Raised? {
      return Unexpected(u, reply.message);
    }
    if reply.Failed? {
      return Outcome(WithCreation(u, Creation(false, None, Some(password), None, Some(reply.error.GetOr(UnknownError)))), None);
    }
    var id := reply.userId;
    if reply.CreatedThenRaised? {
      return Unexpected(u, reply.message);
    }
    var pendingEntry := PendingGroup(DisplayName(u), email, id, password, group);
    if reply.groupId.Some? && reply.groupId.value != "" {
      var inGroup, attempts, waits := AssignWithRetry(reply.assignReplies, MaxAttempts);
      if inGroup {
        o := Outcome(WithCreation(u, Creation(true, Some(id), Some(password), Some(group), None)), None);
      } else {
        o := Outcome(WithCreation(u, Creation(true, Some(id), Some(password), None, None)), Some(pendingEntry));
      }
    } else {
      o := Outcome(WithCreation(u, Creation(true, Some(id), Some(password), None, Some(GroupNotFound(group)))),
                   Some(pendingEntry));
    }
  }

  // ---------------------------------------------------------------------------
  // Properties of the results
  // ---------------------------------------------------------------------------

  /** Adding the follow-up list never appends a metadata entry when some entry is a record of a new or existing user. */
  lemma {:induction false} AttachKeepsShape(rs: seq<Entry>, pending: seq<PendingGroup>)
    requires forall i :: 0 <= i < |rs| ==> rs[i].UserEntry? && (rs[i].user.status == New || rs[i].user.status == Existing)
    requires pending != [] ==> |rs| > 0
    ensures |Attach(rs, pending)| == |rs|
    ensures forall i :: 0 <= i < |rs| ==> Attach(rs, pending)[i].UserEntry?
    ensures pending != [] ==> Attach(rs, pending)[0] == UserEntry(rs[0].user.(createdWithoutGroupList := Some(pending)))
    ensures forall i :: 0 < i < |rs| ==> Attach(rs, pending)[i] == rs[i]
    ensures pending == [] ==> Attach(rs, pending) == rs
  {
    if pending != [] {
      assert !IsMetadata(rs[0]);
    }
  }

  /** A record carrying the follow-up list, when there is one. */
  function Attached(u: User, pending: seq<PendingGroup>): User {
    if pending == [] then u else u.(createdWithoutGroupList := Some(pending))
  }

  /**
   * `rs` holds the provisioned new records of `p`, the follow-up list
   * attached to the first of them, and then the existing records `olds`
   * marked as not created; records only, never a metadata entry.
   */
  predicate ResultsLayout(rs: seq<Entry>, p: Provisioned, olds: seq<User>) {
    && |rs| == |p.users| + |olds|
    && (forall i :: 0 <= i < |rs| ==> rs[i].UserEntry?)
    && (forall i :: 0 <= i < |p.users| ==> rs[i].user == if i == 0 then Attached(p.users[0], p.pending) else p.users[i])
    && (forall j :: 0 <= j < |olds| ==> rs[|p.users| + j].user == MarkExisting(olds[j]))
  }

  /** The shape of the results built from provisioned new records and existing records `olds`. */
  lemma {:induction false} ResultsShape(p: Provisioned, olds: seq<User>, rs: seq<Entry>)
    requires forall i :: 0 <= i < |p.users| ==> p.users[i].status == New
    requires forall j :: 0 <= j < |olds| ==> olds[j].status == Existing
    requires |p.pending| <= |p.users|
    requires rs == Results(p, olds)
    ensures ResultsLayout(rs, p, olds)
  {
    var base := Entries(p.users) + Entries(MarkAllExisting(olds));
    assert rs == Attach(base, p.pending);
    forall i | 0 <= i < |base|
      ensures base[i].UserEntry? && (base[i].user.status == New || base[i].user.status == Existing)
    {
      if i >= |p.users| {
        assert base[i].user == MarkExisting(olds[i - |p.users|]);
      }
    }
    AttachKeepsShape(base, p.pending);
    forall j | 0 <= j < |olds|
      ensures rs[|p.users| + j].user == MarkExisting(olds[j])
    {
      assert base[|p.users| + j] == UserEntry(MarkExisting(olds[j]));
    }
  }

  /**
   * The results: the new records provisioned in input order, then the
   * existing ones in input order marked as not created; nothing else, and
   * never a metadata entry. When some account is left without its group,
   * the follow-up list is attached to the first result.
   */
  lemma {:induction false} CreateUsersShape(users: seq<User>, news: seq<User>, olds: seq<User>, createMode: bool, passwords: nat -> string, replies: nat -> Reply)
    requires news == WithStatus(users, New) && olds == WithStatus(users, Existing)
    ensures var p := ProvisionAll(news, createMode, passwords, replies);
      var rs := CreateUsersSpec(users, createMode, passwords, replies);
      && |rs| == CountStatus(users, New) + CountStatus(users, Existing)
      && |p.users| == |news|
      && ResultsLayout(rs, p, olds)
  {
    var p := ProvisionAll(news, createMode, passwords, replies);
    ProvisionAllFacts(news, createMode, passwords, replies, p);
    ResultsShape(p, olds, CreateUsersSpec(users, createMode, passwords, replies));
  }

  /** What the shape needs of the provisioned records. */
  lemma {:induction false} ProvisionAllFacts(news: seq<User>, createMode: bool, passwords: nat -> string, replies: nat -> Reply, p: Provisioned)
    requires p == ProvisionAll(news, createMode, passwords, replies)
    requires forall i :: 0 <= i < |news| ==> news[i].status == New
    ensures |p.users| == |news| && |p.pending| <= |news|
    ensures forall i :: 0 <= i < |p.users| ==> p.users[i].status == New
  {
    ProvisionAllNew(news, createMode, passwords, replies);
    ProvisionAllLength(news, createMode, passwords, replies);
  }
}
