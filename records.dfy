/**
 * The user record that flows through the pipeline: the validated spreadsheet
 * fields, the name parts extracted for the address, and what resolution and
 * provisioning write into it.
 */
module Records {
  import opened Wrappers

  /** The `status` key of a record. */
  datatype Status = NoStatus | New | Existing | OtherStatus(name: string)

  /** One account left without its group, for manual follow-up. */
  datatype PendingGroup = PendingGroup(name: string, email: string, userId: string, password: string, groupPending: string)

  /** The keys `create_users` writes into a record. */
  datatype Creation = Creation(
    office365Created: bool,
    office365UserId: Option<string>,
    passwordGenerated: Option<string>,
    groupAssigned: Option<string>,
    creationError: Option<string>)

  datatype User = User(
    requestType: string,
    fullName: string,
    fullLastName: string,
    typeDocument: string,
    identificationId: string,
    vinculationType: string,
    academicProgram: string,
    emailPersonal: string,
    firstName: string,
    firstLastName: string,
    secondLastName: string,
    institutionalEmail: Option<string>,
    status: Status,
    statusMessage: Option<string>,
    creation: Option<Creation>,
    createdWithoutGroupList: Option<seq<PendingGroup>>)

  /**
   * One existing directory identity, an (address, display name) pair: what
   * `get_all_users_info` lists and `load_existing_users` indexes.
   */
  datatype UserInfo = UserInfo(email: string, displayName: string)

  /** An item of the provisioning results: a user record, or the trailing metadata item. */
  datatype Entry = UserEntry(user: User) | Metadata(createdWithoutGroup: seq<PendingGroup>)

  /** How many records carry the given status. */
  function CountStatus(us: seq<User>, s: Status): (n: nat)
    ensures n <= |us|
  {
    if us == [] then 0 else (if us[0].status == s then 1 else 0) + CountStatus(us[1..], s)
  }

  /**
   * The records carrying the given status, in order: each record of `us` with
   * that status occurs in `r` as often as in `us`, and no other record occurs.
   * `WithStatusConcat` and `WithStatusOne` give the order.
   */
  function WithStatus(us: seq<User>, s: Status): (r: seq<User>)
    ensures |r| == CountStatus(us, s)
    ensures forall i :: 0 <= i < |r| ==> r[i].status == s
    ensures forall u :: u in r <==> u in us && u.status == s
    ensures forall u :: multiset(r)[u] == if u.status == s then multiset(us)[u] else 0
  {
    if us == [] then [] else
      var head := if us[0].status == s then [us[0]] else [];
      assert us == [us[0]] + us[1..];
      assert multiset(us) == multiset([us[0]]) + multiset(us[1..]);
      head + WithStatus(us[1..], s)
  }

  /** When every record is new or existing, the two counts add up to the whole list. */
  lemma {:induction false} CountNewExisting(us: seq<User>)
    requires forall i :: 0 <= i < |us| ==> us[i].status == New || us[i].status == Existing
    ensures CountStatus(us, New) + CountStatus(us, Existing) == |us|
  {
    if us != [] {
      CountNewExisting(us[1..]);
    }
  }

  lemma {:induction false} WithStatusConcat(a: seq<User>, b: seq<User>, s: Status)
    ensures WithStatus(a + b, s) == WithStatus(a, s) + WithStatus(b, s)
  {
    if a == [] {
      assert a + b == b;
    } else {
      var t := a[1..];
      assert a == [a[0]] + t;
      assert a + b == [a[0]] + (t + b);
      WithStatusCons(a[0], t, s);
      WithStatusCons(a[0], t + b, s);
      WithStatusConcat(t, b, s);
      AppendAssociative(if a[0].status == s then [a[0]] else [], WithStatus(t, s), WithStatus(b, s));
    }
  }

  lemma AppendAssociative(x: seq<User>, y: seq<User>, z: seq<User>)
    ensures (x + y) + z == x + (y + z)
  {
  }

  lemma WithStatusCons(x: User, t: seq<User>, s: Status)
    ensures WithStatus([x] + t, s) == (if x.status == s then [x] else []) + WithStatus(t, s)
  {
    assert ([x] + t)[1..] == t;
  }

  /** A single record is kept exactly when it carries the status. */
  lemma WithStatusOne(x: User, s: Status)
    ensures WithStatus([x], s) == if x.status == s then [x] else []
  {
    WithStatusCons(x, [], s);
    assert [x] + [] == [x];
  }
}
