/**
 * The batch resolution loop (`UserProcessor.process_file`): after the roster
 * is loaded, each candidate is either matched to an existing directory person
 * (taking that person's address) or given a freshly allocated address.
 */
module UserProcessor {
  import opened Wrappers
  import opened Text
  import opened Records
  import opened EmailGenerator

  const ExistingMessage: string := "Usuario ya existe en Office 365"
  const NewMessage: string := "Usuario nuevo"

  /** Python truthiness of the looked-up address. */
  predicate Matched(found: Option<string>) {
    found.Some? && found.value != ""
  }

  /** The record of a matched candidate. */
  function AsExisting(u: User, email: string): User {
    u.(institutionalEmail := Some(email), status := Existing, statusMessage := Some(ExistingMessage))
  }

  /** The record of a new candidate. */
  function AsNew(u: User, email: string): User {
    u.(institutionalEmail := Some(email), status := New, statusMessage := Some(NewMessage))
  }

  /** The loop's state after a prefix of the list: updated records, batch, and the exception if one was raised. */
  datatype Resolution = Resolution(users: seq<User>, batch: set<string>, failure: Option<string>)

  /** An address allocator: the batch so far and a candidate give an address or the message it raises. */
  type Allocator = (set<string>, User) -> Result<string, string>

  /** A roster lookup: a candidate gives the address of the person it matches, if any. */
  type Lookup = User -> Option<string>

  /** The generator's allocation, with the directory's addresses `existing` fixed. */
  function AllocatorOf(existing: set<string>, domain: string): Allocator {
    (b: set<string>, u: User) => Allocate(existing, b, domain, u.firstName, u.firstLastName, u.secondLastName)
  }

  /** The generator's lookup by display name, over the loaded roster `index`. */
  function LookupOf(index: map<string, string>): Lookup {
    (u: User) => RosterLookup(index, u.fullName, u.fullLastName)
  }

  /** An allocator whose every address is, lower-cased, outside the directory and the batch. */
  ghost predicate FreshAllocator(alloc: Allocator, existing: set<string>) {
    forall b, u :: alloc(b, u).Ok? ==> Lower(alloc(b, u).value) !in existing && Lower(alloc(b, u).value) !in b
  }

  /** The generator's allocation never hands out a taken address. */
  lemma {:induction false} AllocatorOfIsFresh(existing: set<string>, domain: string)
    ensures FreshAllocator(AllocatorOf(existing, domain), existing)
  {
    forall b, u | AllocatorOf(existing, domain)(b, u).Ok?
      ensures Lower(AllocatorOf(existing, domain)(b, u).value) !in existing
      ensures Lower(AllocatorOf(existing, domain)(b, u).value) !in b
    {
      AllocateIsFresh(existing, b, domain, u.firstName, u.firstLastName, u.secondLastName);
    }
  }

  /**
   * The loop over `us`, starting from the batch `batch0`: each record is
   * matched with `lookup` or given an address by `alloc`. It stops at the
   * first allocation that raises.
   */
  function ResolveAll(alloc: Allocator, lookup: Lookup, batch0: set<string>, us: seq<User>): Resolution
    decreases |us|
  {
    if us == [] then Resolution([], batch0, None)
    else
      var st := ResolveAll(alloc, lookup, batch0, us[..|us| - 1]);
      var u := us[|us| - 1];
      if st.failure.Some? then st
      else if Matched(lookup(u)) then Resolution(st.users + [AsExisting(u, lookup(u).value)], st.batch, None)
      else match alloc(st.batch, u)
        case Ok(a) => Resolution(st.users + [AsNew(u, a)], Record(st.batch, a), None)
        case Err(m) => Resolution(st.users, st.batch, Some(m))
  }

  /** Without a failure every record is resolved; with one, the records before it are. */
  lemma {:induction false} ResolveAllLength(alloc: Allocator, lookup: Lookup, batch0: set<string>, us: seq<User>)
    ensures var st := ResolveAll(alloc, lookup, batch0, us);
      (st.failure.None? ==> |st.users| == |us|) && (st.failure.Some? ==> |st.users| < |us|)
    decreases |us|
  {
    if us != [] {
      ResolveAllLength(alloc, lookup, batch0, us[..|us| - 1]);
    }
  }

  /** One more record on an unfailed prefix: matched, allocated, or the allocation's failure. */
  lemma {:induction false} ResolveAllStep(alloc: Allocator, lookup: Lookup, batch0: set<string>, us: seq<User>, k: nat)
    requires k < |us|
    requires ResolveAll(alloc, lookup, batch0, us[..k]).failure.None?
    ensures var st := ResolveAll(alloc, lookup, batch0, us[..k]);
      var next := ResolveAll(alloc, lookup, batch0, us[..k + 1]);
      var u := us[k];
      && (Matched(lookup(u)) ==> next == Resolution(st.users + [AsExisting(u, lookup(u).value)], st.batch, None))
      && (!Matched(lookup(u)) && alloc(st.batch, u).Ok? ==>
            next == Resolution(st.users + [AsNew(u, alloc(st.batch, u).value)], Record(st.batch, alloc(st.batch, u).value), None))
      && (!Matched(lookup(u)) && alloc(st.batch, u).Err? ==>
            next == Resolution(st.users, st.batch, Some(alloc(st.batch, u).error)))
  {
    assert us[..k + 1][..k] == us[..k];
  }

  /** Once a failure is raised, later records change nothing. */
  lemma {:induction false} ResolveAllStops(alloc: Allocator, lookup: Lookup, batch0: set<string>, us: seq<User>, n: nat)
    requires n <= |us|
    requires ResolveAll(alloc, lookup, batch0, us[..n]).failure.Some?
    ensures ResolveAll(alloc, lookup, batch0, us) == ResolveAll(alloc, lookup, batch0, us[..n])
    decreases |us|
  {
    if n < |us| {
      var init := us[..|us| - 1];
      assert init[..n] == us[..n];
      ResolveAllStops(alloc, lookup, batch0, init, n);
    } else {
      assert us[..n] == us;
    }
  }

  /** A failure at record `k` after an unfailed prefix is the loop's result: the records before `k` are resolved. */
  lemma {:induction false} ResolveAllFailsAt(alloc: Allocator, lookup: Lookup, batch0: set<string>, us: seq<User>, k: nat)
    requires k < |us|
    requires ResolveAll(alloc, lookup, batch0, us[..k]).failure.None?
    requires ResolveAll(alloc, lookup, batch0, us[..k + 1]).failure.Some?
    ensures var fin := ResolveAll(alloc, lookup, batch0, us);
      && fin == ResolveAll(alloc, lookup, batch0, us[..k + 1])
      && fin.users == ResolveAll(alloc, lookup, batch0, us[..k]).users
      && fin.batch == ResolveAll(alloc, lookup, batch0, us[..k]).batch
      && |fin.users| == k
  {
    ResolveAllStops(alloc, lookup, batch0, us, k + 1);
    ResolveAllStep(alloc, lookup, batch0, us, k);
    ResolveAllLength(alloc, lookup, batch0, us[..k]);
  }

  /**
   * Record by record: the i-th resolved record is the i-th candidate marked
   * existing with the looked-up address when the lookup matches it, and
   * otherwise marked new with the address allocated against the batch left
   * by the records before it.
   */
  lemma {:induction false} ResolveAllAt(alloc: Allocator, lookup: Lookup, batch0: set<string>, us: seq<User>, i: nat)
    requires i < |ResolveAll(alloc, lookup, batch0, us).users|
    ensures i < |us|
    ensures var u := us[i];
      var before := ResolveAll(alloc, lookup, batch0, us[..i]);
      var r := ResolveAll(alloc, lookup, batch0, us).users[i];
      && before.failure.None?
      && (Matched(lookup(u)) ==> r == AsExisting(u, lookup(u).value))
      && (!Matched(lookup(u)) ==> alloc(before.batch, u).Ok? && r == AsNew(u, alloc(before.batch, u).value))
    decreases |us|
  {
    var init := us[..|us| - 1];
    var st := ResolveAll(alloc, lookup, batch0, init);
    ResolveAllLength(alloc, lookup, batch0, init);
    if i < |st.users| {
      ResolveAllAt(alloc, lookup, batch0, init, i);
      assert init[i] == us[i];
      assert init[..i] == us[..i];
    } else {
      assert i == |init|;
      assert init == us[..i];
    }
  }

  /** Every resolved record is new or existing, so the two counters add up to the records resolved. */
  lemma {:induction false} ResolveAllStatuses(alloc: Allocator, lookup: Lookup, batch0: set<string>, us: seq<User>)
    ensures var rs := ResolveAll(alloc, lookup, batch0, us).users;
      && (forall i :: 0 <= i < |rs| ==> rs[i].status == New || rs[i].status == Existing)
      && CountStatus(rs, New) + CountStatus(rs, Existing) == |rs|
  {
    var rs := ResolveAll(alloc, lookup, batch0, us).users;
    forall i | 0 <= i < |rs|
      ensures rs[i].status == New || rs[i].status == Existing
    {
      ResolveAllAt(alloc, lookup, batch0, us, i);
    }
    CountNewExisting(rs);
  }

  /** Resolution keeps every spreadsheet field of the candidate and writes only address, status and message. */
  lemma {:induction false} ResolveAllKeepsFields(alloc: Allocator, lookup: Lookup, batch0: set<string>, us: seq<User>, i: nat)
    requires i < |ResolveAll(alloc, lookup, batch0, us).users|
    ensures i < |us|
    ensures ResolveAll(alloc, lookup, batch0, us).users[i].(institutionalEmail := None, status := NoStatus, statusMessage := None)
         == us[i].(institutionalEmail := None, status := NoStatus, statusMessage := None)
  {
    ResolveAllAt(alloc, lookup, batch0, us, i);
  }

  /** The lower-cased addresses of the new records. */
  function NewAddresses(rs: seq<User>): set<string> {
    set i | 0 <= i < |rs| && rs[i].status == New && rs[i].institutionalEmail.Some? :: Lower(rs[i].institutionalEmail.value)
  }

  /** Every new record carries an address that was, lower-cased, in neither `existing` nor `batch`. */
  predicate NewAreFresh(rs: seq<User>, existing: set<string>, batch: set<string>) {
    forall i :: 0 <= i < |rs| && rs[i].status == New ==>
      rs[i].institutionalEmail.Some?
      && Lower(rs[i].institutionalEmail.value) !in existing
      && Lower(rs[i].institutionalEmail.value) !in batch
  }

  /** No two new records share an address, not even up to case. */
  predicate NewAreDistinct(rs: seq<User>) {
    forall i, j :: 0 <= i < j < |rs| && rs[i].status == New && rs[j].status == New
                   && rs[i].institutionalEmail.Some? && rs[j].institutionalEmail.Some? ==>
      Lower(rs[i].institutionalEmail.value) != Lower(rs[j].institutionalEmail.value)
  }

  lemma {:induction false} NewAddressesAppend(rs: seq<User>, u: User)
    ensures NewAddresses(rs + [u])
         == NewAddresses(rs) + (if u.status == New && u.institutionalEmail.Some? then {Lower(u.institutionalEmail.value)} else {})
  {
    var rs' := rs + [u];
    assert forall i :: 0 <= i < |rs| ==> rs'[i] == rs[i];
    assert rs'[|rs|] == u;
  }

  /** Appending a record whose address is fresh against the grown batch keeps the new records fresh and distinct. */
  lemma {:induction false} FreshAppend(rs: seq<User>, u: User, existing: set<string>, batch0: set<string>)
    requires NewAreFresh(rs, existing, batch0) && NewAreDistinct(rs)
    requires u.status == New ==>
      (u.institutionalEmail.Some?
       && Lower(u.institutionalEmail.value) !in existing
       && Lower(u.institutionalEmail.value) !in batch0 + NewAddresses(rs))
    ensures NewAreFresh(rs + [u], existing, batch0) && NewAreDistinct(rs + [u])
  {
    var rs' := rs + [u];
    assert forall i :: 0 <= i < |rs| ==> rs'[i] == rs[i];
    forall i, j | 0 <= i < j < |rs'| && rs'[i].status == New && rs'[j].status == New
                  && rs'[i].institutionalEmail.Some? && rs'[j].institutionalEmail.Some?
      ensures Lower(rs'[i].institutionalEmail.value) != Lower(rs'[j].institutionalEmail.value)
    {
      if j == |rs| {
        assert Lower(rs[i].institutionalEmail.value) in NewAddresses(rs);
      }
    }
  }

  /**
   * With an allocator that never hands out a taken address, the batch grows
   * by exactly the new records' addresses; every new address was in neither
   * the directory nor the starting batch, and no two new records share an
   * address, not even up to case.
   */
  lemma {:induction false} ResolveAllFresh(alloc: Allocator, lookup: Lookup, existing: set<string>,
                                           batch0: set<string>, us: seq<User>)
    requires FreshAllocator(alloc, existing)
    ensures var st := ResolveAll(alloc, lookup, batch0, us);
      && st.batch == batch0 + NewAddresses(st.users)
      && NewAreFresh(st.users, existing, batch0)
      && NewAreDistinct(st.users)
    decreases |us|
  {
    if us != [] {
      var init := us[..|us| - 1];
      var st := ResolveAll(alloc, lookup, batch0, init);
      ResolveAllFresh(alloc, lookup, existing, batch0, init);
      var u := us[|us| - 1];
      if st.failure.None? {
        if Matched(lookup(u)) {
          var v := AsExisting(u, lookup(u).value);
          NewAddressesAppend(st.users, v);
          FreshAppend(st.users, v, existing, batch0);
        } else if alloc(st.batch, u).Ok? {
          var v := AsNew(u, alloc(st.batch, u).value);
          NewAddressesAppend(st.users, v);
          FreshAppend(st.users, v, existing, batch0);
        }
      }
    }
  }

  /**
   * Matching consults only the roster loaded before the loop: two identical
   * unmatched candidates in one file are both new, and get addresses that
   * differ even up to case.
   */
  lemma {:induction false} IdenticalCandidatesDiffer(alloc: Allocator, lookup: Lookup, existing: set<string>,
                                  batch0: set<string>, us: seq<User>, i: nat, j: nat)
    requires FreshAllocator(alloc, existing)
    requires i < j < |ResolveAll(alloc, lookup, batch0, us).users|
    requires j < |us| && us[i] == us[j]
    requires !Matched(lookup(us[i]))
    ensures var rs := ResolveAll(alloc, lookup, batch0, us).users;
      && rs[i].status == New && rs[j].status == New
      && rs[i].institutionalEmail.Some? && rs[j].institutionalEmail.Some?
      && Lower(rs[i].institutionalEmail.value) != Lower(rs[j].institutionalEmail.value)
  {
    ResolveAllAt(alloc, lookup, batch0, us, i);
    ResolveAllAt(alloc, lookup, batch0, us, j);
    ResolveAllFresh(alloc, lookup, existing, batch0, us);
  }

  /** One allocation of the loop: its address extends the resolution, its failure ends it. */
  lemma {:induction false} AllocateStep(alloc: Allocator, lookup: Lookup, batch0: set<string>, us: seq<User>, k: nat,
                                        done: seq<User>, batch: set<string>, r: Result<string, string>)
    requires k < |us|
    requires ResolveAll(alloc, lookup, batch0, us[..k]) == Resolution(done, batch, None)
    requires !Matched(lookup(us[k])) && r == alloc(batch, us[k])
    ensures r.Ok? ==>
      ResolveAll(alloc, lookup, batch0, us[..k + 1]) == Resolution(done + [AsNew(us[k], r.value)], Record(batch, r.value), None)
    ensures r.Err? ==> ResolveAll(alloc, lookup, batch0, us) == Resolution(done, batch, Some(r.error))
  {
    ResolveAllStep(alloc, lookup, batch0, us, k);
    if r.Err? {
      ResolveAllFailsAt(alloc, lookup, batch0, us, k);
    }
  }

  /** The allocator applied: `generate_email` against the given batch. */
  lemma {:induction false} AllocatorApply(existing: set<string>, domain: string, batch: set<string>, u: User)
    ensures AllocatorOf(existing, domain)(batch, u) == Allocate(existing, batch, domain, u.firstName, u.firstLastName, u.secondLastName)
  {
  }

  /** Writing the resolved record `x` at `k` extends the resolved prefix and keeps the untouched suffix. */
  lemma {:induction false} UpdateAt(before: seq<User>, after: seq<User>, input: seq<User>, k: nat, x: User)
    requires k < |before| == |input| && before[k..] == input[k..]
    requires after == before[k := x]
    ensures after[..k + 1] == before[..k] + [x]
    ensures after[k + 1..] == input[k + 1..]
  {
    assert before[k + 1..] == before[k..][1..];
    assert input[k + 1..] == input[k..][1..];
  }

  /** `UserProcessor`: the address allocator shared by the runs of one process. */
  class UserProcessor {
    const domain: string
    const generator: Generator

    constructor(domain: string)
      ensures this.domain == domain && fresh(generator)
      ensures generator.Valid() && generator.domain == domain
      ensures generator.existingEmails == {} && generator.generatedInBatch == {} && generator.existingUsers == map[]
    {
      this.domain := domain;
      generator := new Generator(domain);
    }

    /**
     * The unmatched case of one pass: `generate_email` for the candidate `u`,
     * record `k` of `input`, which extends the resolution of the records
     * before it or ends it with the allocation's failure.
     */
    method AllocateNext(u: User, k: nat, ghost input: seq<User>, ghost batch0: set<string>,
                        ghost alloc: Allocator, ghost lookup: Lookup, ghost done: seq<User>)
      returns (r: Result<string, string>)
      requires k < |input| && u == input[k]
      requires generator.Valid()
      requires alloc == AllocatorOf(generator.existingEmails, generator.domain)
      requires ResolveAll(alloc, lookup, batch0, input[..k]) == Resolution(done, generator.generatedInBatch, None)
      requires !Matched(lookup(u))
      modifies generator`generatedInBatch
      ensures generator.Valid()
      ensures r.Ok? ==>
        ResolveAll(alloc, lookup, batch0, input[..k + 1]) == Resolution(done + [AsNew(u, r.value)], generator.generatedInBatch, None)
      ensures r.Err? ==> ResolveAll(alloc, lookup, batch0, input) == Resolution(done, generator.generatedInBatch, Some(r.error))
    {
      ghost var batch := generator.generatedInBatch;
      AllocatorApply(generator.existingEmails, generator.domain, batch, u);
      r := generator.GenerateEmail(u.firstName, u.firstLastName, u.secondLastName);
      AllocateStep(alloc, lookup, batch0, input, k, done, batch, r);
    }

    /**
     * One pass of the loop for the candidate `u`, record `k` of `input`: the
     * record resolved through the roster or a new address, or the allocation's
     * message, which ends the resolution.
     */
    method ResolveNext(u: User, k: nat, ghost input: seq<User>, ghost batch0: set<string>,
                       ghost alloc: Allocator, ghost lookup: Lookup, ghost done: seq<User>)
      returns (err: Option<string>, resolved: User)
      requires k < |input| && u == input[k]
      requires generator.Valid()
      requires alloc == AllocatorOf(generator.existingEmails, generator.domain)
      requires lookup == LookupOf(generator.existingUsers)
      requires ResolveAll(alloc, lookup, batch0, input[..k]) == Resolution(done, generator.generatedInBatch, None)
      modifies generator`generatedInBatch
      ensures generator.Valid()
      ensures err.None? ==>
        ResolveAll(alloc, lookup, batch0, input[..k + 1]) == Resolution(done + [resolved], generator.generatedInBatch, None)
      ensures err.Some? ==> ResolveAll(alloc, lookup, batch0, input) == Resolution(done, generator.generatedInBatch, err)
    {
      var found := generator.CheckExistingUser(u.fullName, u.fullLastName);
      assert found == lookup(u);
      if found.Some? && found.value != "" {
        ResolveAllStep(alloc, lookup, batch0, input, k);
        return None, AsExisting(u, found.value);
      }
      var r := AllocateNext(u, k, input, batch0, alloc, lookup, done);
      if r.Err? {
        return Some(r.error), u;
      }
      return None, AsNew(u, r.value);
    }

    /**
     * The resolution loop over the spreadsheet's records, in order, against the
     * loaded state. If an allocation raises, the records before it are updated,
     * the rest are untouched, and the exception's message is returned.
     */
    method ResolveUsers(users: array<User>, ghost alloc: Allocator, ghost lookup: Lookup) returns (failure: Option<string>)
      requires generator.Valid()
      requires alloc == AllocatorOf(generator.existingEmails, generator.domain)
      requires lookup == LookupOf(generator.existingUsers)
      modifies generator`generatedInBatch, users
      ensures generator.Valid()
      ensures var st := ResolveAll(alloc, lookup, old(generator.generatedInBatch), old(users[..]));
        && failure == st.failure
        && generator.generatedInBatch == st.batch
        && |st.users| <= users.Length
        && users[..|st.users|] == st.users
        && users[|st.users|..] == old(users[..])[|st.users|..]
    {
      ghost var input := users[..];
      ghost var batch0 := generator.generatedInBatch;
      var k := 0;
      while k < users.Length
        invariant 0 <= k <= users.Length
        invariant generator.Valid()
        invariant ResolveAll(alloc, lookup, batch0, input[..k]) == Resolution(users[..k], generator.generatedInBatch, None)
        invariant users[k..] == input[k..]
      {
        assert users[k] == input[k];
        var err, resolved := ResolveNext(users[k], k, input, batch0, alloc, lookup, users[..k]);
        if err.Some? {
          return err;
        }
        ghost var before := users[..];
        users[k] := resolved;
        UpdateAt(before, users[..], input, k, resolved);
        k := k + 1;
      }
      assert input[..users.Length] == input;
      return None;
    }

    /**
     * `process_file` after the spreadsheet has been read into `users`: loads the
     * directory's people `infos` into the roster and the set of taken
     * addresses, then resolves the records as `ResolveUsers` does.
     */
    method ProcessFile(users: array<User>, infos: seq<UserInfo>) returns (failure: Option<string>)
      requires generator.Valid()
      modifies generator, users
      ensures generator.Valid()
      ensures generator.existingUsers == IndexRoster(old(generator.existingUsers), infos)
      ensures generator.existingEmails == old(generator.existingEmails) + RosterEmails(infos)
      ensures var st := ResolveAll(AllocatorOf(generator.existingEmails, generator.domain),
                                   LookupOf(generator.existingUsers), old(generator.generatedInBatch), old(users[..]));
        && failure == st.failure
        && generator.generatedInBatch == st.batch
        && |st.users| <= users.Length
        && users[..|st.users|] == st.users
        && users[|st.users|..] == old(users[..])[|st.users|..]
    {
      generator.LoadExistingUsers(infos);
      failure := ResolveUsers(users, AllocatorOf(generator.existingEmails, generator.domain), LookupOf(generator.existingUsers));
    }
  }
}
