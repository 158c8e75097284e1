/**
 * The decision logic of the directory client: how responses are classified,
 * how a group id is cached, how the user listing is paged and filtered, and
 * how a new account's request body is built. Tokens and the transport are not
 * modelled: every response arrives as a parameter.
 */
module GraphApi {
  import opened Wrappers
  import opened Text
  import opened Records

  /** An HTTP response as the client sees it: its status and its body text. */
  datatype Response = Response(status: int, body: string)

  // ------------------------------------------------------------------
  // add_user_to_group, email_exists, send_email
  // ------------------------------------------------------------------

  /** The two phrasings of "the user is already a member" that count as success. */
  predicate AlreadyMember(body: string) {
    Contains(Lower(body), "already exist") || Contains(Lower(body), "already a member")
  }

  /** `add_user_to_group`: 204 succeeds, a 400 saying the user is already a member succeeds, anything else fails. */
  function AddUserToGroup(r: Response): (ok: bool)
    ensures ok ==> r.status == 204 || r.status == 400
    ensures r.status == 204 ==> ok
    ensures r.status == 400 ==>
      (ok <==> Contains(Lower(r.body), "already exist") || Contains(Lower(r.body), "already a member"))
  {
    if r.status == 204 then true
    else if r.status == 400 then AlreadyMember(r.body)
    else false
  }

  /** A pattern found in a text leaves each of its prefixes found there too. */
  lemma {:induction false} ContainsPrefixOfPattern(text: string, p: string, q: string)
    requires Contains(text, p + q)
    ensures Contains(text, p)
    decreases |text|
  {
    if StartsWith(text, p + q) {
      assert text[..|p|] == (p + q)[..|p|];
    } else {
      ContainsPrefixOfPattern(text[1..], p, q);
    }
  }

  /** The plural spelling "already exists" is also taken as success, whatever its letter case. */
  lemma {:induction false} AlreadyExistsAccepted(body: string)
    requires Contains(Lower(body), "already exists")
    ensures AddUserToGroup(Response(400, body))
  {
    assert "already exists" == "already exist" + "s";
    ContainsPrefixOfPattern(Lower(body), "already exist", "s");
  }

  /** The classification ignores the letter case of the body. */
  lemma {:induction false} AddUserToGroupIgnoresCase(status: int, body: string)
    ensures AddUserToGroup(Response(status, Lower(body))) == AddUserToGroup(Response(status, body))
  {
    LowerIdempotent(body);
  }

  /** A 400 that does not say the user is already a member is a failure, as is every status but 204 and 400. */
  lemma {:induction false} AddUserToGroupFailures(r: Response)
    ensures r.status == 400 && !AlreadyMember(r.body) ==> !AddUserToGroup(r)
    ensures r.status != 204 && r.status != 400 ==> !AddUserToGroup(r)
  {
  }

  /** `email_exists`: only 200 means the address exists; 404 and every other status mean it does not. */
  function EmailExists(r: Response): (exists_: bool)
    ensures exists_ <==> r.status == 200
  {
    r.status == 200
  }

  /** `send_email`: only 202 is a successful send. */
  function SendEmail(r: Response): (sent: bool)
    ensures sent <==> r.status == 202
  {
    r.status == 202
  }

  // ------------------------------------------------------------------
  // create_user
  // ------------------------------------------------------------------

  /** `email.split('@')[0]`: the text before the first '@', or all of it. */
  function MailNickname(email: string): (nick: string)
    ensures |nick| <= |email|
  {
    if email == [] || email[0] == '@' then [] else [email[0]] + MailNickname(email[1..])
  }

  /** The nickname is the longest '@'-free prefix of the address. */
  lemma {:induction false} MailNicknameShape(email: string)
    ensures var nick := MailNickname(email);
      && StartsWith(email, nick)
      && '@' !in nick
      && (|nick| < |email| <==> '@' in email)
      && (|nick| < |email| ==> email[|nick|] == '@')
  {
    if email != [] && email[0] != '@' {
      MailNicknameShape(email[1..]);
      assert email == [email[0]] + email[1..];
    }
  }

  /** An address made of an '@'-free local part and a domain has that local part as its nickname. */
  lemma {:induction false} MailNicknameOfAddress(local: string, domain: string)
    requires '@' !in local
    ensures MailNickname(local + "@" + domain) == local
  {
    if local != [] {
      assert (local + "@" + domain)[1..] == local[1..] + "@" + domain;
      MailNicknameOfAddress(local[1..], domain);
    } else {
      assert local + "@" + domain == "@" + domain;
    }
  }

  /** The request body `create_user` posts. */
  datatype NewUserBody = NewUserBody(
    accountEnabled: bool,
    displayName: string,
    mailNickname: string,
    userPrincipalName: string,
    mail: string,
    password: string,
    forceChangePasswordNextSignIn: bool)

  /** The body of a new account: enabled, the address as both sign-in name and mail, a password to change at first sign-in. */
  function CreateUserBody(email: string, displayName: string, password: string): (b: NewUserBody)
    ensures b.accountEnabled && b.forceChangePasswordNextSignIn
    ensures b.userPrincipalName == email && b.mail == email
    ensures StartsWith(email, b.mailNickname) && '@' !in b.mailNickname
    ensures b.displayName == displayName && b.password == password
  {
    MailNicknameShape(email);
    NewUserBody(true, displayName, MailNickname(email), email, email, password, true)
  }

  /** What `create_user` returns. */
  datatype CreateResult = CreateResult(success: bool, userId: Option<string>, email: string, error: Option<string>)

  /** `create_user`'s outcome: 201 with the new id; anything else fails with the body text. */
  function CreateUser(email: string, r: Response, newId: string): (c: CreateResult)
    ensures c.success <==> r.status == 201
    ensures c.email == email
    ensures c.success ==> c.userId == Some(newId) && c.error.None?
    ensures !c.success ==> c.userId.None? && c.error == Some(r.body)
  {
    if r.status == 201 then CreateResult(true, Some(newId), email, None)
    else CreateResult(false, None, email, Some(r.body))
  }

  // ------------------------------------------------------------------
  // get_group_id
  // ------------------------------------------------------------------

  /** The group search's response: its status and the ids of the groups it lists. */
  datatype GroupResponse = GroupResponse(status: int, ids: seq<string>)

  /** `get_group_id` on a cache: the id it returns and the cache it leaves. */
  function GroupLookup(cache: map<string, string>, name: string, r: GroupResponse): (Option<string>, map<string, string>) {
    if name in cache then (Some(cache[name]), cache)
    else if r.status == 200 && r.ids != [] then (Some(r.ids[0]), cache[name := r.ids[0]])
    else (None, cache)
  }

  /**
   * A cache hit returns the stored id untouched; a found group's first id is
   * returned and remembered; a miss or an error returns nothing and caches
   * nothing. No entry already cached ever changes.
   */
  lemma {:induction false} GroupLookupCache(cache: map<string, string>, name: string, r: GroupResponse)
    ensures var (id, after) := GroupLookup(cache, name, r);
      && (name in cache ==> id == Some(cache[name]) && after == cache)
      && (name !in cache && r.status == 200 && r.ids != [] ==> id == Some(r.ids[0]))
      && (name !in cache && (r.status != 200 || r.ids == []) ==> id.None? && after == cache)
      && (id.Some? ==> name in after && after[name] == id.value)
      && after.Keys == cache.Keys + (if id.Some? then {name} else {})
      && (forall n :: n in cache ==> n in after && after[n] == cache[n])
  {
  }

  /** Once a group has been found, every later lookup of it returns the same id without consulting the response. */
  lemma {:induction false} GroupLookupRepeat(cache: map<string, string>, name: string, r: GroupResponse, later: GroupResponse)
    requires GroupLookup(cache, name, r).0.Some?
    ensures var (id, after) := GroupLookup(cache, name, r);
      GroupLookup(after, name, later) == (id, after)
  {
  }

  // ------------------------------------------------------------------
  // get_all_user_emails, get_all_users_info
  // ------------------------------------------------------------------

  /** A directory entry as listed: `mail`, `userPrincipalName` and `displayName`, each possibly absent. */
  datatype DirectoryUser = DirectoryUser(mail: Option<string>, userPrincipalName: Option<string>, displayName: string)

  /** `mail or userPrincipalName`: the first one present and non-empty. */
  function Address(u: DirectoryUser): (a: Option<string>)
    ensures a.Some? ==> a.value != []
  {
    if u.mail.Some? && u.mail.value != [] then u.mail
    else if u.userPrincipalName.Some? && u.userPrincipalName.value != [] then u.userPrincipalName
    else None
  }

  /** An entry is kept when its address, lower-cased, is in the domain. */
  predicate Kept(u: DirectoryUser, domain: string) {
    Address(u).Some? && EndsWith(Lower(Address(u).value), "@" + domain)
  }

  /** The stored form of a kept entry's address. */
  function StoredAddress(u: DirectoryUser, domain: string): (e: string)
    requires Kept(u, domain)
    ensures IsLowerCase(e) && EndsWith(e, "@" + domain)
  {
    LowerIdempotent(Address(u).value);
    Lower(Address(u).value)
  }

  /** One page of the listing: its status, its entries and its link to the next page. */
  datatype Page = Page(status: int, users: seq<DirectoryUser>, nextLink: Option<string>)

  /** A page after which the loop stops: an error, or no (or an empty) next link. */
  predicate Terminal(p: Page) {
    p.status != 200 || p.nextLink.None? || p.nextLink.value == []
  }

  /** The server's chain of pages ends somewhere within `pages`. */
  predicate ChainEnds(pages: seq<Page>) {
    pages != [] && (Terminal(pages[0]) || ChainEnds(pages[1..]))
  }

  /** How many pages the loop requests: up to and including the first terminal one. */
  function ChainLength(pages: seq<Page>): (n: nat)
    requires ChainEnds(pages)
    ensures 1 <= n <= |pages| && Terminal(pages[n - 1])
    ensures forall k :: 0 <= k < n - 1 ==> !Terminal(pages[k])
  {
    if Terminal(pages[0]) then 1 else 1 + ChainLength(pages[1..])
  }

  /** The stored addresses of the kept entries. */
  function EntryEmails(us: seq<DirectoryUser>, domain: string): set<string> {
    if us == [] then {} else
      var last := us[|us| - 1];
      EntryEmails(us[..|us| - 1], domain) + (if Kept(last, domain) then {StoredAddress(last, domain)} else {})
  }

  /** The addresses gathered from a run of pages; an error page contributes none. */
  function PagesEmails(pages: seq<Page>, domain: string): set<string> {
    if pages == [] then {} else
      var last := pages[|pages| - 1];
      PagesEmails(pages[..|pages| - 1], domain) + (if last.status == 200 then EntryEmails(last.users, domain) else {})
  }

  /** The pairs of the kept entries, in listing order. */
  function EntryInfos(us: seq<DirectoryUser>, domain: string): seq<UserInfo> {
    if us == [] then [] else
      var last := us[|us| - 1];
      EntryInfos(us[..|us| - 1], domain) + (if Kept(last, domain) then [UserInfo(StoredAddress(last, domain), last.displayName)] else [])
  }

  /** The pairs gathered from a run of pages, in page order. */
  function PagesInfos(pages: seq<Page>, domain: string): seq<UserInfo> {
    if pages == [] then [] else
      var last := pages[|pages| - 1];
      PagesInfos(pages[..|pages| - 1], domain) + (if last.status == 200 then EntryInfos(last.users, domain) else [])
  }

  /** The entries' addresses are exactly the stored addresses of the kept entries. */
  lemma {:induction false} EntryEmailsExact(us: seq<DirectoryUser>, domain: string)
    ensures forall e :: e in EntryEmails(us, domain) <==> exists k :: 0 <= k < |us| && Kept(us[k], domain) && StoredAddress(us[k], domain) == e
  {
    if us != [] {
      var init := us[..|us| - 1];
      EntryEmailsExact(init, domain);
      assert forall k :: 0 <= k < |init| ==> init[k] == us[k];
      forall e | e in EntryEmails(us, domain)
        ensures exists k :: 0 <= k < |us| && Kept(us[k], domain) && StoredAddress(us[k], domain) == e
      {
        if e in EntryEmails(init, domain) {
          var k :| 0 <= k < |init| && Kept(init[k], domain) && StoredAddress(init[k], domain) == e;
          assert us[k] == init[k];
        } else {
          assert Kept(us[|us| - 1], domain) && StoredAddress(us[|us| - 1], domain) == e;
        }
      }
    }
  }

  /** Every gathered address is lower-case and in the domain. */
  lemma {:induction false} PagesEmailsWellFormed(pages: seq<Page>, domain: string)
    ensures forall e :: e in PagesEmails(pages, domain) ==> IsLowerCase(e) && EndsWith(e, "@" + domain)
  {
    if pages != [] {
      var last := pages[|pages| - 1];
      PagesEmailsWellFormed(pages[..|pages| - 1], domain);
      EntryEmailsExact(last.users, domain);
    }
  }

  /** The set of the listed pairs' addresses is the set the address listing gathers. */
  lemma {:induction false} EntryInfosAgree(us: seq<DirectoryUser>, domain: string)
    ensures (set i | i in EntryInfos(us, domain) :: i.email) == EntryEmails(us, domain)
  {
    if us != [] {
      var init := us[..|us| - 1];
      EntryInfosAgree(init, domain);
    }
  }

  lemma {:induction false} PagesInfosAgree(pages: seq<Page>, domain: string)
    ensures (set i | i in PagesInfos(pages, domain) :: i.email) == PagesEmails(pages, domain)
  {
    if pages != [] {
      var init := pages[..|pages| - 1];
      PagesInfosAgree(init, domain);
      EntryInfosAgree(pages[|pages| - 1].users, domain);
    }
  }

  /** `get_all_user_emails`: follow the next links from the first page until a terminal page. */
  method GetAllUserEmails(pages: seq<Page>, domain: string) returns (emails: set<string>, requests: nat)
    requires ChainEnds(pages)
    ensures requests == ChainLength(pages)
    ensures emails == PagesEmails(pages[..requests], domain)
  {
    ghost var n := ChainLength(pages);
    emails := {};
    requests := 0;
    var more := true;
    while more
      invariant more ==> requests < n
      invariant !more ==> requests == n
      invariant emails == PagesEmails(pages[..requests], domain)
      decreases n - requests, more
    {
      var page := pages[requests];
      assert pages[..requests + 1][..requests] == pages[..requests];
      if page.status == 200 {
        var found := EntryEmailsOf(page.users, domain);
        emails := emails + found;
        more := page.nextLink.Some? && page.nextLink.value != [];
      } else {
        more := false;
      }
      requests := requests + 1;
    }
  }

  /** The listing loop over one page's entries, for the address set. */
  method EntryEmailsOf(us: seq<DirectoryUser>, domain: string) returns (found: set<string>)
    ensures found == EntryEmails(us, domain)
  {
    found := {};
    for j := 0 to |us|
      invariant found == EntryEmails(us[..j], domain)
    {
      assert us[..j + 1][..j] == us[..j];
      var u := us[j];
      var email := Address(u);
      if email.Some? && EndsWith(Lower(email.value), "@" + domain) {
        found := found + {Lower(email.value)};
      }
    }
    assert us[..|us|] == us;
  }

  /** `get_all_users_info`: the same paging, collecting (address, display name) pairs in order. */
  method GetAllUsersInfo(pages: seq<Page>, domain: string) returns (infos: seq<UserInfo>, requests: nat)
    requires ChainEnds(pages)
    ensures requests == ChainLength(pages)
    ensures infos == PagesInfos(pages[..requests], domain)
  {
    ghost var n := ChainLength(pages);
    infos := [];
    requests := 0;
    var more := true;
    while more
      invariant more ==> requests < n
      invariant !more ==> requests == n
      invariant infos == PagesInfos(pages[..requests], domain)
      decreases n - requests, more
    {
      var page := pages[requests];
      assert pages[..requests + 1][..requests] == pages[..requests];
      if page.status == 200 {
        var found := EntryInfosOf(page.users, domain);
        infos := infos + found;
        more := page.nextLink.Some? && page.nextLink.value != [];
      } else {
        more := false;
      }
      requests := requests + 1;
    }
  }

  /** The listing loop over one page's entries, for the pairs. */
  method EntryInfosOf(us: seq<DirectoryUser>, domain: string) returns (found: seq<UserInfo>)
    ensures found == EntryInfos(us, domain)
  {
    found := [];
    for j := 0 to |us|
      invariant found == EntryInfos(us[..j], domain)
    {
      assert us[..j + 1][..j] == us[..j];
      var u := us[j];
      var email := Address(u);
      if email.Some? && EndsWith(Lower(email.value), "@" + domain) {
        found := found + [UserInfo(Lower(email.value), u.displayName)];
      }
    }
    assert us[..|us|] == us;
  }

  /** The client's state: the group-id cache and how many group searches it has sent. */
  class GraphClient {
    var groupCache: map<string, string>
    var groupSearches: nat

    constructor ()
      ensures groupCache == map[] && groupSearches == 0
    {
      groupCache := map[];
      groupSearches := 0;
    }

    /** `get_group_id`: answer from the cache, or search once and cache a found id. */
    method GetGroupId(name: string, r: GroupResponse) returns (id: Option<string>)
      modifies this
      ensures (id, groupCache) == GroupLookup(old(groupCache), name, r)
      ensures groupSearches == old(groupSearches) + (if name in old(groupCache) then 0 else 1)
    {
      if name in groupCache {
        return Some(groupCache[name]);
      }
      groupSearches := groupSearches + 1;
      if r.status == 200 {
        if r.ids != [] {
          var groupId := r.ids[0];
          groupCache := groupCache[name := groupId];
          return Some(groupId);
        } else {
          return None;
        }
      } else {
        return None;
      }
    }
  }
}
