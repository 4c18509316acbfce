/**
 * Loading the directory of chat users (`getSlackUsers`, index.js:14-43).
 *
 * The directory is asked for pages of at most SLACK_USER_LIMIT users. Each
 * page is reduced to an object keyed by e-mail address holding
 * `[user.name, user.id]`, leaving out bots, deleted users and users without
 * an e-mail address; the pages are merged with object spread until a page
 * comes back without a next cursor.
 */
module SlackDirectory {
  import opened Wrappers
  import opened JsObject

  /** Page size requested from the directory. */
  const SLACK_USER_LIMIT: int := 30

  /** One entry of `response.members`. */
  datatype Member = Member(
    name: string,
    id: string,
    isBot: bool,
    deleted: bool,
    email: Option<string>)  // `profile.email`; None when the profile has none

  /**
   * One answer of the listing call: its members and
   * `response_metadata.next_cursor`, where "" means there is no next page.
   */
  datatype Page = Page(members: seq<Member>, nextCursor: string)

  /** The cursor argument: the number 0 on the first call, a token afterwards. */
  datatype Cursor = Zero | Token(token: string)

  /** The arguments of one `users.list` call. */
  datatype ListRequest = ListRequest(cursor: Cursor, limit: int)

  /** The value stored under an e-mail address: `[user.name, user.id]`. */
  datatype SlackIdentity = SlackIdentity(username: string, slackId: string)

  /**
   * The e-mail address, with "" standing for a missing one: it is falsy
   * exactly when the profile has no address or an empty one.
   */
  function Email(m: Member): (e: string)
    ensures |e| > 0 <==> m.email.Some? && |m.email.value| > 0
    ensures |e| > 0 ==> e == m.email.value
  {
    m.email.GetOr("")
  }

  /**
   * The filter of the reduce: a member is dropped when it is a bot, when it
   * is deleted, or when its address is missing or empty.
   */
  function Kept(m: Member): (kept: bool)
    ensures kept <==> !m.isBot && !m.deleted && m.email.Some? && |m.email.value| > 0
  {
    !m.isBot && !m.deleted && Email(m) != ""
  }

  function Identity(m: Member): SlackIdentity {
    SlackIdentity(m.name, m.id)
  }

  /** A cursor is truthy when it is a non-empty string. */
  function Truthy(cursor: string): (truthy: bool)
    ensures truthy <==> cursor != ""
  {
    |cursor| > 0
  }

  /**
   * The reduce over one page's members, starting from `{}`: each kept member
   * assigns `t[email] = [name, id]`, so a later member overwrites an earlier
   * one with the same address.
   */
  function FormatUsers(ms: seq<Member>): (t: Obj<SlackIdentity>)
    ensures Valid(t)
    decreases |ms|
  {
    if ms == [] then Empty()
    else
      var t, u := FormatUsers(ms[..|ms| - 1]), ms[|ms| - 1];
      if Kept(u) then Put(t, Email(u), Identity(u)) else t
  }

  /** The e-mail addresses of the kept members, in order, repetitions included. */
  function KeptEmails(ms: seq<Member>): (r: seq<string>)
    ensures forall x :: x in r <==> exists m :: m in ms && Kept(m) && Email(m) == x
    decreases |ms|
  {
    if ms == [] then []
    else
      var init, u := ms[..|ms| - 1], ms[|ms| - 1];
      assert ms == init + [u];
      if Kept(u) then KeptEmails(init) + [Email(u)] else KeptEmails(init)
  }

  /** The members of all pages, page after page. */
  function AllMembers(pages: seq<Page>): (r: seq<Member>)
    ensures forall m :: m in r <==> exists i :: 0 <= i < |pages| && m in pages[i].members
    decreases |pages|
  {
    if pages == [] then []
    else
      var init := pages[..|pages| - 1];
      assert forall i :: 0 <= i < |init| ==> init[i] == pages[i];
      AllMembers(init) + pages[|pages| - 1].members
  }

  /**
   * The object after the given pages: the first page's reduce, then
   * `users = {...users, ...newUsers}` for every later page.
   */
  function Merged(pages: seq<Page>): (r: Obj<SlackIdentity>)
    requires |pages| > 0
    ensures Valid(r)
    decreases |pages|
  {
    if |pages| == 1 then FormatUsers(pages[0].members)
    else Spread(Merged(pages[..|pages| - 1]), FormatUsers(pages[|pages| - 1].members))
  }

  /** The directory eventually answers with a page that has no next cursor. */
  ghost predicate HasLastPage(pages: seq<Page>) {
    exists i :: 0 <= i < |pages| && !Truthy(pages[i].nextCursor)
  }

  /** The position of some answer with a falsy cursor. */
  ghost function LastPageIndex(pages: seq<Page>): (i: nat)
    requires HasLastPage(pages)
    ensures i < |pages| && !Truthy(pages[i].nextCursor)
  {
    var i :| 0 <= i < |pages| && !Truthy(pages[i].nextCursor); i
  }

  /**
   * `getSlackUsers`. `pages[n]` is the directory's answer to the n-th listing
   * call. The loop stops at the first answer whose cursor is falsy; the
   * requests made are returned beside the merged object. What the requests
   * are is read off `RequestsUpTo` by `RequestsUpToShape`, and that every
   * earlier answer had a cursor by `CursorsBeforeAll`.
   */
  method GetSlackUsers(pages: seq<Page>) returns (users: Obj<SlackIdentity>, requests: seq<ListRequest>)
    requires HasLastPage(pages)
    ensures 0 < |requests| <= |pages|
    ensures !Truthy(pages[|requests| - 1].nextCursor)
    ensures CursorsBefore(pages, |requests| - 1)
    ensures requests == RequestsUpTo(pages, |requests| - 1)
    ensures users == Merged(pages[..|requests|])
  {
    ghost var last := LastPageIndex(pages);
    var n := 0;  // the index of the latest answer
    requests := [ListRequest(Zero, SLACK_USER_LIMIT)];
    var nextCursor := pages[0].nextCursor;
    users := FormatUsers(pages[0].members);
    while Truthy(nextCursor)
      invariant 0 <= n <= last && |requests| == n + 1
      invariant nextCursor == pages[n].nextCursor
      invariant CursorsBefore(pages, n)
      invariant requests == RequestsUpTo(pages, n)
      invariant users == Merged(pages[..n + 1])
      decreases last - n
    {
      requests := requests + [ListRequest(Token(nextCursor), SLACK_USER_LIMIT)];
      n := n + 1;
      var newUsers := FormatUsers(pages[n].members);
      nextCursor := pages[n].nextCursor;
      users := Spread(users, newUsers);
      MergedNext(pages, n);
    }
  }

  /** Each of the first n answers carries a truthy cursor, so the loop asked again after it. */
  predicate CursorsBefore(pages: seq<Page>, n: nat)
    requires n <= |pages|
  {
    n == 0 || (Truthy(pages[n - 1].nextCursor) && CursorsBefore(pages, n - 1))
  }

  /** The loop went past an answer only when that answer carried a cursor. */
  lemma {:induction false} CursorsBeforeAll(pages: seq<Page>, n: nat)
    requires n <= |pages| && CursorsBefore(pages, n)
    ensures forall k :: 0 <= k < n ==> Truthy(pages[k].nextCursor)
  {
    if n > 0 {
      CursorsBeforeAll(pages, n - 1);
    }
  }

  /** The list calls made for the first n + 1 answers. */
  function RequestsUpTo(pages: seq<Page>, n: nat): (r: seq<ListRequest>)
    requires n < |pages|
    ensures |r| == n + 1
  {
    if n == 0 then [ListRequest(Zero, SLACK_USER_LIMIT)]
    else RequestsUpTo(pages, n - 1) + [ListRequest(Token(pages[n - 1].nextCursor), SLACK_USER_LIMIT)]
  }

  /** Call 1 passes cursor `0`, call k + 1 passes the cursor of answer k, and each asks for 30 users. */
  lemma {:induction false} RequestsUpToShape(pages: seq<Page>, n: nat)
    requires n < |pages|
    ensures RequestsUpTo(pages, n)[0] == ListRequest(Zero, SLACK_USER_LIMIT)
    ensures forall k :: 0 < k <= n ==>
      RequestsUpTo(pages, n)[k] == ListRequest(Token(pages[k - 1].nextCursor), SLACK_USER_LIMIT)
  {
    if n > 0 {
      RequestsUpToShape(pages, n - 1);
    }
  }

  /** One more turn of the loop: spreading the next page's reduce extends the merge by that page. */
  lemma MergedNext(pages: seq<Page>, n: nat)
    requires 0 < n < |pages|
    ensures Spread(Merged(pages[..n]), FormatUsers(pages[n].members)) == Merged(pages[..n + 1])
  {
    assert pages[..n + 1][..n] == pages[..n];
  }

  /** `ms[j]` is the last kept member whose e-mail address is `k`. */
  ghost predicate IsLastKept(ms: seq<Member>, k: string, j: int) {
    && 0 <= j < |ms|
    && Kept(ms[j]) && Email(ms[j]) == k
    && forall j' :: j < j' < |ms| ==> !(Kept(ms[j']) && Email(ms[j']) == k)
  }

  /** Reducing two runs of members one after the other is spreading their reduces. */
  lemma {:induction false} FormatAppend(a: seq<Member>, b: seq<Member>)
    ensures FormatUsers(a + b) == Spread(FormatUsers(a), FormatUsers(b))
    decreases |b|
  {
    if b == [] {
      assert a + b == a;
      SpreadEmpty(FormatUsers(a));
    } else {
      var init, u := b[..|b| - 1], b[|b| - 1];
      FormatAppend(a, init);
      var ab := a + b;
      assert ab[..|ab| - 1] == a + init && ab[|ab| - 1] == u;
      if Kept(u) {
        SpreadPut(FormatUsers(a), FormatUsers(init), Email(u), Identity(u));
      }
    }
  }

  /** Merging the pages with spread gives the reduce of all their members at once. */
  lemma {:induction false} MergedIsFormatOfAll(pages: seq<Page>)
    requires |pages| > 0
    ensures Merged(pages) == FormatUsers(AllMembers(pages))
    decreases |pages|
  {
    if |pages| == 1 {
      assert pages[..0] == [];
      assert AllMembers(pages) == [] + pages[0].members == pages[0].members;
    } else {
      var init := pages[..|pages| - 1];
      MergedIsFormatOfAll(init);
      FormatAppend(AllMembers(init), pages[|pages| - 1].members);
    }
  }

  /** The keys of a reduce are the kept addresses in order of first occurrence. */
  lemma {:induction false} FormatKeyOrder(ms: seq<Member>)
    ensures FormatUsers(ms).keys == AppendNew([], KeptEmails(ms))
    decreases |ms|
  {
    if ms != [] {
      var init, u := ms[..|ms| - 1], ms[|ms| - 1];
      FormatKeyOrder(init);
      if Kept(u) {
        var e := KeptEmails(init) + [Email(u)];
        assert e[..|e| - 1] == KeptEmails(init);
      }
    }
  }

  /** An address is a key of a reduce exactly when some kept member has it. */
  lemma FormatKeySet(ms: seq<Member>, k: string)
    ensures k in FormatUsers(ms).vals <==> exists m :: m in ms && Kept(m) && Email(m) == k
  {
    FormatKeyOrder(ms);
  }

  /** The value under an address comes from the last kept member with that address. */
  lemma {:induction false} FormatLastWins(ms: seq<Member>, k: string, j: int)
    requires IsLastKept(ms, k, j)
    ensures k in FormatUsers(ms).vals && FormatUsers(ms).vals[k] == Identity(ms[j])
    decreases |ms|
  {
    var init := ms[..|ms| - 1];
    if j < |ms| - 1 {
      assert IsLastKept(init, k, j);
      FormatLastWins(init, k, j);
    }
  }

  /** A bot, a deleted user or a user without an address changes nothing, wherever it stands. */
  lemma RejectedMemberIgnored(a: seq<Member>, m: Member, b: seq<Member>)
    requires !Kept(m)
    ensures FormatUsers(a + [m] + b) == FormatUsers(a + b)
  {
    assert (a + [m])[..|a|] == a;
    FormatAppend(a + [m], b);
    FormatAppend(a, b);
  }

  /**
   * The keys of the loaded directory are exactly the addresses of the kept
   * members of all pages: no bot, deleted user or user without an address
   * contributes a key.
   */
  lemma DirectoryKeys(pages: seq<Page>, k: string)
    requires |pages| > 0
    ensures k in Merged(pages).vals <==>
      exists i, m :: 0 <= i < |pages| && m in pages[i].members && Kept(m) && Email(m) == k
  {
    MergedIsFormatOfAll(pages);
    FormatKeySet(AllMembers(pages), k);
  }

  /**
   * Within a page and across pages the last kept member with an address
   * decides its value `[name, id]`.
   */
  lemma DirectoryLastWins(pages: seq<Page>, k: string, j: int)
    requires |pages| > 0
    requires IsLastKept(AllMembers(pages), k, j)
    ensures k in Merged(pages).vals && Merged(pages).vals[k] == Identity(AllMembers(pages)[j])
  {
    MergedIsFormatOfAll(pages);
    FormatLastWins(AllMembers(pages), k, j);
  }

  /**
   * The keys of the loaded directory are listed once each, in the order in
   * which their addresses first occur among the kept members of the pages.
   */
  lemma DirectoryKeyOrder(pages: seq<Page>)
    requires |pages| > 0
    ensures Merged(pages).keys == AppendNew([], KeptEmails(AllMembers(pages)))
    ensures forall i, j :: 0 <= i < j < |Merged(pages).keys| ==>
      FirstIndex(KeptEmails(AllMembers(pages)), Merged(pages).keys[i])
        < FirstIndex(KeptEmails(AllMembers(pages)), Merged(pages).keys[j])
  {
    MergedIsFormatOfAll(pages);
    FormatKeyOrder(AllMembers(pages));
    FirstOccurrenceOrder(KeptEmails(AllMembers(pages)));
  }

  /** A later page never moves a key: the keys after n pages start the final key list. */
  lemma {:induction false} MergedKeepsPositions(pages: seq<Page>, n: int)
    requires 0 < n <= |pages|
    ensures Merged(pages[..n]).keys <= Merged(pages).keys
    decreases |pages|
  {
    if n < |pages| {
      var init := pages[..|pages| - 1];
      MergedKeepsPositions(init, n);
      assert init[..n] == pages[..n];
    } else {
      assert pages[..n] == pages;
    }
  }
}
