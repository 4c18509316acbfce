/**
 * The body of `Main` after loading the directory (index.js:174-202): for each
 * e-mail address, in key order, search the tracking service; skip the address
 * when no account id comes back; otherwise write `{slack_username, slack_id}`
 * to the account's `metadata` property, and stop the whole run at the first
 * write that fails.
 */
module UserSync {
  import opened Wrappers
  import opened JsObject
  import opened SlackDirectory
  import opened Jira

  /** A request sent to the tracking service. */
  datatype Call = SearchCall(search: SearchRequest) | PutCall(write: PropertyWrite)

  /**
   * What happened to one address; these stand for the console messages
   * 'No user found', 'Sync completed successfully' and 'Sync error'.
   */
  datatype Outcome =
    | NoUserFound(email: string)
    | Synced(email: string, write: PropertyWrite)
    | SyncError(email: string, write: PropertyWrite)

  /** The requests sent, the outcome per address visited, and whether a write failure ended the run. */
  datatype SyncRun = SyncRun(calls: seq<Call>, report: seq<Outcome>, stopped: bool)

  /** `!accountId` is false: an account id came back and it is not the empty string. */
  function Found(accountId: Option<string>): (found: bool)
    ensures found <==> accountId.Some? && accountId.value != ""
  {
    accountId.Some? && |accountId.value| > 0
  }

  /** One run followed by another. */
  function Then(a: SyncRun, b: SyncRun): SyncRun {
    SyncRun(a.calls + b.calls, a.report + b.report, b.stopped)
  }

  /**
   * One pass of the loop body for `email`, whose directory entry is `who`:
   * one outcome for the address, and a stop exactly when the write failed.
   */
  function ProcessEmail(jira: Client, email: string, who: SlackIdentity): (r: SyncRun)
    ensures |r.report| == 1 && r.report[0].email == email
    ensures r.stopped <==> r.report[0].SyncError?
  {
    var accountId := jira.GetUser(email);
    var search := SearchCall(SearchFor(email));
    if !Found(accountId) then SyncRun([search], [NoUserFound(email)], false)
    else
      var write := PropertyRequest(accountId.value, who.username, who.slackId, DEFAULT_PROPERTY_KEY);
      if jira.SetUserProperty(accountId.value, who.username, who.slackId, DEFAULT_PROPERTY_KEY)
      then SyncRun([search, PutCall(write)], [Synced(email, write)], false)
      else SyncRun([search, PutCall(write)], [SyncError(email, write)], true)
  }

  /** The run over `emails` in order, each looked up in `index`; a stopping pass ends it. */
  function SyncFrom(jira: Client, emails: seq<string>, index: map<string, SlackIdentity>): (r: SyncRun)
    requires forall e :: e in emails ==> e in index
    decreases |emails|
  {
    if emails == [] then SyncRun([], [], false)
    else
      var step := ProcessEmail(jira, emails[0], index[emails[0]]);
      if step.stopped then step else Then(step, SyncFrom(jira, emails[1..], index))
  }

  /** The `for ... of Object.keys(slackUsers)` loop, with its `continue` and its early `return`. */
  method SyncUsers(jira: Client, users: Obj<SlackIdentity>) returns (run: SyncRun)
    requires forall e :: e in users.keys ==> e in users.vals
    ensures run == SyncFrom(jira, users.keys, users.vals)
  {
    // `calls` and `report` hold what the run has done before the current address.
    var calls: seq<Call> := [];
    var report: seq<Outcome> := [];
    for i := 0 to |users.keys|
      invariant SyncFrom(jira, users.keys, users.vals)
        == Then(SyncRun(calls, report, false), SyncFrom(jira, users.keys[i..], users.vals))
    {
      var email := users.keys[i];
      var who := users.vals[email];
      ghost var before, step := SyncRun(calls, report, false), ProcessEmail(jira, email, who);
      SyncFromAt(jira, users.keys, users.vals, i);
      var accountId := jira.GetUser(email);
      calls := calls + [SearchCall(SearchFor(email))];
      if !Found(accountId) {
        report := report + [NoUserFound(email)];
        ThenAssoc(before, step, SyncFrom(jira, users.keys[i + 1..], users.vals));
        continue;
      }
      var write := PropertyRequest(accountId.value, who.username, who.slackId, DEFAULT_PROPERTY_KEY);
      var setResult := jira.SetUserProperty(accountId.value, who.username, who.slackId, DEFAULT_PROPERTY_KEY);
      calls := calls + [PutCall(write)];
      assert calls == before.calls + step.calls;
      if !setResult {
        report := report + [SyncError(email, write)];
        return SyncRun(calls, report, true);
      }
      report := report + [Synced(email, write)];
      ThenAssoc(before, step, SyncFrom(jira, users.keys[i + 1..], users.vals));
    }
    assert users.keys[|users.keys|..] == [];
    run := SyncRun(calls, report, false);
  }

  /** The run from position `i` on: the pass for `emails[i]`, then, unless it stopped, the rest. */
  lemma SyncFromAt(jira: Client, emails: seq<string>, index: map<string, SlackIdentity>, i: int)
    requires forall e :: e in emails ==> e in index
    requires 0 <= i < |emails|
    ensures SyncFrom(jira, emails[i..], index) ==
      var step := ProcessEmail(jira, emails[i], index[emails[i]]);
      if step.stopped then step else Then(step, SyncFrom(jira, emails[i + 1..], index))
  {
    assert emails[i..][1..] == emails[i + 1..];
  }

  lemma ThenAssoc(a: SyncRun, b: SyncRun, c: SyncRun)
    ensures Then(Then(a, b), c) == Then(a, Then(b, c))
  {
  }

  /** The requests behind one outcome: the search, then the write when an account was found. */
  function CallsFor(o: Outcome): seq<Call> {
    match o
    case NoUserFound(e) => [SearchCall(SearchFor(e))]
    case Synced(e, w) => [SearchCall(SearchFor(e)), PutCall(w)]
    case SyncError(e, w) => [SearchCall(SearchFor(e)), PutCall(w)]
  }

  /** The requests behind a whole report, address after address. */
  function TraceOf(report: seq<Outcome>): seq<Call>
    decreases |report|
  {
    if report == [] then [] else CallsFor(report[0]) + TraceOf(report[1..])
  }

  /** The queries of the searches among `calls`, in order. */
  function Queries(calls: seq<Call>): seq<string>
    decreases |calls|
  {
    if calls == [] then []
    else (if calls[0].SearchCall? then [calls[0].search.query] else []) + Queries(calls[1..])
  }

  /**
   * `o` is what the service's answers call for: no account id means no write;
   * a found account gets the metadata of the address's directory entry, and
   * the outcome says whether that write went through.
   */
  ghost predicate Agrees(jira: Client, index: map<string, SlackIdentity>, o: Outcome) {
    var accountId := jira.GetUser(o.email);
    && o.email in index
    && (o.NoUserFound? <==> !Found(accountId))
    && (!o.NoUserFound? ==>
          && o.write == PropertyRequest(accountId.value, index[o.email].username,
                                        index[o.email].slackId, DEFAULT_PROPERTY_KEY)
          && (o.Synced? <==> jira.put(o.write)))
  }

  lemma {:induction false} QueriesAppend(a: seq<Call>, b: seq<Call>)
    ensures Queries(a + b) == Queries(a) + Queries(b)
    decreases |a|
  {
    if a != [] {
      var ab := a + b;
      assert ab[0] == a[0] && ab[1..] == a[1..] + b;
      QueriesAppend(a[1..], b);
    } else {
      assert a + b == b;
    }
  }

  lemma QueriesOfCallsFor(o: Outcome)
    ensures Queries(CallsFor(o)) == [o.email]
  {
    var c := CallsFor(o);
    assert Queries([]) == [];
    if !o.NoUserFound? {
      assert c[1..] == [c[1]] && [c[1]][1..] == [];
      assert Queries(c[1..]) == [];
    } else {
      assert c[1..] == [];
    }
  }

  /** Each address visited costs one search, followed by one write exactly when an account was found. */
  lemma {:induction false} SyncTrace(jira: Client, emails: seq<string>, index: map<string, SlackIdentity>)
    requires forall e :: e in emails ==> e in index
    ensures SyncFrom(jira, emails, index).calls == TraceOf(SyncFrom(jira, emails, index).report)
    decreases |emails|
  {
    if emails != [] {
      var step := ProcessEmail(jira, emails[0], index[emails[0]]);
      assert step.calls == CallsFor(step.report[0]) && |step.report| == 1;
      if !step.stopped {
        var rest := SyncFrom(jira, emails[1..], index);
        SyncTrace(jira, emails[1..], index);
        assert (step.report + rest.report)[1..] == rest.report;
      } else {
        assert step.report[1..] == [];
      }
    }
  }

  /** Addresses are visited in key order, each at most once, from the first key on. */
  lemma {:induction false} SyncVisitsInOrder(jira: Client, emails: seq<string>, index: map<string, SlackIdentity>)
    requires forall e :: e in emails ==> e in index
    ensures |SyncFrom(jira, emails, index).report| <= |emails|
    ensures forall i :: 0 <= i < |SyncFrom(jira, emails, index).report| ==>
      SyncFrom(jira, emails, index).report[i].email == emails[i]
    decreases |emails|
  {
    if emails != [] {
      var step := ProcessEmail(jira, emails[0], index[emails[0]]);
      if !step.stopped {
        SyncVisitsInOrder(jira, emails[1..], index);
      }
    }
  }

  /** Every outcome in the report is the one the service's answers call for. */
  lemma {:induction false} SyncOutcomesAgree(jira: Client, emails: seq<string>, index: map<string, SlackIdentity>)
    requires forall e :: e in emails ==> e in index
    ensures forall o :: o in SyncFrom(jira, emails, index).report ==> Agrees(jira, index, o)
    decreases |emails|
  {
    if emails != [] {
      var step := ProcessEmail(jira, emails[0], index[emails[0]]);
      assert Agrees(jira, index, step.report[0]);
      if !step.stopped {
        SyncOutcomesAgree(jira, emails[1..], index);
      }
    }
  }

  /**
   * The run stops exactly when the last visited address had a failed write,
   * no earlier write failed, and a run that does not stop visits every address.
   */
  lemma {:induction false} SyncStopsAtFirstWriteFailure(jira: Client, emails: seq<string>, index: map<string, SlackIdentity>)
    requires forall e :: e in emails ==> e in index
    ensures var r := SyncFrom(jira, emails, index);
      r.stopped <==> |r.report| > 0 && r.report[|r.report| - 1].SyncError?
    ensures var r := SyncFrom(jira, emails, index);
      forall i :: 0 <= i < |r.report| - 1 ==> !r.report[i].SyncError?
    ensures var r := SyncFrom(jira, emails, index);
      !r.stopped ==> |r.report| == |emails|
    decreases |emails|
  {
    if emails != [] {
      var step := ProcessEmail(jira, emails[0], index[emails[0]]);
      if !step.stopped {
        var rest := SyncFrom(jira, emails[1..], index);
        SyncStopsAtFirstWriteFailure(jira, emails[1..], index);
        assert !step.report[0].SyncError?;
      }
    }
  }

  /** The requests of one pass are the ones its outcome calls for. */
  lemma ProcessEmailCalls(jira: Client, email: string, who: SlackIdentity)
    ensures ProcessEmail(jira, email, who).calls == CallsFor(ProcessEmail(jira, email, who).report[0])
  {
  }

  lemma PrefixCons(s: seq<string>, n: nat)
    requires 0 < |s| && n < |s|
    ensures [s[0]] + s[1..][..n] == s[..1 + n]
  {
  }

  /** The searches follow the key order, one per visited address. */
  lemma {:induction false} SearchesFollowKeyOrder(jira: Client, emails: seq<string>, index: map<string, SlackIdentity>)
    requires forall e :: e in emails ==> e in index
    ensures var r := SyncFrom(jira, emails, index);
      |r.report| <= |emails| && Queries(r.calls) == emails[..|r.report|]
    decreases |emails|
  {
    if emails != [] {
      var step := ProcessEmail(jira, emails[0], index[emails[0]]);
      ProcessEmailCalls(jira, emails[0], index[emails[0]]);
      QueriesOfCallsFor(step.report[0]);
      if step.stopped {
        PrefixCons(emails, 0);
      } else {
        var rest := SyncFrom(jira, emails[1..], index);
        SearchesFollowKeyOrder(jira, emails[1..], index);
        QueriesAppend(step.calls, rest.calls);
        SyncVisitsInOrder(jira, emails[1..], index);
        PrefixCons(emails, |rest.report|);
      }
    }
  }

  /** A pass that stops ends with its failed write; a pass that goes on made only writes that completed. */
  lemma ProcessEmailWrites(jira: Client, email: string, who: SlackIdentity)
    ensures var r := ProcessEmail(jira, email, who);
      r.stopped ==> |r.calls| == 2 && r.calls[0].SearchCall? && r.calls[1].PutCall? && !jira.put(r.calls[1].write)
    ensures var r := ProcessEmail(jira, email, who);
      !r.stopped ==> forall j :: 0 <= j < |r.calls| && r.calls[j].PutCall? ==> jira.put(r.calls[j].write)
  {
  }

  /**
   * Fail-fast: a stopped run ends with the write that failed, and every write
   * before it went through.
   */
  lemma {:induction false} StoppedRunEndsWithFailedWrite(jira: Client, emails: seq<string>, index: map<string, SlackIdentity>)
    requires forall e :: e in emails ==> e in index
    ensures var r := SyncFrom(jira, emails, index);
      r.stopped ==> |r.calls| > 0 && r.calls[|r.calls| - 1].PutCall? && !jira.put(r.calls[|r.calls| - 1].write)
    ensures var r := SyncFrom(jira, emails, index);
      forall j :: 0 <= j < |r.calls| - 1 && r.calls[j].PutCall? ==> jira.put(r.calls[j].write)
    ensures var r := SyncFrom(jira, emails, index);
      !r.stopped ==> forall j :: 0 <= j < |r.calls| && r.calls[j].PutCall? ==> jira.put(r.calls[j].write)
    decreases |emails|
  {
    if emails != [] {
      var step := ProcessEmail(jira, emails[0], index[emails[0]]);
      ProcessEmailWrites(jira, emails[0], index[emails[0]]);
      if !step.stopped {
        var rest := SyncFrom(jira, emails[1..], index);
        StoppedRunEndsWithFailedWrite(jira, emails[1..], index);
        var calls := step.calls + rest.calls;
        assert forall j :: |step.calls| <= j < |calls| ==> calls[j] == rest.calls[j - |step.calls|];
      }
    }
  }

  /** An address without an account id does not end the run: the next key is visited. */
  lemma NotFoundContinues(jira: Client, emails: seq<string>, index: map<string, SlackIdentity>, i: int)
    requires forall e :: e in emails ==> e in index
    requires 0 <= i < |SyncFrom(jira, emails, index).report|
    requires SyncFrom(jira, emails, index).report[i].NoUserFound?
    requires i + 1 < |emails|
    ensures i + 1 < |SyncFrom(jira, emails, index).report|
    ensures SyncFrom(jira, emails, index).report[i + 1].email == emails[i + 1]
  {
    SyncStopsAtFirstWriteFailure(jira, emails, index);
    SyncVisitsInOrder(jira, emails, index);
  }

  /** When no write fails, the run searches every address, in key order, and is not stopped. */
  lemma AllSearchedWithoutWriteFailure(jira: Client, emails: seq<string>, index: map<string, SlackIdentity>)
    requires forall e :: e in emails ==> e in index
    requires var r := SyncFrom(jira, emails, index);
      forall j :: 0 <= j < |r.calls| && r.calls[j].PutCall? ==> jira.put(r.calls[j].write)
    ensures !SyncFrom(jira, emails, index).stopped
    ensures Queries(SyncFrom(jira, emails, index).calls) == emails
  {
    var r := SyncFrom(jira, emails, index);
    StoppedRunEndsWithFailedWrite(jira, emails, index);
    SyncStopsAtFirstWriteFailure(jira, emails, index);
    SearchesFollowKeyOrder(jira, emails, index);
    assert emails[..|emails|] == emails;
  }

  /**
   * `Main` without configuration and logging: load the directory, then sync
   * it. The `slackUsers.length <= 0` guard is absent because `length` of a
   * plain object is undefined and the comparison is always false; an empty
   * directory simply makes the loop do nothing.
   */
  method SyncSlackToJira(pages: seq<Page>, jira: Client)
    returns (requests: seq<ListRequest>, users: Obj<SlackIdentity>, run: SyncRun)
    requires HasLastPage(pages)
    ensures 0 < |requests| <= |pages| && !Truthy(pages[|requests| - 1].nextCursor)
    ensures CursorsBefore(pages, |requests| - 1)
    ensures requests == RequestsUpTo(pages, |requests| - 1)
    ensures users == Merged(pages[..|requests|])
    ensures run == SyncFrom(jira, users.keys, users.vals)
  {
    users, requests := GetSlackUsers(pages);
    run := SyncUsers(jira, users);
  }

  /** One page with one active user whose search finds ACC1, and a write that succeeds. */
  lemma EndToEndExample()
    ensures var pages := [Page([Member("A", "U1", false, false, Some("a@x.com"))], "")];
      var jira := Client(q => SearchOk([SearchHit("ACC1")]), w => true);
      var users := Merged(pages);
      && users == Obj(["a@x.com"], map["a@x.com" := SlackIdentity("A", "U1")])
      && SyncFrom(jira, users.keys, users.vals).report
         == [Synced("a@x.com", PropertyWrite(PROPERTY_PATH + "metadata", "ACC1", Metadata("A", "U1")))]
  {
    var m := Member("A", "U1", false, false, Some("a@x.com"));
    assert [m][..0] == [];
  }

  /** Three addresses whose first write fails: one outcome, and the other two are never searched. */
  lemma WriteFailureExample(index: map<string, SlackIdentity>)
    requires "a@x.com" in index && "b@x.com" in index && "c@x.com" in index
    ensures var jira := Client(q => SearchOk([SearchHit("ACC")]), w => false);
      var r := SyncFrom(jira, ["a@x.com", "b@x.com", "c@x.com"], index);
      && r.stopped && |r.report| == 1 && r.report[0].SyncError?
      && Queries(r.calls) == ["a@x.com"]
  {
    var jira := Client(q => SearchOk([SearchHit("ACC")]), w => false);
    SearchesFollowKeyOrder(jira, ["a@x.com", "b@x.com", "c@x.com"], index);
  }

  /** Three addresses whose second has no account: the run goes on to the third. */
  lemma NotFoundExample(index: map<string, SlackIdentity>)
    requires "a@x.com" in index && "b@x.com" in index && "c@x.com" in index
    ensures var jira := Client((q: SearchRequest) => if q.query == "b@x.com" then SearchOk([]) else SearchOk([SearchHit("ACC")]),
                               w => true);
      var r := SyncFrom(jira, ["a@x.com", "b@x.com", "c@x.com"], index);
      && !r.stopped && |r.report| == 3
      && r.report[0].Synced? && r.report[1] == NoUserFound("b@x.com") && r.report[2].Synced?
  {
    var emails := ["a@x.com", "b@x.com", "c@x.com"];
    assert emails[1..] == ["b@x.com", "c@x.com"] && emails[1..][1..] == ["c@x.com"];
    assert emails[1..][1..][1..] == [];
  }
}
