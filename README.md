# jira-slack-sync, modelled in Dafny

This project models the batch job in `index.js`. The job copies chat
identities into the tracking service's per-user properties:

1. **Loading the directory** (`getSlackUsers`). The chat directory is read
   in pages of 30 users. The first call passes cursor `0`, and every later
   call passes the previous page's `next_cursor`. Each page is reduced to an
   object keyed by e-mail address with value `[user.name, user.id]`. The
   reduce drops bots, deleted users and users without an address. Pages are
   merged with `{...users, ...newUsers}` until a page has a falsy cursor.
2. **The sync loop** (`Main`). The addresses are visited in the object's key
   order. Each address gets one search (`maxResults: 1`, first hit wins).
   When no account id comes back, the address is skipped. Otherwise one PUT
   of `{slack_username, slack_id}` goes to the account's `metadata`
   property. The first PUT that fails ends the whole run.

Files:

- `wrappers.dfy`: `Option`.
- `js_object.dfy`: a plain JavaScript object, kept as its key sequence plus
  a map. `Put` is `o[k] = v` and `Spread` is `{...o, ...p}`. Keys follow
  ECMA-262 OrdinaryOwnPropertyKeys (section 10.1.11.1): an e-mail address is
  never an array index, so keys are listed in creation order, and an
  overwritten key keeps its place.
- `slack_directory.dfy`: the member filter, the per-page reduce, the merge
  across pages and the cursor loop (`GetSlackUsers`, a `while` loop).
- `jira.dfy`: `getUser` and `setUserProperty`. The HTTP client is replaced
  by a `Client` value holding two oracles: the answer to each search, and
  whether each PUT completes.
- `user_sync.dfy`: the sync loop (`SyncUsers`, a `for` loop with `continue`
  and an early `return`). It is proved equal to a recursive reference,
  `SyncFrom`. The lemmas about the request trace are stated on `SyncFrom`.

The directory's answers are given as a sequence of pages: `pages[n]` answers
the n-th listing call. The central result is `MergedIsFormatOfAll`: spreading
the per-page reduces gives the reduce of all members of all pages in one pass.
The key-set, last-wins and key-order lemmas follow from it.

## Model

| member | source | states |
|---|---|---|
| `JsObject.Empty` | index.js:30 | The `{}` the reduce starts from is a well-formed object with no keys. |
| `JsObject.Put` | index.js:28 | `t[email] = v` keeps the object well formed and stores `v` under the key. A new key goes to the end of the key list. An existing key stays where it is. |
| `JsObject.AppendNew` | index.js:39 | The key list after creating keys one by one holds exactly the old and new keys. The old keys keep their positions as a prefix. No key is listed twice. |
| `JsObject.CopyProps` | index.js:39 | Copying properties one key at a time yields a well-formed object. Its keys are the old keys followed by the new ones. A copied value wins over the old one. |
| `JsObject.Spread` | index.js:39 | For `{...o, ...p}`: keys of `o` keep their positions, keys new to `o` follow in `p`'s order, and the value from `p` wins on a shared key. |
| `JsObject.SpreadPut` | index.js:28-39 | Spreading an object after one more assignment equals the same assignment on the spread object. |
| `JsObject.FirstOccurrenceOrder` | index.js:28 | Creating keys in turn on `{}` lists each key once, in the order of its first occurrence. |
| `SlackDirectory.Email` | index.js:25 | `!user.profile.email` holds exactly when the address is missing or empty; otherwise the address is the profile's. |
| `SlackDirectory.Kept` | index.js:25 | A member is kept exactly when it is not a bot, not deleted, and has a non-empty address. |
| `SlackDirectory.Truthy` | index.js:37 | `while (nextCursor)` goes on exactly when the cursor is a non-empty string. |
| `SlackDirectory.FormatUsers` | index.js:24-30 | The reduce of a page always yields a well-formed object: distinct keys, each with a value. |
| `SlackDirectory.KeptEmails` | index.js:25-28 | An address is in the list exactly when some kept member has it. |
| `SlackDirectory.AllMembers` | index.js:35-40 | A member is in the concatenation exactly when it is on one of the pages. |
| `SlackDirectory.Merged` | index.js:35-40 | The object after spreading each page's reduce into the running object is well formed. |
| `SlackDirectory.GetSlackUsers` | index.js:14-43 | The loop makes N list calls and stops at answer N, the first answer with a falsy cursor: every earlier answer had a cursor (`CursorsBefore`). The calls are `RequestsUpTo` for those N answers. The result is `Merged` of those N pages. |
| `SlackDirectory.LastPageIndex` | index.js:37-40 | Picks an answer with a falsy cursor, which bounds the number of turns of the loop. |
| `SlackDirectory.CursorsBeforeAll` | index.js:37-40 | The loop asks again after an answer only when that answer's cursor is truthy. |
| `SlackDirectory.RequestsUpTo` | index.js:15-38 | The calls for the first n + 1 answers number n + 1. |
| `SlackDirectory.RequestsUpToShape` | index.js:15-38 | Call 1 passes cursor `0`, and call n+1 passes answer n's cursor. Every call passes limit 30. |
| `SlackDirectory.MergedNext` | index.js:38-39 | One more turn of the loop extends the merge by exactly the next page. |
| `SlackDirectory.FormatAppend` | index.js:24-39 | Reducing members `a` then `b` equals spreading the reduce of `b` over the reduce of `a`. |
| `SlackDirectory.MergedIsFormatOfAll` | index.js:35-40 | The merged pages equal one reduce over all members of all pages. |
| `SlackDirectory.FormatKeyOrder` | index.js:24-30 | A page's keys are its kept addresses, listed once each, in order of first occurrence. |
| `SlackDirectory.FormatKeySet` | index.js:25-28 | An address is a key of a page's reduce exactly when some kept member has it. |
| `SlackDirectory.FormatLastWins` | index.js:28 | The value under an address is `[name, id]` of the last kept member with that address. |
| `SlackDirectory.RejectedMemberIgnored` | index.js:25-27 | Inserting a bot, a deleted user or a user without an address anywhere leaves the result unchanged. |
| `SlackDirectory.DirectoryKeys` | index.js:24-40 | An address is a key of the loaded directory exactly when a kept member of some page has it. |
| `SlackDirectory.DirectoryLastWins` | index.js:28-39 | Within a page and across pages, the last kept member with an address supplies its value. |
| `SlackDirectory.DirectoryKeyOrder` | index.js:28-39 | The directory's keys are listed once each, ordered by the first occurrence of each address over all pages. |
| `SlackDirectory.MergedKeepsPositions` | index.js:37-40 | The keys after the first n pages are a prefix of the final key list, so later pages never move a key. |
| `Jira.Client.GetUser` | index.js:86-101 | The result is an account id exactly when the search succeeded with a non-empty `data`, and then it is `data[0].accountId`. A failed search and an empty result both give nothing. |
| `Jira.Client.SetUserProperty` | index.js:112-130 | The result is true exactly when the PUT completes, and false when it throws. |
| `Jira.SearchFor` | index.js:88-93 | The search goes to the search path, with the address as query and `maxResults` 1. |
| `Jira.PropertyRequest` | index.js:114-123 | The PUT goes to the properties path followed by the key, for the given account, with body `{slack_username, slack_id}`. |
| `Jira.PropertyRequestInjective` | index.js:114-123 | The PUT request determines the account, the key, the username and the chat id. |
| `UserSync.Found` | index.js:180 | `!accountId` is false exactly when an account id came back and it is not empty. |
| `UserSync.ProcessEmail` | index.js:175-201 | One pass of the loop body gives exactly one outcome, for the address visited. It stops the run exactly when that outcome is a failed write. |
| `UserSync.ProcessEmailCalls` | index.js:177-191 | The requests of one pass are the search, then the write when an account was found. |
| `UserSync.ProcessEmailWrites` | index.js:187-196 | A pass that stops made a search and then a failed PUT. A pass that goes on made only PUTs that completed. |
| `UserSync.SyncFrom` | index.js:174-202 | The reference run over the keys in order, with no contract of its own: each address makes one `ProcessEmail` pass, and a pass that stops ends the run. The trace lemmas below state what it does. |
| `UserSync.SyncUsers` | index.js:174-202 | The loop gives the same requests, outcomes and stop flag as the reference `SyncFrom` over the keys in key order. It needs only that every key has a value. |
| `UserSync.SyncTrace` | index.js:177-191 | Each visited address makes one search. A write follows it exactly when an account was found. |
| `UserSync.SyncVisitsInOrder` | index.js:174 | The k-th outcome belongs to the k-th key, and no more addresses are visited than there are keys. |
| `UserSync.SyncOutcomesAgree` | index.js:177-197 | An address with no account id gets no write. A found account gets exactly `{slack_username, slack_id}` from the directory entry under `metadata`. An outcome is Synced exactly when the PUT succeeded. |
| `UserSync.SyncStopsAtFirstWriteFailure` | index.js:193-196 | The run stops exactly when the last visited address had a failed write, and no earlier write failed. A run that does not stop visits every key. |
| `UserSync.SearchesFollowKeyOrder` | index.js:174-177 | The search queries are the keys, in key order, up to the last visited address. |
| `UserSync.StoppedRunEndsWithFailedWrite` | index.js:187-196 | A stopped run's last request is the failed PUT, and every PUT before it completed. |
| `UserSync.NotFoundContinues` | index.js:180-183 | After an address without an account id, the next key is still visited. |
| `UserSync.AllSearchedWithoutWriteFailure` | index.js:174-196 | When every PUT the run makes succeeds, the run does not stop and searches every key in order. |
| `UserSync.SyncSlackToJira` | index.js:156-202 | `Main` loads the directory from the pages, up to the first falsy cursor, and then runs the sync over the loaded object. |
| `UserSync.EndToEndExample` | index.js:14-202 | One active user `a@x.com` found as ACC1, with a successful write, gives one Synced outcome. That outcome writes `{A, U1}` to ACC1's `metadata`. |
| `UserSync.WriteFailureExample` | index.js:187-196 | When the first write fails, there is one outcome and only the first address is searched. |
| `UserSync.NotFoundExample` | index.js:180-183 | When the second of three addresses has no account, the outcomes are Synced, not found, Synced. |

## Left out

- The Slack client and the axios client (index.js:1-2, 66-77, 157-158) are foreign libraries. They are not modelled: the page sequence and the `Client` oracles stand in for them.
- Loading environment variables (index.js:3, 157, 169-171) and all console output are I/O. The `Outcome` values stand for the three per-address messages.
- `getSlackInfo` (index.js:137-150) is never called, and its result is discarded.
- The guard `slackUsers.length <= 0` (index.js:165) never fires, because `length` of a plain object is undefined. The model has no such check, and an empty directory makes the loop do nothing.
- A failed search or PUT whose error has no HTTP response makes `e.response.data` throw inside the catch block (index.js:99, 127). That rejects `Main` outside the outer `try`. The model treats every failed call as returning nothing (search) or `false` (PUT).
- A listing call that throws is not caught by the source and ends the job. The model takes the directory's answers as given and has no such failure.
- The page returned for a cursor is chosen by the directory service. The model takes the answers in call order and records the cursor passed on each call.
- SlackDirectory.GetSlackUsers: requires that some answer has a falsy cursor. Without one the source loops forever, and a total model cannot express that.
- Every key is taken to contain '@', as an e-mail address does. Array-index keys and `__proto__` are not modelled: every key is listed in creation order. ECMA-262 would list an array-index key (such as "42") before all others, which `FormatKeyOrder` and `DirectoryKeyOrder` rule out. `t["__proto__"] = v` would call the setter inherited from `Object.prototype` and create no key.
- The tracking service's answer depends only on the request: `Client.search` and `Client.put` are functions, so the same request is answered the same way each time. No proved property needs this: keys are distinct, so each address is searched once.
- Falsy values are modelled only where they can occur. A cursor is falsy when it is the empty string. An account id is falsy when it is absent or empty. `is_bot` and `deleted` are booleans, and a missing profile is not modelled.
- async/await scheduling is left out: the job is strictly sequential. The implicit global `newUsers` (index.js:38) has no effect on the result.
- A failed search and an empty search result give the same outcome (no account found). The first listing call passes the number `0` as cursor. The run keeps no summary other than the per-address outcomes.
