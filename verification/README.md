# Verified models of the CLI's protocols and the repository's source tools

This project models, and proves properties of, the parts of the repository whose correctness is
least visible from reading one function at a time:

- the stream multiplexer, dispatcher and outgoing pumps of the RPC layer (`rpc.rs`), as they run
  inside the MessagePack receive loop (`msgpack_rpc.rs`);
- the framing of a byte stream into MessagePack messages (`msgpack_rpc.rs`);
- the credential store with its keyring, file fallback and cached copy, and the device code polling
  (`auth.rs`);
- the persisted state container and the download cache over it (`state.rs`, `download_cache.rs`);
- the lint rule against using a `ServicesAccessor` after an `await` (`code-no-accessor-after-await.ts`);
- the in-place edits and the import merging of the agent host protocol synchronisation
  (`sync-agent-host-protocol.ts`).

`dafny verify dfyconfig.toml` checks everything.

## How it is laid out

| module | content |
|---|---|
| `StreamRecords` | the table of live streams: a class with the four critical sections, and what each does to the table |
| `StreamLedger` | the account of one stream: segments accepted, what became of each, bytes at the far end |
| `StreamProtocol` | the transition system: every interleaving of incoming frames, removals and write loops |
| `StreamSafety` | its inductive invariant, safety over all runs, and shutdown in bounded steps |
| `WriteLoop` | the write loop as the sequential code it is, with other tasks running at each await |
| `StreamPump` | registration of a stream call and the per-stream pump tasks, in every interleaving |
| `Dispatch` | one reply per request; each callback fired once |
| `ReplyChannel` | one turn of the receive loop against the bounded channel it drains itself |
| `Framing`, `MessagePack` | the decode loops over any self-delimiting parser, and one such parser |
| `AccessorSyntax`, `AccessorTheorem`, `AccessorRule` | the walk of the lint rule and the traces a function body can leave; how the two agree; exactly what the rule reports and misses |
| `Keyring`, `Auth`, `DevicePolling` | split and reassembly, the credential store, the polling loop |
| `PersistedState`, `RecencyList`, `DownloadCache` | the container, the list of recently used names, the cache |
| `TextEdits`, `ImportMerge` | edits applied last to first; duplicate imports merged |
| `Wrappers`, `Sequences` | options, map look-up, bytes and flattening |

Code that works on fields is a class whose methods are proved against a function of the old state;
the properties are then proved of those functions over all runs. What the environment decides (which
task runs next, whether a write, a keyring entry or a file operation fails, what a request's callback
returns) is a parameter or an action, so that every claim holds for all of its choices.

## What was found not to hold, and exactly when it does

- A stream that an end frame named before it was inserted can be closed under data that precedes any
  end frame sent to it. Every stream takes its frames, whatever happens next, if and only if no removal
  for its id is pending when it is inserted (`StreamSafety.TakesItsFramesIff`; an example is
  `StreamSafety.StrayEndLosesData`).
- The receive loop handles the messages of one read without taking from its own channel of eight. A
  turn with more to send than there is room for never ends (`ReplyChannel.CanEndIff`,
  `ReplyChannel.StuckForever`; nine requests in one read do it, `ReplyChannel.NineRequestsNeverEnd`).
  With at most k tasks coming to have something to send meanwhile, no schedule makes it stuck if and
  only if all there is to send, k included, fits (`ReplyChannel.MayGetStuckIff`); with no bound on
  them, any turn that sends may get stuck (`ReplyChannel.AnySendMayGetStuck`).
- `call` sends before it inserts its callback, so a callback fires if and only if the response is
  dispatched after the insertion (`Dispatch.CallbacksFireOnce`).
- A string whose length is a multiple of the step, or whose last piece ends in the marker, is not read
  back from an empty keyring (`Keyring.ReadAfterStoreOnEmpty`, `Keyring.FullPieceIsLost`), though the
  cached credential is kept (`Auth.KeyringKeepsIff`).
- A credential that is in the keyring is found again only by a process that uses the keyring too, and
  one that is in the file by every process (`Auth.RestartIff`, `Auth.RestartUnused`).
- The accessor rule misses a use behind an awaited key, `accessor[await k]()`: it looks at the call
  before the key and never comes back to it (`AccessorRule.AwaitedKeyIsMissed`). Without dead code
  that is all it misses, and it is right if and only if passing such a call comes with a report
  (`AccessorRule.ReportsIffUsedLate`).
- The rule gives false alarms over dead code, both in it (`AccessorRule.DeadCodeFalseAlarm`) and
  behind it, where a dead await taints a live use (`AccessorRule.DeadAwaitFalseAlarm`). For every
  body, the uses that some path makes late are those the walk finds once dead statements are taken out
  (`AccessorRule.LateUsesExactly`).
- A line that starts like the merger's placeholder is lost or makes the merge fail
  (`ImportMerge.OtherLinesKeptIffClean`, `ImportMerge.PlaceholderLineFails`), and merging twice differs from merging once if and only if
  some module imports both the type `t` and, inline, `type t` (`ImportMerge.IdempotentIffNoClash`,
  `ImportMerge.InlineClashChangesTwice`).

## Model

| member | source | states |
|---|---|---|
| `StreamRecords.Streams.Insert` | code-oss/cli/src/rpc.rs:575-584 | the new record holds its write half, an empty queue and is not ended; every other record is untouched |
| `StreamRecords.Streams.Write` | code-oss/cli/src/rpc.rs:564-573 | data for an unknown id changes nothing; otherwise it goes to the end of the queue, and a write half still in the record is taken out for exactly one new write loop |
| `StreamRecords.Streams.Remove` | code-oss/cli/src/rpc.rs:543-562 | an idle record goes at once and its write half is handed over for shutdown; a busy one is only marked ended |
| `StreamRecords.Streams.LoopTurn` | code-oss/cli/src/rpc.rs:602-621 | the locked part of the loop: take the whole queue, or give the half back, or close, and in which state which |
| `StreamLedger.BreakOff` | code-oss/cli/src/rpc.rs:623-627 | a write failing after n bytes loses the rest of its segment and of the batch, and nothing of the queue |
| `StreamLedger.SentPlusPending` | code-oss/cli/src/rpc.rs:564-627 | with no failure, bytes sent followed by the pending segments are the accepted segments |
| `StreamSafety.StepKeeps` | code-oss/cli/src/rpc.rs:531-631 | every atomic step of every task keeps the invariant of all streams, by which a batch goes on only behind whole writes |
| `StreamSafety.StepIsLocal` | code-oss/cli/src/rpc.rs:531-631 | a step on one stream leaves the record, tasks, pipe and history of every other stream as they were |
| `StreamSafety.OrderedDelivery` | code-oss/cli/src/rpc.rs:531-631 | in every interleaving, attempted ++ batch in hand ++ queue is all that was accepted, in order; the far end has exactly the bytes the fates say, drops only follow a failure, and without write errors nothing is lost, repeated or reordered |
| `StreamSafety.RunWithoutErrors` | code-oss/cli/src/rpc.rs:623-627 | only a failing write ever makes a stream lose data |
| `StreamSafety.FailedWriteDropsBatch` | code-oss/cli/src/rpc.rs:623-627 | a write that breaks off after n bytes leaves exactly the record's queue pending: one fate for each item of the batch, the first cut at n and all others dropped, and the loop back at the lock with nothing in hand |
| `StreamSafety.NothingBehindACut` | code-oss/cli/src/rpc.rs:601-627 | over all runs, while a loop still has items of a batch, those before them were each written in full: nothing of a batch is attempted behind a cut |
| `StreamSafety.DrainedIsTheBatch` | code-oss/cli/src/rpc.rs:620 | that batch is what the loop swapped out of the queue when it last held the lock, and no other step changes it |
| `StreamSafety.EndIsNotForgotten` | code-oss/cli/src/rpc.rs:279-285 | once an end frame was seen for a live stream, the stream is ending, or a removal is pending that makes it so |
| `StreamSafety.OneHolder` | code-oss/cli/src/rpc.rs:542-631 | the write half of every inserted stream is in exactly one place (its record, one task, or shut down) and is shut down at most once |
| `StreamSafety.IdleRecordIsDrained` | code-oss/cli/src/rpc.rs:543-562 | a record that holds its write half has an empty queue, is not ended and has attempted all it accepted, so immediate removal discards nothing |
| `StreamSafety.LoopFindsItsRecord` | code-oss/cli/src/rpc.rs:605-608 | a write loop always finds its record, without a write half: the exit for a missing record is never taken |
| `StreamSafety.DataBeforeEndIsDelivered` | code-oss/cli/src/rpc.rs:278-291 | once a stream is out of the table, its data frames before the end frame were all accepted and attempted in order, and without write errors are a prefix of the bytes delivered |
| `StreamSafety.TakesItsFramesIff` | code-oss/cli/src/rpc.rs:278-291 | in every continuation a newly inserted stream takes each data frame before its first end frame and is not closed before that, if and only if no removal for its id is pending at insertion |
| `StreamSafety.StrayEndLosesData` | code-oss/cli/src/rpc.rs:278-291 | a reachable state in which an end frame from before the insertion closed the stream under later data |
| `StreamSafety.BoundedShutdown` | code-oss/cli/src/rpc.rs:596-631 | once told to end and with no more data, from any reachable state, the owner of the write half takes at most batch + queue + 3 steps, can always take the next, and has then shut down |
| `WriteLoop.Suspend` | code-oss/cli/src/rpc.rs:543-573 | whatever other tasks do during an await, the record of a running loop stays, without a write half, and its queue only grows at the end |
| `WriteLoop.AwaitWrite` | code-oss/cli/src/rpc.rs:623-627 | one await keeps the account balanced, whether the write succeeds or breaks off |
| `WriteLoop.DrainItems` | code-oss/cli/src/rpc.rs:623-627 | the inner loop accounts for its whole batch and leaves the queue pending, in order |
| `WriteLoop.Run` | code-oss/cli/src/rpc.rs:596-631 | the loop terminates; it writes what was queued and what was pushed while it ran, in order, all of it if no write fails; it removes the record and shuts down once if and only if the stream had been told to end, before or while it ran, and hands the half back idle otherwise |
| `StreamPump.RegisterStream` | code-oss/cli/src/rpc.rs:453-483 | if the announcement fails nothing is registered, spawned or sent; otherwise it names every stream of the call in order, each gets a pump and its own idle record, and every other id looks up as before |
| `StreamPump.PumpOne` | code-oss/cli/src/rpc.rs:483-522 | one pump sends each chunk once, in place, and then one end message, or stops at the first refused send |
| `StreamPump.StepKeepsId` | code-oss/cli/src/rpc.rs:453-524 | every step of any pump or registration keeps the output of each stream well formed |
| `StreamPump.PumpedExactly` | code-oss/cli/src/rpc.rs:453-524 | in every interleaving with the channel open, the output for one stream is its announcement, chunks of 1 to 4096 bytes that concatenate to the bytes read, and one end message after end of file; an id never announced has no output |
| `StreamPump.AnnouncedArePumped` | code-oss/cli/src/rpc.rs:477-483 | in every interleaving, each stream that was announced has a pump or is about to get one |
| `StreamPump.PumpedPrefix` | code-oss/cli/src/rpc.rs:504-506 | with the channel closing at any time, what got out is a prefix of the bytes read, well formed, and an end message comes only after all of them |
| `Dispatch.Dispatcher.DispatchWithPartial` | code-oss/cli/src/rpc.rs:420-450 | an unknown method is answered with error -1 and its id; a known one at once, in a future, or with its number of streams, by its kind, and with success, 0 or -1 by how the request fares; a response fires its callback with an error exactly if it carries one; a message with neither method nor id panics |
| `Dispatch.Dispatcher.RunSync` | code-oss/cli/src/rpc.rs:101-145 | success, code 0 for bad parameters, code -1 for a failed callback, and nothing at all without an id |
| `Dispatch.Dispatcher.Resolve` | code-oss/cli/src/rpc.rs:439-449 | a response to an unregistered id changes nothing; otherwise exactly that callback leaves the table and fires |
| `Dispatch.Dispatcher.Await` | code-oss/cli/src/rpc.rs:361-378 | registering a callback fires nothing |
| `Dispatch.RepliesBalance` | code-oss/cli/src/rpc.rs:101-272 | at any time, for each reply: those on the wire plus those still to come are those owed |
| `Dispatch.OneReplyPerRequest` | code-oss/cli/src/rpc.rs:101-272 | once all futures have resolved, the replies are exactly those owed: one with its id for each request that carries an id, none for the others, for all three kinds of method |
| `Dispatch.RepliesByOutcome` | code-oss/cli/src/rpc.rs:101-272 | for each id: as many successes as requests for a registered method that succeeded, as many errors 0 as had bad parameters, as many errors -1 as failed or named an unknown method, and no other code |
| `Dispatch.CallbacksFireOnce` | code-oss/cli/src/rpc.rs:342-381 | with fresh ids, a registered callback is either pending or fired, fires at most once, and fires if and only if a response to its id is dispatched after it was registered |
| `Dispatch.OutcomeIsAnswer` | code-oss/cli/src/rpc.rs:439-449 | a callback fires with what the first response after its registration carries: an error if and only if that response is one |
| `ReplyChannel.HandleRead` | code-oss/cli/src/msgpack_rpc.rs:71-97 | over the messages of one read, the loop itself sends the replies of synchronous methods and the announcements, spawns a task for every other known request, and panics exactly on a message with neither method nor id |
| `ReplyChannel.StuckForever` | code-oss/cli/src/msgpack_rpc.rs:66-97 | a turn that finds the channel full stays there, and nothing is ever taken from the channel again |
| `ReplyChannel.CanEndIff` | code-oss/cli/src/msgpack_rpc.rs:59-97 | some schedule ends the turn if and only if its own sends fit into the room left |
| `ReplyChannel.MayGetStuckIff` | code-oss/cli/src/msgpack_rpc.rs:59-97 | for every bound on the tasks that come to have something to send during the turn: some schedule makes it stuck if and only if what is queued, own, other tasks' and to come exceeds eight |
| `ReplyChannel.AnySendMayGetStuck` | code-oss/cli/src/msgpack_rpc.rs:77-95 | with no such bound, a turn may get stuck if and only if the loop has anything to send |
| `ReplyChannel.LongReadNeverEnds` | code-oss/cli/src/msgpack_rpc.rs:71-97 | one read whose messages call for more sends by the loop than there is room for is never dealt with, in any run |
| `ReplyChannel.NineRequestsNeverEnd` | code-oss/cli/src/msgpack_rpc.rs:71-76 | nine synchronous requests in one read are such a read |
| `Framing.Codec.Decode` | code-oss/cli/src/msgpack_rpc.rs:139-162 | advances past exactly the bytes of the message returned; waiting for more, or failing, leaves the buffer alone |
| `Framing.Codec.Drain` | code-oss/cli/src/msgpack_rpc.rs:71-97 | the inner loop terminates; each frame is what the parser makes of the bytes where the one before ends; it fails exactly if the bytes it stops at are invalid, and otherwise wants more |
| `Framing.Codec.Receive` | code-oss/cli/src/msgpack_rpc.rs:66-97 | over all reads, each frame is what the parser makes of the concatenated bytes where the one before ends; it fails if and only if the bytes behind the last frame are invalid, and otherwise keeps exactly those |
| `Framing.FramesInPlace` | code-oss/cli/src/msgpack_rpc.rs:153-160 | the frames of a buffer, position by position, in terms of the parser |
| `Framing.StopsBecause` | code-oss/cli/src/msgpack_rpc.rs:143-152 | decoding stops at bytes that are invalid, and then has failed, or that are not a whole message yet, and then has not |
| `Framing.DecodeMore` | code-oss/cli/src/msgpack_rpc.rs:139-162 | bytes that arrive later change nothing that was decoded: decoding resumes at the left-over |
| `Framing.SplitIrrelevant` | code-oss/cli/src/msgpack_rpc.rs:66-97 | frames, verdict and left-over depend on the concatenated bytes only, not on how reads split them |
| `Framing.BytesAccounted` | code-oss/cli/src/msgpack_rpc.rs:153-160 | the bytes of the frames followed by the left-over are the bytes read |
| `MessagePack.ParseValueSelfDelimiting` | code-oss/cli/src/msgpack_rpc.rs:143-152 | a parser for the extent of any MessagePack value meets the hypothesis of the framing theorems |
| `MessagePack.ParseEncoded` | code-oss/cli/src/msgpack_rpc.rs:28-30 | an encoded value, at any nesting depth, is parsed as itself whatever bytes follow |
| `MessagePack.ReservedIsInvalid` | code-oss/cli/src/msgpack_rpc.rs:151-152 | the one unused leading byte of the format makes a message invalid |
| `MessagePack.MessagesArriveIntact` | code-oss/cli/src/msgpack_rpc.rs:66-97 | a sequence of encoded messages, split over reads in any way, is received as exactly those messages with nothing left over |
| `AccessorSyntax.Checker.Expr` | code-oss/.eslint-plugin-local/code-no-accessor-after-await.ts:124-194 | the walk over an expression, which saves and restores one flag, is the recursive walk on values |
| `AccessorSyntax.Checker.Stmt` | code-oss/.eslint-plugin-local/code-no-accessor-after-await.ts:154-194 | the same for statements, with the join after an `if` |
| `AccessorTheorem.ExprAgrees` | code-oss/.eslint-plugin-local/code-no-accessor-after-await.ts:124-205 | on expressions, the flag and the uses the walk reports and skips are exactly those the evaluation traces come to after an await; with the passed ones, exactly those they make after one |
| `AccessorTheorem.StmtSound` | code-oss/.eslint-plugin-local/code-no-accessor-after-await.ts:116-253 | on statements, dead code or not, every await is seen, every use come to late is reported or skipped, and every use made late is one of these or passed |
| `AccessorTheorem.StmtExact` | code-oss/.eslint-plugin-local/code-no-accessor-after-await.ts:116-253 | without dead code, each of those is borne out by some path |
| `AccessorRule.SkippedInStmt` | code-oss/.eslint-plugin-local/code-no-accessor-after-await.ts:147-154 | uses are skipped only where a call is reported |
| `AccessorRule.ReportsAreOutermost` | code-oss/.eslint-plugin-local/code-no-accessor-after-await.ts:116-253 | without dead code, the nodes reported are exactly the uses some path comes to after an await that are not inside another member call some path comes to after an await; and those missed are exactly the ones used after an await on some path but come to after one on none |
| `AccessorRule.WhatIsReported` | code-oss/.eslint-plugin-local/code-no-accessor-after-await.ts:278-296 | after an await: a call of a method of the accessor by name or key, and the accessor as an argument; not another object, nor the accessor in any other place |
| `AccessorRule.NothingMissed` | code-oss/.eslint-plugin-local/code-no-accessor-after-await.ts:116-253 | a use that some path makes after an await is reported, lies inside a reported call, or is a call passed before any await whose own key awaits; where no call is passed, a body with a late use has a report |
| `AccessorRule.NoFalseAlarms` | code-oss/.eslint-plugin-local/code-no-accessor-after-await.ts:116-253 | without dead code, every use reported, skipped or passed is made after an await on some path |
| `AccessorRule.ReportsIffUsedLate` | code-oss/.eslint-plugin-local/code-no-accessor-after-await.ts:116-253 | without dead code, some path uses the accessor late if and only if something is reported or passed; so the rule is right if and only if passing a call comes with a report |
| `AccessorRule.RightOnOrdinaryCode` | code-oss/.eslint-plugin-local/code-no-accessor-after-await.ts:116-253 | without dead code and awaiting keys, node by node the late uses are the reported ones and those skipped; skipped are exactly the uses inside a member call that some path comes to late; and something is reported if and only if there is a late use |
| `AccessorRule.QuietPassesNothing` | code-oss/.eslint-plugin-local/code-no-accessor-after-await.ts:311-318 | code in which no key of an accessor call awaits passes no call |
| `AccessorRule.AwaitedKeyIsMissed` | code-oss/.eslint-plugin-local/code-no-accessor-after-await.ts:279-284 | `accessor[await k]()` is used late and nothing is reported |
| `AccessorRule.LateUsesExactly` | code-oss/.eslint-plugin-local/code-no-accessor-after-await.ts:116-253 | for every body and every node: used late on some path if and only if the walk over the live part reports, skips or passes it |
| `AccessorRule.LateUseIffLiveReport` | code-oss/.eslint-plugin-local/code-no-accessor-after-await.ts:116-253 | for every body, some path uses the accessor late if and only if the walk over the live part reports or passes something |
| `AccessorRule.RightIff` | code-oss/.eslint-plugin-local/code-no-accessor-after-await.ts:116-253 | for every body, the rule's verdict is right if and only if taking out the dead statements and counting passed calls would not change it |
| `AccessorRule.LiveFlows` | code-oss/.eslint-plugin-local/code-no-accessor-after-await.ts:260-272 | taking out what follows an always-exiting statement changes no path and leaves no dead code |
| `AccessorRule.AlwaysExitsMeansIt` | code-oss/.eslint-plugin-local/code-no-accessor-after-await.ts:260-272 | `blockAlwaysExits` holds only of statements with no completing path, and without dead code of all of them |
| `AccessorRule.NeverCompletesIff` | code-oss/.eslint-plugin-local/code-no-accessor-after-await.ts:260-272 | a statement has no completing path if and only if `blockAlwaysExits` holds of its live part |
| `AccessorRule.DeadCodeFalseAlarm` | code-oss/.eslint-plugin-local/code-no-accessor-after-await.ts:260-272 | a body with a report in dead code that no path bears out |
| `AccessorRule.DeadAwaitFalseAlarm` | code-oss/.eslint-plugin-local/code-no-accessor-after-await.ts:260-272 | a body whose only report is at a live use, tainted by a dead await, and no path bears it out |
| `Keyring.KeyringStorage.Read` | code-oss/cli/src/auth.rs:327-347 | reads exactly the chain of marked entries from the first; a hole means nothing is stored; an entry that fails makes the read fail |
| `Keyring.KeyringStorage.Store` | code-oss/cli/src/auth.rs:349-371 | succeeds if and only if every entry needed can be set, then holds the pieces over the old entries, and never touches an entry beyond the pieces |
| `Keyring.KeyringStorage.Clear` | code-oss/cli/src/auth.rs:373-384 | on success the first entry is gone and every entry opened or read is deleted, the others stay; from a fresh start it succeeds if and only if there was something to read |
| `Keyring.ReadPieces` | code-oss/cli/src/auth.rs:327-371 | reading pieces gives the string if it reassembles, and otherwise runs on into whatever follows them |
| `Keyring.ReadAfterStore` | code-oss/cli/src/auth.rs:327-371 | the exact law over any earlier content: a string that reassembles is read back whatever stale entries a longer one left |
| `Keyring.ReadAfterStoreOnEmpty` | code-oss/cli/src/auth.rs:326-371 | on an empty keyring the string is read back if and only if its length is no multiple of the step and its last piece does not end in the marker |
| `Keyring.FullPieceIsLost` | code-oss/cli/src/auth.rs:353-362 | a string of exactly one full piece, and one that looks like the marker, are not read back |
| `Keyring.PiecesFit` | code-oss/cli/src/auth.rs:227-232 | no entry stored is longer than the entry limit |
| `Keyring.StoredFits` | code-oss/cli/src/auth.rs:349-371 | after a store, every entry is within the limit or one that was there before |
| `Auth.Auth.constructor` | code-oss/cli/src/auth.rs:439-488 | the first use selects the file if the environment asks for it, if it exists, or if the keyring cannot be read, and the keyring otherwise, and caches what the backend holds |
| `Auth.Auth.StoreCredentials` | code-oss/cli/src/auth.rs:614-636 | the state after a store, with the switch to the file at the first failure and the cache set in any case |
| `Auth.Auth.ClearCredentials` | code-oss/cli/src/auth.rs:515-521 | a clear drops the cached credential only if the backend was cleared |
| `Auth.CachedIsLast` | code-oss/cli/src/auth.rs:506-521 | over any run the cached credential is the last one stored, or none after a later successful clear |
| `Auth.SwitchesOnce` | code-oss/cli/src/auth.rs:614-636 | the backend changes at most once, from keyring to file |
| `Auth.AgreesFromFirstUse` | code-oss/cli/src/auth.rs:439-488 | over any run from the first use on, whichever backend that selects, the backend holds what is cached unless the last store or clear did not land |
| `Auth.AgreesUnlessLastFailed` | code-oss/cli/src/auth.rs:515-521 | whatever failed before, the backend in use holds the cached credential whenever the last store or clear landed |
| `Auth.RestartIff` | code-oss/cli/src/auth.rs:457-488 | after a last store or clear that landed, a new process, with an environment of its own, finds what this one has cached if and only if the file is in use, or it too uses the keyring, or nothing is cached |
| `Auth.RestartUnused` | code-oss/cli/src/auth.rs:457-488 | with nothing stored or cleared, two processes find the same if and only if there is a file, or they choose the same backend, or the keyring has nothing |
| `Auth.KeyringKeepsIff` | code-oss/cli/src/auth.rs:349-371 | an empty keyring that takes a credential holds it if and only if its sealed form reassembles |
| `DevicePolling.PollUntilGranted` | code-oss/cli/src/auth.rs:815-834 | ends only by a grant or expiry, at most ceil(expires_in / 5) polls, none begun after expiry, each at least 5 + 5k seconds after the one before, k being the slow-downs so far |
| `DevicePolling.PollBound` | code-oss/cli/src/auth.rs:816-817 | the bound on the number of polls a code's lifetime admits |
| `DevicePolling.SlowDownsCount` | code-oss/cli/src/auth.rs:821-829 | the slow-downs that count are the answers `slow_down` and 429, and no others |
| `DevicePolling.LaterPollsWaitLonger` | code-oss/cli/src/auth.rs:821-829 | every poll after a slow-down waits at least five seconds more for it |
| `PersistedState.Container.LoadOrGet` | code-oss/cli/src/state.rs:46-59 | the cached value, or the file's, or the default for a missing or unreadable file, and it is cached |
| `PersistedState.Container.Save` | code-oss/cli/src/state.rs:61-84 | the value in memory is the new one even if writing fails; if writing succeeds a reload gives it too |
| `PersistedState.Container.Update` | code-oss/cli/src/state.rs:128-133 | the mutator is applied to the current value, and its result kept, even if writing fails |
| `RecencyList.RecentIsByLastTouch` | code-oss/cli/src/download_cache.rs:119-126 | moving to the front keeps the distinct names in the order of their last touch |
| `RecencyList.ListIsMostRecent` | code-oss/cli/src/download_cache.rs:119-138 | whatever evictions fail, the list is a prefix of the names by last touch, complete up to five names, and at most 5 + failed evictions long |
| `RecencyList.FiveMostRecent` | code-oss/cli/src/download_cache.rs:119-138 | with evictions succeeding the list is exactly the five most recently touched names, newest first |
| `RecencyList.JustTouchedStays` | code-oss/cli/src/download_cache.rs:124-137 | a touch keeps the list free of duplicates and never evicts the name just touched |
| `DownloadCache.TouchIsRecency` | code-oss/cli/src/download_cache.rs:119-138 | a touch of the cache is a touch of that list, and leaves the directory touched on disk |
| `DownloadCache.TouchEvictsAtMostOne` | code-oss/cli/src/download_cache.rs:126-137 | a touch removes at most one directory, the one named last, and only when more than five are named |
| `DownloadCache.FoundIsMostRecent` | code-oss/cli/src/download_cache.rs:52-60 | a name found becomes the most recent; one not found changes nothing |
| `DownloadCache.DeletedIsGone` | code-oss/cli/src/download_cache.rs:63-72 | a deleted name leaves disk and list, nothing else goes or changes places; if removal fails nothing changes |
| `DownloadCache.CreatedIff` | code-oss/cli/src/download_cache.rs:78-117 | a creation succeeds if and only if staging worked and one of 21 renames went through; the staging directory is then gone and no other directory appears |
| `DownloadCache.StepKeepsNamed` | code-oss/cli/src/download_cache.rs:50-139 | each operation, however its file-system calls fail, leaves every finished directory named in the list |
| `DownloadCache.RunKeepsNamed` | code-oss/cli/src/download_cache.rs:50-139 | so does any run of them |
| `DownloadCache.DownloadCache.Touch` | code-oss/cli/src/download_cache.rs:119-138 | list and directories after a touch, with the eviction that may fail |
| `DownloadCache.DownloadCache.Exists` | code-oss/cli/src/download_cache.rs:52-60 | found if and only if on disk, and then touched |
| `DownloadCache.DownloadCache.Delete` | code-oss/cli/src/download_cache.rs:63-72 | directory and list entries go together, or, if removal fails, neither |
| `DownloadCache.DownloadCache.Create` | code-oss/cli/src/download_cache.rs:78-117 | succeeds if and only if the finished directory is there; each failure leaves exactly the staging directory and touches described |
| `TextEdits.ApplyEdits` | code-oss/scripts/sync-agent-host-protocol.ts:54-62 | applying sorted, disjoint edits from last to first in place is making them all at once in the original |
| `TextEdits.GapsUnchanged` | code-oss/scripts/sync-agent-host-protocol.ts:56-60 | every character outside the edits is still there, moved by the edits before it |
| `TextEdits.LengthAdds` | code-oss/scripts/sync-agent-host-protocol.ts:56-60 | the text is exactly as long as the edits make it: nothing else is added or lost |
| `TextEdits.NewTextsInPlace` | code-oss/scripts/sync-agent-host-protocol.ts:56-60 | every new text stands where its span was, moved by the edits before it |
| `ImportMerge.AddImport` | code-oss/scripts/sync-agent-host-protocol.ts:173-195 | the names go to the module's entry, and the module gets a placeholder the first time only |
| `ImportMerge.MergeDuplicateImports` | code-oss/scripts/sync-agent-host-protocol.ts:165-215 | the loop over lines and the final rebuild compute the merge, including its failure |
| `ImportMerge.MergeKeepsPlaces` | code-oss/scripts/sync-agent-host-protocol.ts:165-215 | other lines stay in order, and each module is left with one import, where it first had one |
| `ImportMerge.OtherLinesKeptIffClean` | code-oss/scripts/sync-agent-host-protocol.ts:199-202 | all other lines come back if and only if none starts like a placeholder |
| `ImportMerge.PlaceholderLineFails` | code-oss/scripts/sync-agent-host-protocol.ts:199-202 | a line that is a placeholder for a module nobody imports makes the merge fail |
| `ImportMerge.MergeKeepsNames` | code-oss/scripts/sync-agent-host-protocol.ts:202-212 | every module keeps exactly its set of type names and its set of value names, inline types included |
| `ImportMerge.MergedImport` | code-oss/scripts/sync-agent-host-protocol.ts:199-212 | the one import a module is left with lists its values, then its types marked as such (or a type import if there are no values), each once and in the order of first occurrence |
| `ImportMerge.IdempotentIffNoClash` | code-oss/scripts/sync-agent-host-protocol.ts:165-215 | merging the result again changes nothing if and only if no module has both `type t` inline and the type `t`; so always when there are no inline types |
| `ImportMerge.InlineClashChangesTwice` | code-oss/scripts/sync-agent-host-protocol.ts:205-208 | two imports that a second merge changes again |

## Left out

- Ids: stream and call ids come from a wrapping 32-bit counter (`rpc.rs` lines 397-400); the model takes them as numbers and assumes that an id in use is not handed out again.
- Sockets, pipes, the tokio scheduler and its fairness: every await is a step with a free outcome, and any enabled step may come next. That a task which can run does run is not modelled, so shutdown is bounded in steps of the owner, not in time.
- `DuplexStream` buffering on the reading side of a stream, and the errors of the final shutdown, which the code ignores.
- Dispatch.OneReplyPerRequest: speaks of the replies handed to the outgoing channel; that the channel is bounded is the subject of `ReplyChannel`, and that a callback's future resolves at all is assumed there.
- The end of a connection: a read of zero bytes, the shutdown barrier, flushing, and the messages of `msg_rx`.
- serde, rmp_serde and the encryption of credentials: the message parser is any self-delimiting function, and sealing any function that unsealing inverts. `MessagePack` gives one parser for the extent of values; decoding into a Rust type, and so a value that is well formed but of the wrong shape, is not part of this model.
- MessagePack.ParseEncoded: the encoder writes every kind of value in its shortest form; floats and extensions are taken as the bytes they are.
- `json_rpc.rs`: it repeats the dispatch and depends on cancellation behaviour that is not visible in the repository.
- The accessor rule on loops, `switch` and `try`: the walk follows no back edge, fall-through or late throw, so it is not exact there. Tagged templates, object literals and optional chaining are not in the syntax modelled; nodes the rule does not enter are leaves.
- AccessorRule.NothingMissed: the moment of use is when the callee `accessor.get`, or the accessor as an argument, has been evaluated; that a call is made only after its arguments, so that an await among them comes before the call itself, is not counted against the rule.
- The `visited` set of the accessor rule: on a tree no node is met twice. The search for the parameter that is the accessor, and shadowing of its name, are not modelled.
- Auth.RestartIff: one process at a time; a file that another process creates while this one uses the keyring is not modelled.
- The 5 second timeout of `ThreadKeyringStorage`: a thread that timed out may still write to the keyring later.
- Keyring.KeyringStorage.Store: slices by character; the code slices by byte, which is the same on the ASCII that sealing gives.
- HTTP, token refresh, `keep_token_alive` and the choice of a provider; a polling answer is a free parameter, the clock advances by at least what was slept, and a code that expires makes the code ask for a new one, which is a new call of the method here.
- File-system calls are outcomes; that `lru.json` lives beside the cached directories, file modes and the delay between renames are not modelled, and neither are two operations on the cache at once.
- The pattern that collapses multi-line imports, and the patterns that classify lines and split names: the model starts from classified lines. `convertIndentation` and the header handling would only add easy members.
- `singleton.rs`, `self_update.rs`, the other lint rules, and everything that is configuration or user interface.
