# HOGS: verified models of its replication, recovery and limiting logic

HOGS keeps several fallible states in agreement: a database, a remote event log, the whitelists
and administrator files of games, and services and files on a node. This project models the code
that does so and proves what that code guarantees. Names and times are kept abstract where only
their equality or order matters. Calls that leave the process (SQL, HTTP, systemctl, restic,
journalctl, the expression language) are nondeterministic: they may fail at any time, and what
they answer is arbitrary within what the comments of each file say.

`dafny verify dfyconfig.toml` checks everything.

| file | models |
|---|---|
| `EventOutbox.dfy`, `EventPublisher.dfy` | the outbox of one event stream: as a machine whose runs are arbitrary interleavings of emitters, the flusher, crashes, lost, late and repeated messages and a forgetful server; and as the publisher's methods, which refine that machine at every database statement |
| `WhitelistReconciler.dfy` | desired identities, ownership rows and the enforced whitelist, for every iteration order and every failing request |
| `AdminReconciler.dfy`, `ValheimList.dfy` | the same for a native administrator file, and the file format of Valheim |
| `UnitMachine.dfy`, `UnitOperations.dfy` | restore, update, manual actions and gateway wakes on one service unit: as a machine whose runs are arbitrary interleavings of everybody's calls under the unit's lock, with a file system and faults at every call; and as the code of one operation, each call of which is a step of that machine |
| `Gateway.dfy` | the wake machine of the on-demand gateway and its boot estimate |
| `MinecraftCodec.dfy` | the wire codec of that gateway |
| `RateLimit.dfy` | the sliding window of the API and the login limiter of the gateway |
| `MapCacheLocks.dfy`, `MapCacheStore.dfy` | the reference-counted per-key locks of the map cache, the copying of a response into it, and eviction |
| `Scheduler.dfy` | the stability timer and the cooldown of automation rules |
| `ResourceSamples.dfy` | downsampling of resource samples |
| `Constraints.dfy` | the order and evaluation of instance and server constraints |
| `ConsoleReplay.dfy`, `ConsoleTranscript.dfy` | replaying a journal and then following it; and the stored transcript that concurrent viewers fill and resume from |
| `Sequences.dfy`, `Wrappers.dfy` | the newest entries of a list; optional values and results |

Where a promise of the source does not hold for all inputs, the code is modelled as it is, and a
lemma gives the input for which it fails, beside the exact condition under which it holds:

* `WhitelistReconciler.ExchangeLosesOwnership`: two accounts that stay eligible and exchange their
  identities both lose ownership. `OwnedAfterwards` says exactly when a desired identity is owned.
* `WhitelistReconciler.HandOverKeepsOldSpelling`: after a hand-over the row keeps the spelling of the
  account that lost access, and a second run changes it. `SecondRunChangesNoRow` says exactly when
  a second run changes no row, in terms of the first run's rows and desired identities.
* `AdminReconciler.LostOwnerLeavesEntry`: the administrator list has no hand-over, so an entry whose
  owner lost access becomes unowned although another account desires it. `OwnedAfterwards` is exact.
* `AdminReconciler.LostWriteKeepsAdministrators`: rows of revoked administrators are deleted before
  the file is written, so a failed write leaves entries nobody will ever remove. `RemovedIfOwned`
  says that a run removes an undesired entry exactly when it has an owner, and `UnownedForGood`
  that a listed entry never gets an owner again, over any sequence of runs.
* `EventOutbox.ForgettingRepeats`: a server that forgets its producer state may log an event twice.
  `RepeatAfterForgetting` says which states it may fall back to for that; with a server that does
  not forget, `ExactlyOnce` holds.
* `ResourceSamples.WrappedMeanIsLow`: the 64-bit memory total may wrap around;
  `MemoryMeanExact` says that the average is the mean exactly when it does not.
* `UnitOperations.RequiredSpaceCovers`: the space asked for covers the snapshot exactly when the
  sum fits 64 bits.
* `Constraints.Loophole`: a failing instance requirement below the limit can be exempted by a
  server. `README.md` line 153 of the repository speaks of constraints above the configured
  limit; the code also protects those at the limit, and `BlockedForEveryServerSet` follows the code.
* `ConsoleTranscript.FreshTranscriptDisorder`: concurrent viewers can disorder the stored transcript
  and move the resume cursor back, and `LostLineLeavesGap`: a line that is not stored leaves a gap for
  good. `StepExactly` gives, action by action, the exact guard, in terms of what is stored, under
  which a step keeps the lines consecutive and the cursor in place; `TranscriptIsGapless` is the same
  for whole runs. `SteadyRunIsOrderly` gives a sufficient condition on the viewers;
  `NotSteadyButOrderly` shows that it is not a necessary one.
* `Scheduler.LostClearingCallsEarly` and `LostSuccessCallsAgain`: the scheduler discards the errors of
  its writes, so a rule whose timer could not be cleared acts without an unbroken stability period,
  and one whose success could not be written acts again without its cooldown. `StableExactly` and
  `CooledExactly` say exactly when this cannot happen; with a store that takes every write it never
  does (`WrittenRunIsJustified`).
* `RateLimit.LateLoginDiffers`: the login limiter reads the clock before it has the mutex. If a
  reading is older than others by more than the rate, an address that was forgotten in between is let
  in too early. `SkewTolerated` gives the exact bound.
* `EventPublisher.RecountedInOrder`: the loops that read rows do not look for an error at their end. If
  renumbering reads fewer ids than there are rows, the rest of the queue keeps negative sequences.
* `MinecraftCodec.ReencodeIsRaw`: encoding a number again gives its bytes back only if the client
  did not pad it, which is why the gateway keeps the raw bytes.

## Model

| member | source | states |
|---|---|---|
| EventOutbox.NoEventLost | events/events.go:137-162 | After every run, even with a server that forgets, the first occurrences in the server's log followed by the queued events it does not hold are the enqueue history |
| EventOutbox.PairsAndIntervals | events/events.go:283-324 | After every run no (epoch, seq) pair ever sent names two events, and the outbox is the contiguous interval ending just below next_seq, in enqueue order |
| EventOutbox.EpochsGrow | events/events.go:310-323 | No step lowers the epoch, and renumbering strictly raises it |
| EventOutbox.ExactlyOnce | events/events.go:220-276 | With a server that keeps its producer state, every run delivers each event exactly once in order, and a conflict that would renumber never happens |
| EventOutbox.ForgettingRepeats | events/events.go:261-276 | A concrete run in which a server that forgets logs the same event twice |
| EventOutbox.RepeatAfterForgetting | events/events.go:261-276 | After forgetting, a delivery logs an event a second time if and only if the server's new state appends a sent request whose event it has logged |
| EventOutbox.SuccessMeansLogged | events/events.go:256-269 | An answer the flusher takes for success, including a conflict whose expected value is higher, means that this very event is in the log |
| EventOutbox.ReceiveKeepsInv | events/events.go:246-256 | A request that arrives late or again can only append the oldest event not yet logged, or repeat one |
| EventOutbox.RenumberKeepsInv | events/events.go:283-324 | Renumbering keeps order, bodies and uniqueness of everything queued or in flight |
| EventOutbox.RunKeepsInv | events/events.go:137-324 | The invariant over queue, network, server and log holds after every run |
| EventOutbox.LogThenOutbox | events/events.go:220-276 | In every state of the invariant the log's first occurrences and the queued events it lacks make up the history |
| EventPublisher.Publisher.Enqueue | events/events.go:137-162 | One transaction that is exactly the enqueue step of the machine, or no change |
| EventPublisher.Publisher.Post | events/events.go:246-269 | Success and an already-held conflict are the only answers after which the row may be deleted; a refused one leads to renumbering, none leaves the batch where it was and is the only answer that counts as a fault |
| EventPublisher.Publisher.AppendOne | events/events.go:246-276 | Success: the row at the head was logged and removed, and nothing failed; without a failed call the only other end is a refusal, after which the epoch is strictly higher and the same events are numbered from zero |
| EventPublisher.Publisher.UpdateSeq | events/events.go:307-311 | One renumbering statement, which demands that (stream, seq) stays unique |
| EventPublisher.NegatedUnique | events/events.go:303-306 | Negating the sequences keeps (stream, seq) unique whichever rows have been reached |
| EventPublisher.RecountedUnique | events/events.go:303-311 | After every single renumbering update (stream, seq) is unique, and the next number is free |
| EventPublisher.Publisher.RenumberRows | events/events.go:283-311 | The statement-by-statement renumbering yields the queue counted from zero in the same order |
| EventPublisher.Publisher.Renumber | events/events.go:283-324 | One transaction that is exactly the renumber step of the machine, or no change |
| EventPublisher.RenumberCountsAnew | events/events.go:283-324 | The renumber step raises the epoch strictly and leaves the queued events numbered from zero in enqueue order, with the next number behind them |
| EventPublisher.OrderedAlready | events/events.go:220-245 | Ordering the rows by sequence gives them in enqueue order |
| EventPublisher.Publisher.FlushStream | events/events.go:220-276 | Every point of a flush lies on a run of the machine; success means that nothing failed and that at least the batch present at the start was logged and removed, unless reading it broke off unnoticed; without a failed call a flush ends otherwise only for a stream that did not exist or by a refusal, and after a refusal the epoch is above the one the flush found and the rest of the queue counts from zero |
| EventPublisher.RecountedInOrder | events/events.go:294-311 | Renumbering numbers the queue from zero in order if and only if every row id was read |
| WhitelistReconciler.Reconciler.ReconcileServer | api/whitelist_reconciler.go:180-322 | Success: whitelist = (before minus owned-and-not-desired) plus desired; added and removed are the sizes of the two set differences, manual counts the entries nobody desires, and missing, unverified, invalid and eligible each count the accounts of that standing; it succeeds exactly if every identity could be read and no request failed; always: no intermediate whitelist lacks an entry nobody owned |
| WhitelistReconciler.Reconciler.SettleDesired | api/whitelist_reconciler.go:247-289 | One iteration of the desired loop keeps the whitelist and row invariants for any set of accounts already handled |
| WhitelistReconciler.Reconciler.SettleStale | api/whitelist_reconciler.go:291-316 | The same for one account that lost its access |
| WhitelistReconciler.Reconciler.CollectDesired | api/whitelist_reconciler.go:185-236 | Desired identities are exactly the verified ones of eligible accounts, the heir of an identity is the first account of the list that wants it, and missing, unverified, invalid and eligible are each the number of accounts with that standing; it fails exactly if the identity of an eligible account cannot be read |
| WhitelistReconciler.Reconciler.SetUserWhitelistForIdentity | database/database.go:502-523 | Storing an owner takes the identity from every other account |
| WhitelistReconciler.HandOver | api/whitelist_reconciler.go:303-312 | An identity whose recorded owner lost access passes to another desired account, whatever order the accounts come in |
| WhitelistReconciler.OwnedAfterwards | api/whitelist_reconciler.go:247-316 | A desired identity is owned afterwards if and only if it was not listed before, or its recorded owner kept wanting it or lost its access |
| WhitelistReconciler.RowsAreDesired | api/whitelist_reconciler.go:274-316 | Every row belongs to a desired account, names its desired identity alone, and no entry present without an owner was adopted |
| WhitelistReconciler.SecondRunIsQuiet | api/whitelist_reconciler.go:247-322 | An immediate second run adds and removes nothing and leaves every row with its account, under the desired spelling |
| WhitelistReconciler.SecondRunChangesNoRow | api/whitelist_reconciler.go:274-316 | With one owner for each identity, a second run changes no row if and only if everybody whose identity was handed over had recorded the spelling the heir desires |
| WhitelistReconciler.OneOwnerAfterwards | database/database.go:502-523 | After every successful run each identity has one owner |
| WhitelistReconciler.HandOverKeepsOldSpelling | api/whitelist_reconciler.go:303-312 | A moved identity that two providers spell differently: the first run stores the old spelling, the second one the new |
| WhitelistReconciler.HandOverHappens | api/whitelist_reconciler.go:291-316 | These two runs are among those the reconciler can make |
| WhitelistReconciler.ExchangeLosesOwnership | api/whitelist_reconciler.go:274-289 | Two eligible accounts that exchange identities end without any ownership row |
| AdminReconciler.AdminReconciler.ReconcileAdmins | api/admin_reconciler.go:73-193 | Success, exactly if every identity was read and no call failed: the file is the surviving entries in their order plus what was missing, every row is for a desired identity, what was added or its own is owned, nothing foreign was adopted, and every counter is the number it names; a run on a settled state changes nothing; any failure leaves rows that are old or desired; only a failed write may have changed the file, to what success would have made of it, and leaves the rows of a success |
| AdminReconciler.AdminReconciler.KeepOrRevoke | api/admin_reconciler.go:140-162 | The entry loop keeps the first entry of every key that is desired or unowned, in order, and counts revoked and manual entries |
| AdminReconciler.AdminReconciler.AddDesired | api/admin_reconciler.go:163-195 | For every iteration order the desired loop appends exactly the missing keys and leaves rows that are settled |
| AdminReconciler.WhatWasWritten | api/admin_reconciler.go:196-209 | Whether or not the file is rewritten, its keys are (file minus owned-and-not-desired) plus desired, and sizes match the counters |
| AdminReconciler.FirstOfKeepsOrder | api/admin_reconciler.go:140-162 | Survivors keep their original order |
| AdminReconciler.FirstOfIsFirst | api/admin_reconciler.go:140-162 | The entry that survives for a key is its first one; unowned entries always survive |
| AdminReconciler.OwnedAfterwards | api/admin_reconciler.go:163-203 | A desired identity is owned after a success if and only if it was not listed before, or an account that desires it owned it |
| AdminReconciler.LostOwnerLeavesEntry | api/admin_reconciler.go:163-203 | An entry whose owner lost access becomes unowned though another account desires it |
| AdminReconciler.RemovedIfOwned | api/admin_reconciler.go:140-162 | A run removes a listed entry that is no longer desired if and only if it has an owner |
| AdminReconciler.UnownedForGood | api/admin_reconciler.go:140-203 | Over any sequence of successful and failed runs, a listed entry without an owner gets none and is never removed |
| AdminReconciler.LostWriteKeepsAdministrators | api/admin_reconciler.go:156-209 | After a write that took no effect every revoked entry is unowned and stays listed through every later run |
| AdminReconciler.ValheimFileReadsBack | gametypes/embedded.go:136-172 | The administrator file a run writes for Valheim is read back entry by entry |
| ValheimList.DecodeIDList | gametypes/embedded.go:144-160 | The loop returns what `Decoded` describes |
| ValheimList.DecodedExactly | gametypes/embedded.go:144-160 | Decoding fails exactly on a line that is neither blank, nor a comment, nor an identifier; otherwise it gives the first occurrence of every other line, in order |
| ValheimList.EncodeIDList | gametypes/embedded.go:162-172 | Encoding fails exactly on an invalid identifier |
| ValheimList.ValidIsOneLine | gametypes/embedded.go:22-22 | A valid identifier is a non-empty single line that is no comment |
| ValheimList.PlatformAndUser | gametypes/embedded.go:22-22 | An identifier is exactly a platform, an underscore and a user, each with the characters and lengths permitted to it |
| ValheimList.EncodeDecode | gametypes/embedded.go:144-172 | Decoding what was encoded gives the list back up to repeated entries |
| ValheimList.RewrittenFileReadsTheSame | gametypes/embedded.go:128-172 | Rewriting any accepted file changes nothing for the next reader |
| ValheimList.BothListsReadBack | gametypes/embedded.go:128-172 | Either list without repetitions is read back as it was written, under its own header |
| ValheimList.LinesOfJoin | gametypes/embedded.go:147-171 | Splitting at newlines undoes joining |
| ValheimList.NewlineReplaced | gametypes/embedded.go:147-147 | Every carriage return with a newline behind it becomes a newline, and the text before and behind is replaced on its own |
| ValheimList.NothingToReplace | gametypes/embedded.go:147-147 | Text without such a pair stays as it is |
| UnitMachine.AtMostOneInside | cmd/hogs-agent/operation_lock.go:7-10 | In every interleaving at most one operation is between taking the unit's lock and giving it back |
| UnitMachine.LockIsReleased | cmd/hogs-agent/restore.go:161-163 | In every interleaving a finished operation does not hold the lock, and whoever holds it can give it back |
| UnitMachine.SnapshotBeforeReplacement | cmd/hogs-agent/restore.go:161-286 | In every interleaving of restores, updates, actions and wakes, data is only given up after a named snapshot of it; unless the unit starts on its own, the service is stopped then and the snapshot is identical |
| UnitMachine.OthersLeaveAlone | cmd/hogs-agent/operation_lock.go:7-10 | While one operation holds the lock, nobody else's steps change anything but what a running game writes |
| UnitMachine.RunKeepsInv | cmd/hogs-agent/restore.go:161-365 | Exclusion, the meaning of every phase and the discipline hold after every run |
| UnitOperations.Unit.Acquire | cmd/hogs-agent/restore.go:161-163 | The lock is taken only when it is free, after others may have worked |
| UnitOperations.Unit.Release | cmd/hogs-agent/restore.go:163-163 | The lock is free again and nothing else changes |
| UnitOperations.Unit.RestoreLocked | cmd/hogs-agent/restore.go:165-364 | Success: the data directory holds the snapshot; failure: it holds what it held, unless renaming the original back was tried and failed: then the original lies intact at the rollback path; if nobody could write, the trees are equal, and the original is only left aside after a directory call failed with nothing in its way; rollbackRestored, present exactly after a rollback of the exchange, says which; a stopped service is restarted exactly once on failure, after the last rename; with enough space and nothing failing it succeeds, if the unit does not start on its own; no directory is renamed while the service was not last seen stopped, unless a service call failed; unless a call failed or the original could not return, no new directory is left behind |
| UnitOperations.Unit.RestoreSnapshot | cmd/hogs-agent/restore.go:141-365 | A malformed identifier, a wrong confirmation, an unsafe path or missing data changes nothing; otherwise all of the above among everybody else's steps, the lock is free at the end, and the safety snapshot reported is the one the log has |
| UnitOperations.Unit.Prepare | cmd/hogs-agent/restore.go:193-268 | The exchange is only reached with a named safety snapshot of the live data, a complete staged copy, enough free space and a free name; without a failed call it is reached unless there is too little space |
| UnitOperations.Unit.SaveAndStage | cmd/hogs-agent/restore.go:193-245 | The same up to the staged copy; whatever happens, there is no directory beside the old ones but the staging directory |
| UnitOperations.Unit.Exchange | cmd/hogs-agent/restore.go:269-287 | The original is in place again, or aside with the restored copy active, or aside because renaming it back was tried and failed |
| UnitOperations.Unit.Rollback | cmd/hogs-agent/restore.go:289-322 | The closure reports true exactly when the original is back, false only after renaming it back failed, and attempts the original restart once, last; no directory is moved before the service was seen stopped, unless a call to the service failed; the failed copy is removed, or that failed |
| UnitOperations.Unit.StopIfRunning | cmd/hogs-agent/restore.go:290-295 | Afterwards the service was last seen stopped, or a state read, the stop or the wait failed |
| UnitOperations.Unit.KeepFailedCopy | cmd/hogs-agent/restore.go:296-302 | The restored data is out of the way of the original, unless somebody else could write or a directory call failed |
| UnitOperations.Unit.MoveBack | cmd/hogs-agent/restore.go:274-275 | The original is back, or its rename was tried and failed |
| UnitOperations.Unit.KeepOrRollBack | cmd/hogs-agent/restore.go:324-357 | The original is deleted only if the service is back in its former state: started once, seen running and answering, or still stopped; the warning says that this deletion failed |
| UnitOperations.Unit.CleanUp | cmd/hogs-agent/restore.go:218-218 | The staging directory is gone unless a removal failed, and everything else is untouched |
| UnitOperations.Unit.RestartOriginal | cmd/hogs-agent/restore.go:170-179 | The service is started again only if this operation stopped it, and success means it was seen running |
| UnitOperations.Unit.WaitForState | cmd/hogs-agent/restore.go:92-107 | A successful wait has seen the wanted state |
| UnitOperations.Unit.MoveLiveAside | cmd/hogs-agent/restore.go:270-273 | Only an operation with a named snapshot taken since it saw the service stopped gets here; the attempt is recorded with what is given up |
| UnitOperations.Unit.Interfere | cmd/hogs-agent/operation_lock.go:7-10 | After any steps of anybody else the holder still has the lock, its phase and its directories; a stopped unit that does not start on its own is stopped and its data unchanged |
| UnitOperations.Unit.UpdateLocked | cmd/hogs-agent/update.go:92-161 | The update unit runs at most once and never without a snapshot, and its outcome is the one reported; a stopped service is started again exactly once whatever happens, and success means it was seen running and answering; the report is exact, and without a failed call it is a success; the data directory is never exchanged |
| UnitOperations.Unit.UpdateServer | cmd/hogs-agent/update.go:80-162 | Without an update unit or with a wrong confirmation nothing changes; otherwise the lock is free at the end and the data is where it was |
| UnitOperations.Unit.HandleAction | cmd/hogs-agent/http_api.go:146-152 | A manual action waits for the same lock, stops and starts the service exactly as its name says, succeeds exactly if no call failed, refuses every other name, and gives the lock back |
| UnitOperations.Unit.WakeStart | cmd/hogs-agent/gateway.go:395-405 | A wake waits for the same lock, starts exactly a unit that was not seen active, never stops one, and gives the lock back |
| UnitOperations.Unit.Serve | cmd/hogs-agent/restore.go:161-286 | The code of the four operations, one after the other among everybody else's steps, stays within the machine, so its log is disciplined |
| UnitOperations.RequiredSpaceCovers | cmd/hogs-agent/restore.go:87-90 | The demanded space covers the snapshot exactly when the 64-bit sum does not wrap |
| Gateway.MinecraftGateway.Serve | cmd/hogs-agent/gateway.go:217-481 | For every interleaving: at most one boot task, in flight only while starting or ready; triggered wakes keep the cooldown and never outnumber attempts; the kept boot durations are the last at most 20 |
| Gateway.MinecraftGateway.constructor | cmd/hogs-agent/gateway.go:153-181 | A gateway that finds its unit active but not ready starts with exactly one boot task |
| Gateway.MinecraftGateway.RefreshState | cmd/hogs-agent/gateway.go:217-238 | The state shown and the boot tasks are exact: one is added exactly when the unit is active, the backend is not ready and no boot is in flight |
| Gateway.MinecraftGateway.RequestWake | cmd/hogs-agent/gateway.go:375-417 | A wake is triggered exactly when no boot is in flight and the cooldown has passed |
| Gateway.MinecraftGateway.AwaitReady | cmd/hogs-agent/gateway.go:423-443 | The end of a boot records its duration if positive, keeps 20, and clears the flight |
| Gateway.MinecraftGateway.MarkBackendUnavailable | cmd/hogs-agent/gateway.go:470-481 | A boot in flight is not disturbed |
| Gateway.MinecraftGateway.EstimatedBoot | cmd/hogs-agent/gateway.go:483-494 | The estimate is the least value that at least three quarters of the kept durations do not exceed |
| Gateway.RankInAscending | cmd/hogs-agent/gateway.go:487-493 | Position k of the sorted durations is the least value with more than k durations at or below it |
| Gateway.ApartPairwise | cmd/hogs-agent/gateway.go:384-388 | Wakes i and j are at least (j - i) cooldowns apart |
| MinecraftCodec.VarIntReadBack | cmd/hogs-agent/gateway.go:607-636 | A non-negative number is read back, consuming exactly its bytes, if and only if it is below 2^35 |
| MinecraftCodec.ReencodeIsRaw | cmd/hogs-agent/gateway.go:589-636 | Re-encoding an accepted number gives its raw bytes if and only if it was not padded |
| MinecraftCodec.PacketRoundTrip | cmd/hogs-agent/gateway.go:574-587 | A packet is read back if and only if its body is not empty and has at most 2 MiB |
| MinecraftCodec.StringRoundTrip | cmd/hogs-agent/gateway.go:682-700 | A string is read back if and only if it is within the reader's limit |
| MinecraftCodec.HandshakeRoundTrip | cmd/hogs-agent/gateway.go:638-661 | A handshake is read back if and only if every field is within its limit |
| MinecraftCodec.OrAddsFirstGroup | cmd/hogs-agent/gateway.go:599-599 | On 64-bit words the first group is the group the reader adds |
| MinecraftCodec.OrAddsSecondGroup | cmd/hogs-agent/gateway.go:599-599 | On 64-bit words the or with the second group, shifted by 7, is the addition of the reader |
| MinecraftCodec.OrAddsThirdGroup | cmd/hogs-agent/gateway.go:599-599 | The same for the third group, shifted by 14 |
| MinecraftCodec.OrAddsFourthGroup | cmd/hogs-agent/gateway.go:599-599 | The same for the fourth group, shifted by 21 |
| MinecraftCodec.OrAddsFifthGroup | cmd/hogs-agent/gateway.go:599-599 | The same for the fifth group, shifted by 28; nothing is cut off |
| MinecraftCodec.Reader.ReadVarInt | cmd/hogs-agent/gateway.go:589-622 | The reader returns what the bytes mean and the raw bytes it consumed, or fails when they mean nothing |
| MinecraftCodec.Reader.ReadPacket | cmd/hogs-agent/gateway.go:574-587 | The same for a packet: the raw bytes are exactly the bytes consumed |
| MinecraftCodec.Reader.ReadString | cmd/hogs-agent/gateway.go:682-692 | The same for a string |
| MinecraftCodec.AppendVarInt | cmd/hogs-agent/gateway.go:624-636 | The appending loop writes the encoding after the target |
| MinecraftCodec.ParseHandshake | cmd/hogs-agent/gateway.go:638-661 | The parser accepts exactly the handshakes the format describes |
| MinecraftCodec.ParseLoginUsername | cmd/hogs-agent/gateway.go:663-680 | The parser accepts exactly the login packets whose name has at least three characters, all permitted |
| MinecraftCodec.LoginRoundTrip | cmd/hogs-agent/gateway.go:663-700 | A name in a login packet is read back if and only if it is within the reader's limit |
| MinecraftCodec.UsernameByteIsWordCharacter | cmd/hogs-agent/gateway.go:663-680 | The permitted bytes of a name are letters, digits and the underscore |
| MinecraftCodec.ReadLogin | cmd/hogs-agent/gateway.go:268-304 | The login is accepted exactly if the two packets mean one, with its name, and the bytes replayed to the backend are exactly the bytes the client sent |
| MinecraftCodec.ConversationReadBack | cmd/hogs-agent/gateway.go:268-304 | Whoever sends a handshake for a login and a permitted name within the limits is understood, whatever follows, and exactly these bytes are consumed |
| RateLimit.RateLimiter.Allow | api/ratelimit.go:45-72 | A request passes exactly when fewer than the limit passed in the last window, counted over everything ever let through |
| RateLimit.RateLimiter.Cleanup | api/ratelimit.go:26-43 | Forgetting expired times changes no later decision |
| RateLimit.RateLimiter.GrantedRequestsSpanWindow | api/ratelimit.go:26-72 | Any limit + 1 granted requests of one address span at least the window |
| RateLimit.RecentOfKept | api/ratelimit.go:30-57 | Reading the pruned list gives the same answer as reading the full one |
| RateLimit.LoginLimiter.AllowOfflineLogin | cmd/hogs-agent/gateway.go:323-344 | The same logins pass as with a limiter that never forgets an address, as long as no reading of the clock is older than an earlier one by more than the rate |
| RateLimit.SkewTolerated | cmd/hogs-agent/gateway.go:328-342 | Forgetting addresses changes no answer in any run if and only if readings get out of order by at most the rate and one tick |
| RateLimit.SameAnswers | cmd/hogs-agent/gateway.go:334-341 | Whoever was forgotten logged in more than twice the rate ago, so every answer is the same |
| RateLimit.LateLoginDiffers | cmd/hogs-agent/gateway.go:328-342 | A crowd of other addresses and one late reading: the forgotten address is let in although its last login is too recent |
| MapCacheLocks.OneHolderPerKey | api/map_cache.go:126-145 | In every interleaving at most one request holds a key, so at most one fetches it, though lock objects are dropped and made anew |
| MapCacheLocks.CountsAndCleanup | api/map_cache.go:126-145 | A lock's count is its holders, waiters and unfinished releasers; a key is in the table exactly while some request is active on it |
| MapCacheLocks.NoSecondFetch | api/server_handler.go:371-401 | From the moment a request asks the origin, no request fetches that key until the entry expires or the response was not stored |
| MapCacheLocks.OneFetchUntilExpiry | api/server_handler.go:371-401 | The same within any run from the empty cache |
| MapCacheLocks.RunKeepsInv | api/map_cache.go:126-145 | The lock table invariant holds after every run |
| MapCacheLocks.SomebodyMoves | api/map_cache.go:126-145 | In no reachable state are all requests of a key stuck: one of them can take its next step |
| MapCacheStore.MapCache.Prune | api/map_cache.go:253-293 | The bodies tried are the shortest prefix in order of last use that must go; what is left exceeds the bound by no more than what could not be removed, and not at all if nothing failed; a total that fits is left alone |
| MapCacheStore.OldestAreEvicted | api/map_cache.go:285-292 | Nothing kept was used longer ago than something removed |
| MapCacheStore.Writer.StoreResponse | api/map_cache.go:346-353 | A committed body is the whole response, was delivered in full and is within the item limit; a larger response is delivered and leaves the cache alone; if nothing fails, exactly the responses within the limit are committed |
| MapCacheStore.Writer.Write | api/map_cache.go:170-183 | The writer holds all bytes offered, or has noticed that they exceed the limit |
| MapCacheStore.Writer.Commit | api/map_cache.go:193-251 | It succeeds exactly if the body is within the limit and no call failed; success: body and recorded size agree; failure: each file is the old one, new or gone, and the new body is only usable if the old response had the same size |
| Scheduler.Rule.ExecuteJob | cron/scheduler.go:120-201 | The executor is called exactly on a true, fresh evaluation with a ripe timer and a passed cooldown, as far as the stored timestamps tell; every outcome is exact, and the stored state is the one of a run |
| Scheduler.Rule.EvaluateCondition | cron/scheduler.go:203-268 | The timer starts exactly on a true, fresh evaluation without one, and readiness means it has run for the stability period |
| Scheduler.Rule.FinishJob | cron/scheduler.go:270-282 | Only waiting for the condition to stay true keeps the timer; a write that is lost keeps what was stored |
| Scheduler.TimerSurvives | cron/scheduler.go:270-277 | A timer outlives an evaluation that breaks the condition only if clearing it was lost |
| Scheduler.StableExactly | cron/scheduler.go:251-267 | The next call of the executor comes after the stability period, whatever is evaluated, if and only if no clearing of the timer was lost since it was set, or the clock went back far enough |
| Scheduler.StableWhileClockAdvances | cron/scheduler.go:251-267 | While the clock goes forward, the lost clearing alone decides |
| Scheduler.CooledExactly | cron/scheduler.go:145-155 | The next call comes after the cooldown, whatever is evaluated, if and only if the last success was written, or the clock went back far enough |
| Scheduler.LostClearingCallsEarly | cron/scheduler.go:277-277 | A run in which a clearing is lost and the executor is called without an unbroken stability period |
| Scheduler.LostSuccessCallsAgain | cron/scheduler.go:277-277 | A run in which a success is not written and the executor is called again without the cooldown |
| Scheduler.CallsJustified | cron/scheduler.go:120-201 | Every call in a run is justified by stability unless a clearing was lost, and by the cooldown unless a success was lost |
| Scheduler.WrittenRunIsJustified | cron/scheduler.go:120-201 | With a store that takes every write, every call is justified |
| Scheduler.ConsecutiveSuccesses | cron/scheduler.go:145-155 | An action after a success that was written starts at least the cooldown after the truncated time of that success |
| ResourceSamples.Downsample | database/resource_samples.go:117-134 | The result has exactly the requested number of buckets, in order, each summarized; the clamps never act |
| ResourceSamples.CutStep | database/resource_samples.go:122-131 | The buckets partition the samples and differ in size by at most one |
| ResourceSamples.Aggregate | database/resource_samples.go:136-191 | What a bucket shows: last sample, any running, mean values, greatest peak, latest limits |
| ResourceSamples.LatestLimits | database/resource_samples.go:175-189 | Each limit is the latest one any sample of the bucket carries |
| ResourceSamples.AveragesWithinReadings | database/resource_samples.go:161-170 | Averages lie between the least and greatest reading of their bucket, for memory unless the total wrapped |
| ResourceSamples.MemoryMeanExact | database/resource_samples.go:152-170 | The memory average is the mean if and only if the 64-bit total did not wrap |
| ResourceSamples.WrappedMeanIsLow | database/resource_samples.go:152-170 | Three large readings whose average falls below all of them |
| ResourceSamples.PeakAndRunningSurvive | database/resource_samples.go:146-174 | Overall peak and whether the server ever ran are the same before and after |
| Constraints.ScanDecides | engine/engine.go:285-323 | The scan returns the decision of the foremost deciding constraint, or allows |
| Constraints.VerdictOfFields | database/database.go:1393-1397 | The verdict, by the fields alone: a passing exemption or failing requirement decides if every other such row has a lower priority, or the same one and belongs to the server while it does not, or the same priority and scope and a larger id; the status follows from its strategy |
| Constraints.AllowedOfFields | engine/engine.go:285-323 | Without a passing exemption or a failing requirement the action is allowed |
| Constraints.RequirementStands | engine/engine.go:285-323 | A failing instance requirement at or above the limit blocks under every set of server constraints within it, unless a passing instance exemption sorts before it |
| Constraints.BlockedForEveryServerSet | database/database.go:1393-1397 | The action is blocked under every admissible server set if and only if the foremost instance decision is a requirement at or above the limit |
| Constraints.Loophole | engine/engine.go:304-311 | Otherwise some admissible server set lets the action through |
| Constraints.FormsStayWithinLimit | web/handler.go:1691-1730 | No sequence of submitted forms lifts a server row above the limit or touches an instance row |
| Constraints.FormSaved | web/handler.go:1691-1730 | A form is accepted exactly within the limit, with a mode, a name and a row it may change, refused with the first error otherwise, and leaves every other row alone |
| Constraints.QueryOrderInOrder | database/database.go:1393-1397 | The query's order is total and loses no row |
| Constraints.QueryOrderPrecedes | database/database.go:1393-1397 | Of two rows in the result, the earlier has the higher priority, or on a tie belongs to the instance, or on a tie has the smaller id |
| ConsoleReplay.Console.HandleConsole | cmd/hogs-agent/http_api.go:215-311 | Bad cursors and backlogs are refused; a journal call that fails is the only reason for a bad gateway; if nothing fails, a cursor is resumed from and its absence shows the recent lines, with exactly the replay and the follow point of the journal as it was read; whatever fails, the replay is the newest shown lines up to where following starts, with the limits and the fallback of the code |
| ConsoleReplay.Console.ReplayForward | cmd/hogs-agent/console_journal.go:82-136 | After a cursor: the last at most 500 shown lines read and the newest entry read, even when the scan breaks off |
| ConsoleReplay.Console.ReplayReverse | cmd/hogs-agent/console_journal.go:82-136 | Without a cursor: the last at most backlog shown lines of the newest 20000 records, oldest first |
| ConsoleReplay.ReplayThenFollow | cmd/hogs-agent/http_api.go:243-311 | Whatever is logged later, replayed and then followed lines are a suffix of all shown lines after the starting point, with no gap and no repetition |
| ConsoleReplay.ForwardThenFollow | cmd/hogs-agent/http_api.go:243-270 | Following from the newest entry read loses nothing, for any mix of hidden and unreadable records |
| ConsoleReplay.NothingBehindLast | cmd/hogs-agent/console_journal.go:105-125 | No shown line lies behind the newest entry read |
| ConsoleTranscript.TranscriptIsGapless | api/console_handler.go:61-117 | Over a run from the empty transcript, with any line lost and any viewers, the stored lines stay consecutive and the resume cursor in place if and only if every step was orderly |
| ConsoleTranscript.StepExactly | database/database.go:214-257 | From consecutive lines, exactly these steps keep them consecutive and the cursor in place: storing a line among them or right behind, or in place of the only one; and input that does not push the only line out |
| ConsoleTranscript.LineExactly | database/database.go:219-246 | The same for the storing of one line |
| ConsoleTranscript.SteadyRunIsOrderly | api/console_handler.go:61-117 | Viewers that start where the others stand or right behind what is stored, and lose no new line, keep every step orderly |
| ConsoleTranscript.NotSteadyButOrderly | api/console_handler.go:61-117 | A run whose viewers start apart and that is gapless all the same |
| ConsoleTranscript.LostLineLeavesGap | api/console_handler.go:87-89 | A line whose storing fails leaves a gap behind which later viewers resume |
| ConsoleTranscript.FreshTranscriptDisorder | database/database.go:219-257 | Two viewers that open a fresh transcript one line apart can store the older line behind the newer one and move the cursor back |
| ConsoleTranscript.CursorNeverGoesBack | database/database.go:219-257 | Storing a line keeps the resume cursor from going back if and only if the line is not older than everything stored |
| ConsoleTranscript.OutputsStored | database/database.go:235-244 | A stored cursor is skipped; otherwise the line is added and at most the oldest row goes |
| ConsoleTranscript.ResumedViewerStarts | api/console_handler.go:61-117 | What the node sends to a viewer that resumes from the stored cursor is a suffix of all shown lines that begins where the transcript model lets viewers begin |
| ConsoleTranscript.RecentViewerStarts | api/console_handler.go:61-117 | The same for a viewer without a cursor |

## Left out

- EventPublisher.Publisher.Renumber: reads every row id or fails; a read that breaks off unnoticed leaves the machine, as `RecountedInOrder` says.
- Flushing all streams: `FlushStream` is one stream; the loop over streams, and what the request that creates a stream holds, are not modelled.
- Database rollback to an older backup: a conflict with a larger expected value is then ambiguous, and no claim is made.
- SQL text, migrations, HTTP, templates, sessions, capability tokens, digests, notifications and provisioning: not modelled.
- The expression language: the value of a condition is arbitrary; a disabled constraint counts as one that does not evaluate.
- WhitelistReconciler.Reconciler.ReconcileServer: does not model edits of the whitelist by others during a run; account names are distinct up to case, as the users table requires.
- AdminReconciler.AdminReconciler.ReconcileAdmins: does not model edits of the file by others between runs; that rows and file agree after a failed run is not true of the code (see `LostWriteKeepsAdministrators`).
- UnitOperations.Unit.RestoreSnapshot: the lexical checks of the data path are a flag, and trimming of the identifier happens before; the content of a directory is its origin and how often it was written to.
- UnitOperations.Unit.HandleAction: systemctl restart is a stop followed by a start; whitelist, command, file and backup requests, which take the same lock, are only present as other holders of it.
- UnitMachine: administrators who call systemctl or rename directories by hand are outside the lock and not modelled.
- Gateway.MinecraftGateway.EstimatedBoot: durations are integers, so the conversion to float seconds and back is not modelled.
- Gateway: proxying, disconnect and status messages, saving the boot durations and the counters of proxied and rejected connections.
- RateLimit: parsing of addresses and forwarding headers.
- MapCacheLocks: what the origin answers, stale entries and revalidation; an entry that is pruned or found broken counts as expired.
- MapCacheStore.MapCache.Prune: bodies that appear or vanish while it runs, and bodies whose size cannot be read, which the source skips.
- MapCacheStore.Writer.Commit: does not model a process that dies between the rename of the body and the metadata.
- Scheduler: malformed stored timestamps, a process that dies inside an evaluation, and evaluations of one rule that overlap each other or an edit of it.
- ResourceSamples.Aggregate: floating-point rounding of the processor average; it is computed over the reals.
- ResourceSamples.AveragesWithinReadings: its processor half is over the reals too.
- ConsoleReplay.Console.HandleConsole: a cursor the journal no longer knows makes the read fail.
- MinecraftCodec.AppendVarInt: negative values, on which the loop of the code does not end.
- ValheimList: characters beyond single bytes; identifiers are ASCII.
- Inventory, status queries, map targets and freshness headers, server access evaluation and file lists of other games: they would add field copying or single-branch checks only.
