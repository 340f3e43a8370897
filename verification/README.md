# Verified model of new-api's stateful core

This project models the parts of the API gateway new-api that keep state or transform data in ways worth
proving: the per-order payment lock and the handlers under it, the incremental upstream model lists, the
rate limiter and the verification-code store, the pricing difference report and the models.dev price
selection, multi-key channels, request body storage, the Ogg duration scanner, step-up verification
sessions, and quota and top-up arithmetic. `dafny verify dfyconfig.toml` checks everything.

| file | models |
|---|---|
| TopUpProtocol, OrderLockSafety, PaymentSafety, RunsEnd, UncontendedRun, ClusterRuns, ClusterConflicts | LockOrder/UnlockOrder and five order handlers as a transition system of single atomic steps by any number of threads; invariants, safety and termination over all runs; several processes on one database, and exactly which handlers they may share |
| Text, ModelNames, UpstreamModels, UpstreamChannel, ChannelScan | the ordered-set algebra on model names, detection and incremental apply, the record updated in place, the keyset-paginated scan |
| RateLimiter, VerificationCodes | bounded stores with eviction, compared with unbounded histories |
| RatioDifferences, DifferenceBuilder, ModelsDev | the build-and-prune report against a declarative one, and the epsilon-comparing selection |
| MultiKeys, MultiKeyChannel, KeyPaging | the key text and three index maps refining a list of entries; the paged listing |
| BodyStorage, BodyStorageObjects | two implementations of one interface and the counters of what is open |
| OggPages | the resynchronising page scanner against the page format of section 6 of RFC 3533 |
| SecureSession | the session record of two-factor and passkey verification |
| QuotaMath, TopUpAmounts | saturating conversions; token-mode top-up amounts |
| Options, MachineTypes, Division | shared types, 64-bit wrap-around, quotients |

Clocks, randomness, database and session-save outcomes, regular expression matching and JSON array
parsing are parameters. Code that changes things step by step is a class or a method with loops, proved
against functions; the theorems are about those functions.

Properties that turned out not to hold for all inputs are stated with the exact condition under which they
do, and with the input that breaks them:

- The stored pending model lists go stale for upstream names that contain a comma or that, as ignore
  entries, do not match exactly themselves (`UpstreamModels.IncrementalIffPlain`); automatic adding goes
  stale for the first reason only (`UpstreamModels.CheckSyncsIff`), and applying everything can leave
  something to detect (`UpstreamModels.ApplyEverythingIff`, `UpstreamModels.HiddenNameComesBack`).
- The sweep of the rate limiter is visible for durations more than a second above the expiration
  (`RateLimiter.SweptTooEarly`), and a limit of zero admits a request (`RateLimiter.ZeroLimitAdmits`);
  otherwise the limiter counts exactly (`RateLimiter.SweepInvisibleIff`).
- A difference that is null or the text "same" can go unreported (`RatioDifferences.ReportIff`,
  `RatioDifferences.NullGoesUnreported`, `RatioDifferences.SameGoesUnreported`).
- Deleting all auto-disabled keys when every key is one brings them all back enabled
  (`MultiKeys.AllDisabledComeBack`), and deletions that leave blank outer keys, multi-line keys or
  array-like text lose alignment (`MultiKeys.DeletionIff`, `MultiKeys.ConsistentAfterIff`,
  `MultiKeys.BlankKeyLost`, `MultiKeys.MultiLineKeySplits`, `MultiKeys.ArrayKeyExpands`); automatic re-enabling leaves a stale disable time and reason
  (`MultiKeys.CleanIff`, `MultiKeys.ManualDisableShowsOldReason`). The comment in the bulk deletion
  (controller/channel.go:1848) promises that exactly the auto-disabled keys go; the model follows the code.
- A body limit of the largest 64-bit number stores an empty body (`BodyStorage.CreateKeepsIff`,
  `BodyStorage.LargestLimitStoresNothing`), and a zero-length read at the end tells memory and disk
  storages apart (`BodyStorage.KindsAgreeIff`, `BodyStorage.DrainedBodyTells`).
- The keyset scan does not end with a whole batch of non-positive enabled ids (`ChannelScan.ScanStuck`).
- Page sizes near the largest 64-bit number overflow the page count (`KeyPaging.PageIff`); the handler
  then answers an empty page or panics (`KeyPaging.MiscountedPage`, `KeyPaging.LargestPagePanics`).
- With epsilon comparison the cheapest price may depend on the visiting order (`ModelsDev.EpsilonCycle`,
  `ModelsDev.OrderIndependentIff`).
- Sixteen-digit division credits too much for 2 * 10^16 or more quota per unit
  (`TopUpAmounts.NeverExceedsIff`, `TopUpAmounts.CreditExceeds`), and a fractional quota per unit makes
  the accepted minimum worth less than itself when it is not a whole number of units up to the sixteenth
  digit (`TopUpAmounts.MinimumCreditedIff`, `TopUpAmounts.FractionalMinimumLost`).
- The order lock lives in one process. Several processes on one database keep an order credited at most
  once exactly when no two of them may run handlers of which one overtakes the other
  (`ClusterConflicts.CreditedOnceIff`): in particular when one process handles the order
  (`ClusterRuns.OneProcessCreditsOnce`) or only transactions do (`ClusterRuns.TransactionsCreditOnce`).
  Otherwise it can be credited twice (`ClusterConflicts.TwoProcessesCreditTwice`,
  `ClusterConflicts.AdminBetweenCreditsTwice`) or credited and stored as failed
  (`ClusterConflicts.FulfilBetweenStoredFailed`).

## Model

| member | source | states |
|---|---|---|
| OrderLockSafety.ApplyKeepsLockInv | controller/topup.go:279-308 | every kind of atomic step, by any thread on any trade number, keeps the lock invariant: createLock has one owner, counts equal users, holders equal threads inside, table entries point at live mutexes, idle entries are only those about to be counted or deleted |
| OrderLockSafety.RunKeepsLockInv | controller/topup.go:279-308 | the lock invariant holds in every state of every run |
| OrderLockSafety.MutualExclusion | controller/topup.go:279-308 | in every run, two threads between LockOrder and UnlockOrder for one trade number are the same thread |
| OrderLockSafety.UnlockFindsOwnMutex | controller/topup.go:294-308 | in every run, a thread that reaches UnlockOrder finds in the table the mutex it holds, although it loads without createLock |
| OrderLockSafety.EntryExactlyWhileUsed | controller/topup.go:279-308 | while createLock is free, an entry exists if and only if some thread is between the two counter changes for that trade number, and refCount is the number of those threads |
| OrderLockSafety.QuiescentTableEmpty | controller/topup.go:294-308 | once all threads are done the table is empty and createLock is free |
| OrderLockSafety.NoDeadlock | controller/topup.go:279-308 | in every run, while a thread is unfinished some thread has an enabled step |
| RunsEnd.StepsBounded | controller/topup.go:279-308 | every run takes at most fifteen steps per handler it starts, so it ends once no more are started |
| RunsEnd.StuckIsDone | controller/topup.go:294-308 | where no thread can step, every thread is done, the lock table is empty and createLock is free |
| PaymentSafety.ApplyKeepsPayInv | controller/topup.go:373-408 | every atomic step, with or without a failed read, write, credit or transaction, keeps credits sound, local copies current, successful orders accounted for and balances exact |
| PaymentSafety.CreditedAtMostOnce | controller/topup.go:373-408 | in every run no two credits are for one order, each credit is the due of a successful order to its user, and every balance is its start plus the credits of its user |
| PaymentSafety.NoCreditForgotten | controller/topup.go:390-405 | when all threads are done, the successful orders are exactly the credited ones and the ones whose credit failed, never both |
| PaymentSafety.OnlyPendingOrdersChange | controller/topup_stripe.go:222-256 | any change of a stored order in a run is one handler settling a pending order of its own provider to that handler's outcome, with the pay method of a notification or the completion time of a transaction and no other column |
| PaymentSafety.SettledForever | model/topup.go:82-160 | an order that is not pending never changes again in the rest of the run, whatever webhooks, expiries and admin completions follow |
| UncontendedRun.UncontendedNotifyCredits | controller/topup.go:373-408 | a notification for a pending Epay order that meets nobody runs to the end in fifteen steps, credits exactly the due and removes its lock entry |
| ClusterRuns.TransactionsCreditOnce | model/topup.go:109-160 | on any number of processes sharing the database, an order handled only by transactions is credited at most once and only once it is successful, with no lock to rely on |
| ClusterRuns.NoClashCreditsOnce | controller/topup.go:279-308 | on any number of processes, each with its own lock table, whose allowed handlers of an order do not clash, every state of every run keeps the order credited at most once and only once it is successful: locks are sound per process, and a handler between its read and its write holds an order without credits |
| ClusterRuns.OneProcessCreditsOnce | controller/topup.go:279-308 | so it is when all handlers of the order are started in one process, whatever the other processes do with other orders |
| ClusterConflicts.CreditedOnceIff | controller/topup.go:268-308 | for any set of handlers allowed per process, every cluster run credits the order at most once and only once it is successful if and only if no two different processes may run a notification with a notification or an admin completion, or a failed Stripe payment with a fulfilment or an admin completion |
| ClusterConflicts.OvertakenRun | controller/topup.go:373-408 | for every such pair and every order it can complete, a run in which the second handler completes the order between the read and the write of the first: two credits, or one credit on an order stored as failed |
| ClusterConflicts.TwoProcessesCreditTwice | controller/topup.go:373-408 | for every pending Epay order with a non-negative amount, a run of two processes that both receive its notification and credit it twice |
| ClusterConflicts.AdminBetweenCreditsTwice | model/topup.go:320-391 | an admin completion in another process, between the read and the write of a notification, credits the order a second time |
| ClusterConflicts.FulfilBetweenStoredFailed | controller/topup_stripe.go:222-290 | a fulfilment in another process, between the read and the write of the handler for a failed payment, leaves the order credited and stored as failed |
| ModelNames.NormalizeMembers | controller/channel_upstream_update.go:93-98 | a name is in the normalized list if and only if it is the non-empty trimming of a given name |
| ModelNames.NormalizeFixes | controller/channel_upstream_update.go:93-98 | normalizing a trimmed, blank-free, repetition-free list changes nothing, so normalizing twice is normalizing once |
| ModelNames.MergeNormalized | controller/channel_upstream_update.go:100-114 | a merge is repetition-free and holds exactly the names of both lists |
| ModelNames.MergeModelNames | controller/channel_upstream_update.go:100-114 | the loop with its seen-set returns the base followed by the appended names it lacks, in order |
| ModelNames.SubtractModelNames | controller/channel_upstream_update.go:116-125 | the loop builds the set of removed names, and the result is the base without them, in order |
| ModelNames.IntersectModelNames | controller/channel_upstream_update.go:127-136 | the loop builds the set of allowed names, and the result is the base names in it, in order |
| ModelNames.ApplySelectedIs | controller/channel_upstream_update.go:138-143 | the applied list is the old names in order, without the removed ones that are not also added, followed by the new added names in order |
| UpstreamModels.ColumnRoundTrip | model/channel.go:289-294 | a normalized list without commas is read back unchanged from the comma-separated models column |
| UpstreamModels.CheckSyncsIff | controller/channel_upstream_update.go:356-403 | after a check the stored pending lists equal a fresh detection if and only if automatic adding is off or no detected name has a comma |
| UpstreamModels.ApplyKeepsSynced | controller/channel_upstream_update.go:802-850 | on plain upstream names, an apply with any selection turns lists that equal a fresh detection into lists that equal the next fresh detection, as sequences |
| UpstreamModels.RunKeepsSynced | controller/channel_upstream_update.go:802-850 | the same over every run of checks and applies, failed saves included |
| UpstreamModels.IncrementalIffPlain | controller/channel_upstream_update.go:172-231 | the stored lists equal a fresh detection after every run from every channel if and only if each offered name has no comma and, used as an ignore entry, ignores itself and no other offered name |
| UpstreamModels.NotPlainGoesStale | controller/channel_upstream_update.go:802-850 | for every upstream with another kind of name, a channel and one selection after which the stored lists are stale |
| UpstreamModels.ApplyEverythingIff | controller/channel_upstream_update.go:869-931 | applying everything pending empties both lists, and a fresh detection then finds nothing if and only if no pending name has a comma and every name an ignore entry hides keeps an entry that is not being added |
| UpstreamModels.HiddenNameComesBack | controller/channel_upstream_update.go:802-850 | an upstream that offers the text of an ignore entry: adding that name drops the entry, and the name it hid is pending again |
| UpstreamChannel.CollectPending | controller/channel_upstream_update.go:172-231 | the two loops with their sets collect exactly the detected additions and removals, in order |
| UpstreamChannel.ChannelRecord.CheckAndPersist | controller/channel_upstream_update.go:356-403 | updates the record in place to the checked channel and reports how many names were added |
| UpstreamChannel.ChannelRecord.ApplySelection | controller/channel_upstream_update.go:802-850 | updates the record in place to the applied channel and returns the names actually added and removed |
| UpstreamChannel.ChannelRecord.ApplyAll | controller/channel_upstream_update.go:869-931 | empties both pending lists in place; they equal a fresh detection under exactly that condition |
| ChannelScan.NextBatch | controller/channel_upstream_update.go:856-867 | the batch fetched after the first n enabled ids is the next stretch of the enabled ids |
| ChannelScan.ScanEnabled | controller/channel_upstream_update.go:556-644 | the batched loop ends and visits exactly the enabled ids in id order, each once, exact multiples of the batch size included, when fewer than a batch of enabled ids are non-positive |
| ChannelScan.ScanStuck | controller/channel_upstream_update.go:856-867 | with a whole batch of non-positive enabled ids the scan fetches the same full batch again and again, so that condition is exact |
| RateLimiter.SweepInvisibleIff | common/rate-limit.go:28-70 | under a clock that never goes back, the bounded queues with the sweep answer every run like a limiter that counts all acceptances younger than the duration against the limit, if and only if every limit is at least one and no duration exceeds the expiration by more than a second or the sweep never runs |
| RateLimiter.ZeroLimitAdmits | common/rate-limit.go:45-70 | a limit of zero admits the first request for a key, at any time, where the counting limiter refuses it |
| RateLimiter.SweptTooEarly | common/rate-limit.go:28-42 | for every positive limit and longer duration, a run on which the sweep changes an answer |
| RateLimiter.RunsAgree | common/rate-limit.go:45-70 | under that condition, equal answers on every run, with the queue of each key being the tail of its full history |
| RateLimiter.WindowBound | common/rate-limit.go:45-70 | acceptances maxRequestNum apart are at least the duration apart, so no window of the duration holds more of them; for a limit of zero, acceptances one apart |
| RateLimiter.InMemoryRateLimiter.Ask | common/rate-limit.go:45-70 | updates the store in place as one request does and returns its answer; no empty queue is ever stored |
| RateLimiter.InMemoryRateLimiter.ClearExpiredItems | common/rate-limit.go:28-42 | the deletion loop, in any key order, leaves exactly the keys that are not expired |
| VerificationCodes.VerifyIsLatest | common/verification.go:35-72 | a code verifies if and only if the latest undeleted registration for that key and purpose is younger than the validity and has that code, whatever was purged |
| VerificationCodes.SlotsDistinct | common/verification.go:16-45 | different purposes or keys never share a map slot |
| VerificationCodes.CodeStore.RegisterCode | common/verification.go:35-45 | stores the entry and purges expired ones once the map is full |
| VerificationCodes.CodeStore.VerifyCode | common/verification.go:47-56 | answers from the map as the specification does and leaves it unchanged |
| VerificationCodes.CodeStore.DeleteKey | common/verification.go:58-62 | forgets the entry of that key and purpose only |
| VerificationCodes.CodeStore.RemoveExpiredPairs | common/verification.go:65-72 | the purge loop, in any order, removes exactly the expired entries |
| RatioDifferences.ReportHolds | controller/ratio_sync.go:536-696 | a pair is in the report if and only if it is included and some listed channel shows a change there; its upstream and confidence maps both have exactly the listed channels as keys |
| RatioDifferences.ListedIff | controller/ratio_sync.go:656-665 | a channel is listed if and only if it has a real difference in some included pair |
| RatioDifferences.NothingLost | controller/ratio_sync.go:656-694 | every real difference of an included pair survives pruning with its value |
| RatioDifferences.ListedHasDifference | controller/ratio_sync.go:656-694 | every listed channel has a real difference in the pruned report itself |
| RatioDifferences.ReportSound | controller/ratio_sync.go:593-653 | a reported pair always has a channel whose value differs from the local one |
| RatioDifferences.ReportIff | controller/ratio_sync.go:593-694 | a pair on which some channel differs is reported if and only if a differing value is neither null nor "same", or a listed channel is blank beside a local value |
| RatioDifferences.ActualValuesReported | controller/ratio_sync.go:536-696 | with distinct names and values that are neither null nor "same", the report holds exactly the pairs on which some channel differs from local |
| RatioDifferences.NullGoesUnreported | controller/ratio_sync.go:605-665 | a single channel whose value is null beside any local value differs from it and is not reported |
| RatioDifferences.SameGoesUnreported | controller/ratio_sync.go:605-665 | a single channel whose value is the text "same" beside any other local value differs from it and is not reported |
| DifferenceBuilder.CompareAll | controller/ratio_sync.go:600-631 | the channel loop fills the shown values, the last of channels sharing a name winning, and both flags |
| DifferenceBuilder.Confidence | controller/ratio_sync.go:561-591 | a model is untrusted exactly when ratio 37.5 and completion ratio 1 are both present within the epsilon, whichever branch is taken |
| DifferenceBuilder.Prune | controller/ratio_sync.go:667-694 | the nested deletion loops, in any order, leave exactly the pruned report with no empty rows |
| DifferenceBuilder.BuildDifferences | controller/ratio_sync.go:536-696 | all passes together, over maps in any order, build exactly the declarative report |
| ModelsDev.OrderIndependentIff | controller/ratio_sync.go:881-893 | every visiting order picks the same candidate if and only if that candidate wins each direct comparison |
| ModelsDev.SeparatedHasWinner | controller/ratio_sync.go:881-893 | prices that are equal or an epsilon apart always have such a winner |
| ModelsDev.SeparatedChoice | controller/ratio_sync.go:881-893 | so every order picks the same candidate, at the lowest non-zero price if there is one |
| ModelsDev.EpsilonCycle | controller/ratio_sync.go:881-893 | three prices whose comparisons form a circle, so the choice depends on the order |
| ModelsDev.SelectedPrice | controller/ratio_sync.go:881-893 | in provider order, for all prices, the selected price is less than an epsilon above the cheapest non-zero price and is zero only if all are |
| ModelsDev.SelectAll | controller/ratio_sync.go:906-948 | the sorted-provider loops keep for each model the fold over its valid offers, and report an empty or useless response as an error |
| ModelsDev.ChosenPrice | controller/ratio_sync.go:906-944 | the kept price of a model, against each of its valid non-zero offers |
| MultiKeys.StorableIff | model/channel.go:175-197 | a key list is read back from its newline-joined text if and only if it is empty, or no key spans lines, the outer keys are not blank and the text is not itself an array |
| MultiKeys.SavedSizeIff | model/channel.go:526-563 | after a save the size counts the listed keys if and only if the text is not an empty array, and no status is at or past the size |
| MultiKeys.KeptView | controller/channel.go:1770-1800 | the reindexing of both deletions leaves exactly the surviving entries in order, each with its own status, time and reason |
| MultiKeys.ActRefines | controller/channel.go:1595-1898 | every action and status report on the text, the three index maps and the channel status does to the list of (key, status, time, reason) entries and to the channel status what it is meant to, and keeps all indexes below the key count, as long as a deletion leaves a storable key |
| MultiKeys.RunRefines | controller/channel.go:1595-1898 | the same for whole runs of actions and automatic status reports |
| MultiKeys.RefusedIff | controller/channel.go:1751-1870 | deleting one key is refused exactly for a bad index or the last key, bulk deletion exactly when no key is auto-disabled |
| MultiKeys.DeletionIff | controller/channel.go:1751-1898 | a deletion that reports success leaves exactly the surviving entries if and only if some key is left and the keys left can be stored |
| MultiKeys.BlankKeyLost | controller/channel.go:1751-1829 | deleting the last of three keys whose middle one is blank loses the blank one as well |
| MultiKeys.MultiLineKeySplits | controller/channel.go:1751-1829 | deleting one of two keys, when the other spans lines, leaves two keys or more |
| MultiKeys.ArrayKeyExpands | controller/channel.go:1751-1829 | deleting one of two keys, when the other is the text of an array, leaves the members of the array as keys |
| MultiKeys.ConsistentAfterIff | model/channel.go:526-563 | after a deletion that reports success the size counts the keys and all recorded positions are below it, if and only if the stored text is not an empty array and no surviving entry at or past its key count has a time or a reason |
| MultiKeys.AllDisabledComeBack | model/channel.go:526-573 | when every key is auto-disabled, bulk deletion reports success, deletes none and enables all of them, because an empty key text is not saved |
| MultiKeys.CleanIff | controller/channel.go:1595-1898 | enabled keys stay free of disable time and reason under every action except exactly the automatic re-enabling, in a channel that is not enabled, of a key that has one recorded |
| MultiKeys.ManualDisableShowsOldReason | model/channel.go:641-691 | a run after which a key disabled by hand shows the time and reason of an earlier automatic disable |
| MultiKeys.ReportRefines | model/channel.go:641-691 | an automatic report changes the entry of the first key with that text and no other |
| MultiKeys.ReportStatus | model/channel.go:641-691 | the channel status a report leaves is auto-disabled exactly when no key is enabled any more, and follows a re-enabling report otherwise |
| MultiKeyChannel.DropFrom | model/channel.go:556-563 | the clean-up loop, in any order, drops exactly the statuses at or past the key count |
| MultiKeyChannel.HasEnabledKey | model/channel.go:693-704 | finds an enabled key if and only if there is one |
| MultiKeyChannel.StoredChannel.Update | model/channel.go:526-573 | recounts the keys, drops statuses past the end, and leaves the stored text when the given one is empty |
| MultiKeyChannel.StoredChannel.DisableKey | controller/channel.go:1595-1636 | carries out the action, or changes nothing on a bad index or a failed save |
| MultiKeyChannel.StoredChannel.EnableKey | controller/channel.go:1638-1678 | the key loses its status, time and reason, or nothing changes on a bad index or a failed save |
| MultiKeyChannel.StoredChannel.EnableAllKeys | controller/channel.go:1680-1702 | all three maps are emptied |
| MultiKeyChannel.StoredChannel.DisableAllKeys | controller/channel.go:1704-1749 | the loop disables exactly the enabled keys, and fails when there is none |
| MultiKeyChannel.StoredChannel.DeleteKey | controller/channel.go:1751-1829 | rebuilds text and maps without the key, or changes nothing |
| MultiKeyChannel.StoredChannel.DeleteDisabledKeys | controller/channel.go:1831-1898 | rebuilds text and maps without the auto-disabled keys and counts them, or changes nothing |
| MultiKeyChannel.StoredChannel.ReportKey | model/channel.go:641-691 | records a report about a used key and settles the channel status |
| MultiKeyChannel.StoredChannel.UpdateStatus | model/channel.go:746-778 | a report reaches the stored channel unless that has the reported status already or the save fails |
| KeyPaging.PagesJoin | controller/channel.go:1555-1577 | the pages, one after another, are the filtered list |
| KeyPaging.PageIff | controller/channel.go:1485-1577 | every request is answered with the intended page, out-of-range pages clamped, if and only if the 64-bit page count does not overflow or overflows back to one page |
| KeyPaging.MiscountedPage | controller/channel.go:1555-1577 | otherwise the page count comes out as -1, and the handler panics when twice the page size is 2^64 + 1 less the number of keys and answers an empty page in all other cases |
| KeyPaging.LargestPagePanics | controller/channel.go:1555-1577 | three keys and a page size of 2^63 - 1 make the handler panic on any page |
| KeyPaging.CountsSum | controller/channel.go:1511-1519 | the three counters add up to the number of keys if and only if every status is 1, 2 or 3 |
| KeyPaging.MatchingMembers | controller/channel.go:1545-1553 | a filtered listing holds exactly the keys of that status, in key order |
| KeyPaging.GetKeyStatus | controller/channel.go:1481-1593 | the loops compute the page of the filtered statuses and the counters over all keys |
| OggPages.ScannerFindsPages | common/audio.go:203-249 | for every file of well-formed pages with junk anywhere, the scanner stops at exactly the page starts if and only if no readable header starts inside the junk, and then returns the largest of zero and the granule positions |
| OggPages.LargestIsLargest | common/audio.go:203-249 | that value bounds every granule position and is one of them or zero |
| OggPages.LittleEndianRoundTrip | common/audio.go:228-231 | a number written in eight little-endian bytes is read back |
| OggPages.GetOpusDuration | common/audio.go:196-254 | ends on every input and returns the maximum over the visited pages, and its 48 kHz duration |
| OggPages.ReadPageHeader | common/audio.go:203-247 | one iteration finds what stands at a position: too few bytes, no page, a cut-off page, or a page and the next position |
| BodyStorage.KindsAgreeIff | common/body_storage.go:37-238 | memory and disk storages of equal content answer a sequence of calls identically if and only if none of its reads is of zero bytes at the end or of more than one system call returns |
| BodyStorage.DrainedBodyTells | common/body_storage.go:37-238 | after reading a body to its end, a read of no bytes reports the end from memory and not from disk |
| BodyStorage.BytesAlways | common/body_storage.go:74-89 | after any calls Bytes returns the whole body and leaves the cursor, until Close |
| BodyStorage.ReadsGather | common/body_storage.go:47-54 | consecutive reads return the body from the cursor on, without gaps or repetition |
| BodyStorage.CreateKeepsIff | common/body_storage.go:241-303 | without I/O failures a creation keeps the exact stream, counted once, or refuses it with nothing changed, on either path, if and only if maxBytes is below the largest 64-bit number or the stream is empty |
| BodyStorage.LargestLimitStoresNothing | common/body_storage.go:262-303 | with that limit every non-empty stream is stored as an empty body |
| BodyStorage.RunConserves | common/disk_cache_config.go:108-134 | over every run of creations, calls and repeated closes the counters equal the number and total size of the open storages of each kind |
| BodyStorageObjects.Stats.DecrementDiskFiles | common/disk_cache_config.go:114-121 | subtracts and clamps both disk counters at zero |
| BodyStorageObjects.MemoryStorage.Read | common/body_storage.go:47-54 | reads at the cursor and advances it, or reports the end or a closed storage |
| BodyStorageObjects.MemoryStorage.Seek | common/body_storage.go:56-63 | moves the cursor, or leaves it on a bad origin, a negative target or 64-bit overflow |
| BodyStorageObjects.MemoryStorage.Close | common/body_storage.go:65-72 | closes and releases the counters once |
| BodyStorageObjects.DiskStorage.Read | common/body_storage.go:169-176 | reads the file at the cursor |
| BodyStorageObjects.DiskStorage.Seek | common/body_storage.go:178-185 | moves the file cursor or leaves it |
| BodyStorageObjects.DiskStorage.Bytes | common/body_storage.go:198-230 | reads the whole file in a loop and puts the cursor back |
| BodyStorageObjects.DiskStorage.Close | common/body_storage.go:187-196 | closes and releases the counters once |
| BodyStorageObjects.CreateBodyStorage | common/body_storage.go:241-259 | chooses disk or memory and counts the new storage |
| BodyStorageObjects.CreateBodyStorageFromReader | common/body_storage.go:262-303 | creates as specified on all paths, counters included |
| SecureSession.RequireIff | controller/passkey.go:569-586 | in every run, a requirement of method m passes if and only if the last passkey ceremony or successful verification is a verification by m less than 300 seconds old |
| SecureSession.RequireSound | controller/passkey.go:569-586 | without any assumption on the clock, a passed requirement rests on such a verification with no ceremony since |
| SecureSession.GateIff | middleware/secure_verification.go:22-84 | the middleware passes if and only if such a verification by any method is in force |
| SecureSession.PasskeyIff | controller/secure_verification.go:157-179 | a passkey verification succeeds if and only if a ceremony's marker is unused and younger than 60 seconds and the session can be saved |
| SecureSession.OneCeremonyEach | controller/secure_verification.go:157-179 | each successful passkey verification lies after its own ceremony and before that of the next one |
| SecureSession.SessionStore.FinishPasskey | controller/passkey.go:495-503 | sets the marker and drops any verification |
| SecureSession.SessionStore.SetVerified | controller/secure_verification.go:145-155 | records time and method and drops the marker |
| SecureSession.SessionStore.ConsumeReady | controller/secure_verification.go:157-179 | removes the marker and says whether it was young enough |
| SecureSession.SessionStore.UniversalVerify | controller/secure_verification.go:40-143 | the method switch, for either method |
| SecureSession.SessionStore.RequireMethod | controller/passkey.go:569-586 | answers the requirement and clears a stale verification |
| SecureSession.SessionStore.PassGate | middleware/secure_verification.go:22-84 | answers the middleware and clears a stale verification |
| QuotaMath.Monotone | common/quota_math.go:72-148 | every conversion is monotone over finite and infinite values and stays within 32 bits |
| QuotaMath.SignKept | common/quota_math.go:72-148 | no conversion turns a non-negative value negative or the reverse |
| QuotaMath.StrictIff | common/quota_math.go:88-134 | a strict conversion succeeds if and only if the value is finite and strictly between the bounds (half a unit inwards when rounding), and is then the neighbouring quota |
| TopUpAmounts.UnitsOf | controller/topup.go:242-247 | the 16-digit decimal quotient truncated is the true quotient, or one more when its fraction is within half a digit of one |
| TopUpAmounts.CreditBounds | controller/topup.go:398-400 | for any quota per unit below 2 * 10^16, whole or fractional, a token request is credited at most what was requested and short by less than one unit and the fraction lost |
| TopUpAmounts.WholeShortfall | controller/topup.go:398-400 | for a whole quota per unit the shortfall is less than one unit |
| TopUpAmounts.CreditedInFullIff | controller/topup.go:242-247 | a request is credited in full if and only if its quotient by quota per unit is whole or within half of 10^-16 below a whole number |
| TopUpAmounts.MinimumCreditedIff | controller/topup.go:179-187 | every accepted request is credited at least the minimum M = floor(m * q) if and only if M / q is whole or within half of 10^-16 below a whole number |
| TopUpAmounts.WholeMinimumCredited | controller/topup.go:179-187 | so it is when the minimum is a whole number of tokens |
| TopUpAmounts.FractionalMinimumLost | controller/topup.go:179-187 | a minimum of one unit of 1.5 tokens accepts a request that is credited nothing |
| TopUpAmounts.NeverExceedsIff | controller/topup.go:242-247 | no 64-bit request is credited more than it asked for if and only if quota per unit is below 2 * 10^16 |
| TopUpAmounts.CreditExceeds | controller/topup.go:398-400 | at or above that, a request of one token less than a unit is credited the whole unit |

## Left out

- HTTP handlers, JSON binding, signature checks, OAuth, WebAuthn, TOTP, SMTP, Redis, relay, network fetches and caches: input, output and library wrappers.
- Payment providers other than Epay and Stripe, subscriptions, billing sessions, tasks, refunds and quota spending: their writers are not in the transition system, so balances move only by top-up credits.
- OrderLockSafety.NoDeadlock: says that some thread can step; with RunsEnd every run ends, but which waiting thread is served first is not modelled.
- PaymentSafety.CreditedAtMostOnce: for one process, with ClusterConflicts for several; amounts are unbounded integers, so overflow of the 32-bit quota column is not modelled; QuotaPerUnit is constant during a run.
- Top-up logs, mailing, cache invalidation and the batch-update queue of quota increases.
- The relay's use of GetNextEnabledKey and the polling index of multi-key channels.
- Concurrent multi-key requests: the channel is read before the polling lock is taken, so the actions are modelled one after another.
- MultiKeyChannel.StoredChannel.Update: a failed save is modelled as changing nothing in the database; abilities and the in-memory channel cache are not modelled.
- MultiKeyChannel.StoredChannel.ReportKey: the status_reason and status_time that a report about an unknown key or the last enabled key writes to the other info of the channel are not modelled.
- MultiKeyChannel.StoredChannel.UpdateStatus: the update of the cached channel before the stored one, and of the abilities after it, are not modelled.
- MultiKeys.ActRefines: for channels that count the keys they list, which leaves out key text that is an empty array (`MultiKeys.SavedSizeIff`).
- KeyPaging.PageIff: for lists shorter than 2^62 keys, which memory bounds anyway.
- RateLimiter.SweepInvisibleIff: each key is asked with one limit and duration throughout; a negative limit makes the code panic and is not modelled.
- CleanupOldDiskCacheFiles, which decrements counters for files whose Close decrements them again, and the overflow of the byte counters.
- BodyStorage.KindsAgreeIff: seeks with the origin values that only Linux files know, seeks beyond the file system's largest offset, and I/O errors on an open file are not modelled.
- OggPages.GetOpusDuration: on readers that return all 27 bytes of a header when they have them; a shorter read ends the scan early, and read or seek errors are not modelled. Pre-skip and end trimming are not subtracted by the code, and the model claims only the largest granule position.
- SecureSession.RequireIff: from an empty session, each saved request replacing the one record, under a clock that does not go back; a method key of another type reads as missing.
- RatioDifferences.ReportHolds: NaN values and values of uncomparable types, on which the code panics, are not modelled; ratios are exact reals, so float rounding is not modelled.
- ModelsDev.SelectAll: rounding of the derived ratios and the written ratio maps are not modelled.
- QuotaMath.Monotone: the rounding of huge decimals to floats is not modelled; it happens only beyond the clamp bounds.
- TopUpAmounts.NeverExceedsIff: for quota per unit and minimum within 64 bits, beyond which the decimal library leaves the integer part undefined; a float64 of 2 * 10^16 or more is a whole number.
