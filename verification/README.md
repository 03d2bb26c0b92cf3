# Verification models for orchion

These Dafny modules model the stateful cores of orchion's download cache, its llama.cpp serving
layer and its voice-activity detection, and prove what each is for over all inputs and all runs.

| module | models |
|---|---|
| `CachePublication`, `CleanupOrder`, `MarkerRead`, `LockHistory` | the journalled publication of staged files into the model cache, its recovery, the deletion of its journal, and the model lock |
| `StopSearch`, `StopFilters` | the streaming stop-string filter, for text and for tokens with log probabilities |
| `BatchPlanning`, `BatchContents` | the decode-first batch planner with a rotating prefill cursor |
| `VadModel`, `VadConservation`, `VadBounds`, `VadDecisions`, `VadLongFrame`, `VadEndpoint`, `VadSession` | the streaming speech endpoint |
| `SemanticStream`, `MediaSentinels` | semantic deltas of a chat reply, and image sentinels in a prompt |
| `PrefixCaching` | the prompt-prefix cache |
| `ProviderSelection` | the choice of one provider for a deployment |
| `SpeechSegments` | batch segmentation of speech flags |
| `StrictSchema` | the strict JSON schema subset |
| `Wrappers`, `Collections`, `Arithmetic` | what these share |

Objects whose methods update them are classes; each method is tied to a function of the old state
or to the property it promises, and the run-level results are lemmas about those functions.

## How the cache is modelled

A disk is the live files and at most one transaction: manifest, commit marker, backups.  Each disk
operation draws an outcome: it works, it is refused, it takes effect and still reports an error (a
directory sync), or the power fails.  These outcomes, and whether a marker can be read, are fixed
before a call; the contracts name them, and say what is certain when none fails.  `Recovered` is the cache a completed recovery would leave.
Every call that reads its commit markers, however it ends, is a `Next` step, and a run is any sequence
of such steps.  A recovery that fails to read a marker goes on as if there were none; the ghost results
`misread`, `first` and `last` say so, and the contracts then speak of the disk without its marker.

## What the proofs turned up

- An error from a publication means "all old or all new" as long as commit markers can be read, not
  "all old": the sync after the commit
  marker can fail, and recovery then keeps the new state (`libs/orchion-download/src/lib.rs:4480`).
- Deleting a committed transaction directory is not atomic.  If the commit marker goes before the
  manifest and the deletion stops there, the next recovery undoes a publication that was reported
  as done, in whole or in part.  `CommittedCleanupExact` gives the exact condition on the order,
  `MarkerFirstLosesPublication` the witness.  `Next` for a committed transaction therefore assumes
  `manifestFirst`; without it, `Recover`, `Publish` and `PublishLlm` still state the live files and
  what remains of the directory (`Outcome`), and `RemnantExact` says what that remnant stands for.
- A commit marker that exists but cannot be read counts as missing (`libs/orchion-download/src/lib.rs:4527-4529`),
  so one refused read undoes a reported publication whose cleanup was deferred
  (`MisreadLosesPublication`).  `MisreadExact` and `MisreadOfPublication` say exactly when the cache
  survives.  If such a rollback is itself interrupted and the marker is readable the next time, the half
  rolled back files stay; `InterruptedMisreadExact` says when no interruption does harm.
- The lock merge does not always see the committed lock.  Provisioning recovers the cache, but gives
  up the publication lock before it publishes.  The publication then reads the live lock before
  its own recovery runs.  If another process died in mid-publication in between, or a rollback
  failed, the lock may be moved away or not yet rolled back.  "No update is lost" is false then
  (`DisplacedLockLosesUpdates`).  `DisplacedLockExact` gives the exact condition for one merge, and
  `LockHistoryExact` the history of a cache whose merges find the lock in place.  A lock that cannot
  be looked up is taken for a missing one (line 4275); `BlindMergeExact` says when that does no harm.
- That stop strings do not contain each other is sufficient for the visible text not to depend on
  how it is split, but not necessary.  `PrefixCovered` is the exact condition.
- When the detector fails, the events of earlier frames of the same push are lost although their
  audio has been consumed.  `ChunkingIndependent` states the outcome of that case too.
- Numeric limits of a schema are compared after rounding to double precision, so some integer limits in
  the wrong order are accepted (`RoundingHidesDisorder`): none up to 2^53 in magnitude, but some just
  above (`RoundingThreshold`).
- Padded batch segments can overlap, and do with the default configuration when a gap lasts 18 or 19
  frames (`DefaultOverlaps`, `TwoRunsOverlap`).  They never do exactly when twice the padding is at
  most the minimum silence or one frame more than the merge gap, whichever is longer, all in frames
  (`DisjointExact`).
- The batch planner subtracts the decode count from the capacity, so capacity 0 with a decoding slot
  has no meaning; `PlanBatch` excludes just that.

## Model

| member | source | states |
|---|---|---|
| `CachePublication.CacheDisk.Publish` | libs/orchion-download/src/lib.rs:4375-4506 | Whatever is refused, fails late or is cut off by a power loss, a recovery that reads the marker finds either the cache as it was (marker not in place) or exactly the staged publication (marker in place), unlisted paths untouched; success implies the marker, and is certain when no operation fails and every path is staged; an error may come with either state; only a marker whose read fails is misread, and then the cache is rolled back to what it was before that transaction; in any deletion order the live files of a committed transaction stay, with a remnant of its directory |
| `CachePublication.CacheDisk.Transact` | libs/orchion-download/src/lib.rs:4386-4505 | The publication proper: before the marker a recovery gives the old cache, after it the new one, and a misread marker after a late failure means all old again |
| `CachePublication.CacheDisk.Begin` | libs/orchion-download/src/lib.rs:4386-4424 | Until the manifest is in place nothing has changed, and then it lists the paths as they are |
| `CachePublication.CacheDisk.MoveAndCommit` | libs/orchion-download/src/lib.rs:4426-4482 | The marker is in place exactly when everything has been moved, and without it the old cache can be had back |
| `CachePublication.CacheDisk.Recover` | libs/orchion-download/src/lib.rs:4512-4624 | Completing leaves the cache the disk stands for and no transaction, and is certain when no operation fails; interrupted at any operation, any number of times, it never changes what the disk stands for; a committed transaction whose marker can be read keeps its live files, and may be deferred; a marker counts as missing exactly when its read fails, and then all this holds of the disk without it |
| `CachePublication.CacheDisk.Rollback` | libs/orchion-download/src/lib.rs:4574-4619 | The restartable walk over the manifest: it never changes what a rollback amounts to, touches nothing when there is nothing to undo, and once through it the live files are the old cache and no entry is left to undo |
| `CachePublication.CacheDisk.Undo` | libs/orchion-download/src/lib.rs:4596-4618 | Undoing one entry keeps the outcome of the rollback and every entry already undone, whatever operation fails |
| `CachePublication.CacheDisk.BackUpTargets` | libs/orchion-download/src/lib.rs:4427-4449 | At every stop each listed path is in exactly one place or moved aside, and nothing else has changed; afterwards no target is in the way |
| `CachePublication.CacheDisk.InstallStaged` | libs/orchion-download/src/lib.rs:4450-4471 | At every stop the old content of each listed path is still recoverable; afterwards live files are exactly the publication and every listed path was staged |
| `CachePublication.CacheDisk.RemoveTransaction` | libs/orchion-download/src/lib.rs:4496-4504 | Deleting the transaction directory in any order and stopping anywhere leaves a subset of its entries, unaltered |
| `CachePublication.CacheDisk.RemoveTarget` | libs/orchion-download/src/lib.rs:4783-4792 | Removing one cache entry affects no other path, even when it stops half way |
| `CachePublication.CacheDisk.RestoreBackup` | libs/orchion-download/src/lib.rs:4606-4610 | A backup moves to its target as one step: either both change or neither does |
| `CachePublication.ManifestFor` | libs/orchion-download/src/lib.rs:4401-4414 | The manifest lists exactly the published paths, each with whether it existed, so no path is listed both ways |
| `CachePublication.InFlightRecovers` | libs/orchion-download/src/lib.rs:4426-4482 | At every point of the two file-moving loops a recovery gives back the cache as it was |
| `CachePublication.DiscardKeepsMeaning` | libs/orchion-download/src/lib.rs:4596-4618 | Removing a target that rollback is about to replace or delete anyway changes nothing in the outcome |
| `CachePublication.RestoreKeepsMeaning` | libs/orchion-download/src/lib.rs:4596-4611 | Putting one backup back changes nothing in the outcome, so a rollback may be interrupted after it and restarted |
| `CachePublication.SettledMeansLive` | libs/orchion-download/src/lib.rs:4574-4621 | When every entry is undone, rolling back again gives the live files |
| `CachePublication.RemnantOfSettled` | libs/orchion-download/src/lib.rs:4621-4622 | After a full rollback any remnant of the transaction directory stands for the live files |
| `CachePublication.WithoutShrinks` | libs/orchion-download/src/lib.rs:4621 | Deleting one directory entry removes that name only and leaves a remnant of the transaction |
| `CleanupOrder.CommittedCleanupExact` | libs/orchion-download/src/lib.rs:4496-4504 | Deleting a committed transaction entry by entry is safe at every crash point if and only if the manifest goes before the commit marker, or every path existed before and each changed one loses its backup before the marker does |
| `CleanupOrder.RemnantExact` | libs/orchion-download/src/lib.rs:4519-4562 | What a crash leaves of any committed transaction stands for the same cache if and only if it still shows the marker, no longer shows the manifest, or would roll back to the same files |
| `CleanupOrder.CommittedRemnantExact` | libs/orchion-download/src/lib.rs:4519-4562 | The same for a given publication: the files it restores must be the very ones it published |
| `CleanupOrder.RollbackCleanupSafe` | libs/orchion-download/src/lib.rs:4620-4623 | After a rollback the directory may be deleted in any order |
| `CleanupOrder.RollbackIsIdentity` | libs/orchion-download/src/lib.rs:4574-4619 | A rollback changes nothing if and only if each backup equals its target and no created file is live |
| `CleanupOrder.MarkerFirstLosesPublication` | libs/orchion-download/src/lib.rs:4533-4562 | A concrete deletion order in which a reported publication is undone, and one in which it is left half undone |
| `CleanupOrder.AfterIs` | libs/orchion-download/src/lib.rs:4496-4504 | What any sequence of deletions leaves of a transaction directory |
| `LockHistory.SerialHistory` | libs/orchion-download/src/lib.rs:4375-4624 | Over any run of publications, crashes and recoveries each path holds what the last committed publication listing it staged, or what it held at the start |
| `MarkerRead.MisreadExact` | libs/orchion-download/src/lib.rs:4527-4545 | A recovery that cannot read the commit marker keeps the published cache if and only if no manifest is left or rolling back restores the same files |
| `MarkerRead.MisreadOfRemnant` | libs/orchion-download/src/lib.rs:4519-4562 | The same for whatever deferred cleanup has left of a publication |
| `MarkerRead.MisreadOfPublication` | libs/orchion-download/src/lib.rs:4519-4562 | With the whole directory in place it does so only when every path existed before and was published unchanged |
| `MarkerRead.InterruptedMisreadExact` | libs/orchion-download/src/lib.rs:4527-4619 | No interruption of such a recovery does harm, with the marker readable again, if and only if the rollback has nothing to undo |
| `MarkerRead.MisreadLosesPublication` | libs/orchion-download/src/lib.rs:4527-4545 | A reported publication that a refused read of the marker undoes |
| `MarkerRead.InterruptedMisreadLosesFile` | libs/orchion-download/src/lib.rs:4527-4619 | A file published over an equal one that such a recovery loses when it stops half way |
| `LockHistory.PublishLlm` | libs/orchion-download/src/lib.rs:4215-4302 | An unreadable lock stops the publication before anything moves; a committed one leaves the files of the model live as staged, the lock that was live at the time of the merge with this deployment added, and every other path alone; it is certain to succeed when no operation fails; a lock is merged as an absent one exactly when it cannot be looked up |
| `LockHistory.PublishedFiles` | libs/orchion-download/src/lib.rs:4229-4235 | The files of the model and the lock are published together, and nothing else |
| `LockHistory.StageLock` | libs/orchion-download/src/lib.rs:4274-4300 | What is staged is the merge of the lock that was found, or of an empty one if the lookup failed |
| `LockHistory.MergedLock` | libs/orchion-download/src/lib.rs:3414-3432 | The merged lock has the deployment with its entry and every other one as it was; only a lock that is no lock cannot be merged into |
| `LockHistory.WithLock` | libs/orchion-download/src/lib.rs:4229-4233 | The published paths are the given ones and the lock, none of them twice |
| `LockHistory.BlindMergeExact` | libs/orchion-download/src/lib.rs:4275-4282 | Merging without having found the lock is right if and only if the lock holds no other deployment |
| `LockHistory.LockHistoryExact` | libs/orchion-download/src/lib.rs:4223-4240 | When each publication merges into a lock that is in place, the lock is the initial one updated with the committed deployments in order: none lost, none from nowhere |
| `LockHistory.CommittedKeys` | libs/orchion-download/src/lib.rs:3414-3432 | The keys of the lock are those it started with and exactly the committed fingerprints |
| `LockHistory.LockInPlace` | libs/orchion-download/src/lib.rs:4274-4291 | Unless an interrupted publication has displaced it, the live lock is the lock a recovery would leave |
| `LockHistory.DisplacedLockExact` | libs/orchion-download/src/lib.rs:4274-4380 | After any interrupted LLM publication or rollback, whatever has become of other paths, merging into the live lock is right for every later deployment if and only if the lock is not displaced, or was moved away empty, or the undone publication only repeated an entry |
| `LockHistory.DisplacedLockLosesUpdates` | libs/orchion-download/src/lib.rs:4274-4380 | Two crash points after which the next merge drops a committed deployment, or keeps one that was rolled back |
| `StopSearch.SplitIndependenceExact` | libs/orchion-llama-cpp/src/slot.rs:888-903 | The visible text never depends on how the stream is cut into pieces if and only if the start of each stop holds a whole stop only when it begins with one |
| `StopSearch.NoNestingIsCovered` | libs/orchion-llama-cpp/src/slot.rs:888-903 | Stops that do not contain each other meet that condition |
| `StopSearch.VisibleIsWholeTextSearch` | libs/orchion-llama-cpp/src/slot.rs:888-903 | Under that condition the visible text is the whole text up to its earliest stop |
| `StopSearch.EarliestIsStable` | libs/orchion-llama-cpp/src/slot.rs:890-896 | Under that condition more text never moves the earliest stop found |
| `StopSearch.SearchPending` | libs/orchion-llama-cpp/src/slot.rs:889-896 | Searching only the withheld text finds exactly what searching the whole text would |
| `StopSearch.SafeIsExact` | libs/orchion-llama-cpp/src/slot.rs:899-901 | Text counted as safe to show is exactly the text in which no continuation can make a stop start |
| `StopSearch.WithheldIsExact` | libs/orchion-llama-cpp/src/slot.rs:995-1007 | The withheld suffix is the shortest safe one |
| `StopSearch.LongestStopPrefixSuffix` | libs/orchion-llama-cpp/src/slot.rs:995-1007 | The longest suffix of the text that is a prefix of some stop |
| `StopSearch.EarliestStop` | libs/orchion-llama-cpp/src/slot.rs:890-895 | The first position at which any stop occurs, if there is one |
| `StopSearch.Find` | libs/orchion-llama-cpp/src/slot.rs:893 | The first occurrence of one stop |
| `StopFilters.StopFilter.PushPiece` | libs/orchion-llama-cpp/src/slot.rs:888-903 | Stops exactly at the first piece after which the whole text holds a stop, having shown the text before it; otherwise everything pushed is shown or pending and not one more character could be shown safely |
| `StopFilters.StopFilter.TakeFlush` | libs/orchion-llama-cpp/src/slot.rs:905-907 | Shows all that was withheld |
| `StopFilters.StopFilter.PushToken` | libs/orchion-llama-cpp/src/slot.rs:909-930 | The same stop decision and the same text before it as the text path; every other non-empty token is shown in full and in order, with the bytes of its text and its own log probabilities, and the next withheld token could not be shown safely |
| `StopFilters.StopFilter.TakeTokenFlush` | libs/orchion-llama-cpp/src/slot.rs:932-935 | Shows all withheld tokens, with their bytes and log probabilities |
| `StopFilters.StopFilter.TakePrefix` | libs/orchion-llama-cpp/src/slot.rs:951-958 | Splits the pending text at a position, reporting nothing for an empty part |
| `StopFilters.StopFilter.TakeTokenPrefix` | libs/orchion-llama-cpp/src/slot.rs:960-992 | The queue loop takes the tokens that fit and drops as many characters of pending text as it shows |
| `StopFilters.FilterText` | libs/orchion-llama-cpp/src/scheduler.rs:2923-2950 | A whole stream through the text path shows the text up to the stop as found piece by piece, or all of it |
| `StopFilters.FilterTokens` | libs/orchion-llama-cpp/src/scheduler.rs:2919-2922 | A whole stream through the token path shows the same text, as the non-empty tokens in order with bytes equal to their text and their own log probabilities, only the last one possibly cut |
| `StopFilters.NonEmptyExact` | libs/orchion-llama-cpp/src/slot.rs:966-969 | Only empty tokens are left out |
| `StopFilters.NonEmptyOfConcat` | libs/orchion-llama-cpp/src/slot.rs:966-969 | And the order of the others stays |
| `StopFilters.ReleasedInFull` | libs/orchion-llama-cpp/src/slot.rs:970-975 | Tokens released before a stop are shown in full, with their bytes and log probabilities |
| `StopFilters.EmitCuts` | libs/orchion-llama-cpp/src/slot.rs:960-992 | Cutting inside a token shows exactly the requested number of characters, and leaves nothing when that is all of them |
| `StopFilters.EmitIsShown` | libs/orchion-llama-cpp/src/slot.rs:966-984 | What is shown is a run of the queued tokens with only the last one shortened, and its bytes with it |
| `StopFilters.EmitSplits` | libs/orchion-llama-cpp/src/slot.rs:966-984 | Keeping tokens whole loses no text, and stops only at a token that does not fit |
| `StopFilters.EmitKeepsTokens` | libs/orchion-llama-cpp/src/slot.rs:966-984 | Taking whole tokens splits the queue: shown and kept tokens together are all non-empty tokens |
| `StopFilters.ShownAfterFull` | libs/orchion-llama-cpp/src/slot.rs:909-930 | Tokens shown in full followed by ones cut short are a run of the pushed tokens with only the last cut |
| `StopFilters.WholeTokensReleased` | libs/orchion-llama-cpp/src/slot.rs:927-929 | Releasing whole tokens shows only safe text, and as many tokens as possible |
| `BatchPlanning.PlanBatch` | libs/orchion-llama-cpp/src/slot.rs:263-319 | The plan holds min(capacity, decodes + prompt tokens left) entries, decodes before prompt tokens, each slot getting an in-order prefix of what it has left, the nearest slot ahead of the cursor served first, and the room shared evenly in the first round |
| `BatchContents.PlanIsRight` | libs/orchion-llama-cpp/src/slot.rs:144-186 | Each entry carries what its slot has: the k-th prompt entry of a slot its k-th token left, at its position, sampled from exactly when it ends the prompt and something is to be generated; a decode entry the sampled token at the next position; decodes come first, in slot order |
| `BatchContents.PlanIsComplete` | libs/orchion-llama-cpp/src/slot.rs:263-319 | A batch never exceeds its capacity, and one with room left holds every sampled token and every prompt token up to the end of the prompt or the capture point |
| `BatchContents.PrefillOfSlot` | libs/orchion-llama-cpp/src/slot.rs:176-186 | What a slot gives at an offset is its prompt token there |
| `BatchContents.DecodeOfSlot` | libs/orchion-llama-cpp/src/slot.rs:145-160 | A slot has a decode entry exactly when it has a sampled token, a 31-bit position and nothing queued |
| `BatchContents.LeftIsWaiting` | libs/orchion-llama-cpp/src/slot.rs:162-174 | What a slot has left are the prompt tokens up to the end or the capture point, and none while it decodes or has output queued |
| `BatchPlanning.FairShare` | libs/orchion-llama-cpp/src/slot.rs:289-302 | A slot gets a whole equal share, or all it has left, whenever shares for it and the slots before it in cursor order fit |
| `BatchPlanning.StartIsMod` | libs/orchion-llama-cpp/src/slot.rs:284 | The slot at which filling starts is the cursor modulo the number of slots |
| `BatchPlanning.ShareIsDivCeil` | libs/orchion-llama-cpp/src/slot.rs:290 | The share is the room divided by the number of slots with prompt tokens, rounded up |
| `BatchPlanning.CollectDecodes` | libs/orchion-llama-cpp/src/slot.rs:264-275 | The decode entries in slot order, as many as fit |
| `BatchPlanning.FillPrefill` | libs/orchion-llama-cpp/src/slot.rs:289-311 | The rounds end, use up the capacity or all prompt tokens, and begin with one in which each slot in cursor order gets at most a chunk |
| `BatchPlanning.FillRound` | libs/orchion-llama-cpp/src/slot.rs:293-310 | One round gives each slot in turn a chunk as far as it has it and room lasts, and makes progress unless every slot has nothing left |
| `BatchPlanning.DecodesOrdered` | libs/orchion-llama-cpp/src/slot.rs:144-160 | Decode entries come one a slot, in slot order, and only from slots with no prompt tokens left |
| `BatchPlanning.ServableExact` | libs/orchion-llama-cpp/src/slot.rs:162-186 | Every token a slot reports as left can be placed if and only if they end within its prompt and within 31-bit positions |
| `BatchPlanning.RunExact` | libs/orchion-llama-cpp/src/slot.rs:176-186 | A run of prompt tokens is gap-free and in order |
| `BatchPlanning.FirstIsNearest` | libs/orchion-llama-cpp/src/slot.rs:284-288 | The first slot served is the nearest one ahead of the cursor that has prompt tokens left |
| `BatchPlanning.CursorApproaches` | libs/orchion-llama-cpp/src/slot.rs:312-314 | A slot that is not served first comes strictly nearer to the cursor |
| `BatchPlanning.NoStarvation` | libs/orchion-llama-cpp/src/scheduler.rs:2264-2267 | A slot with prompt tokens left is served first after at most as many rounds with room as its distance from the cursor, whatever the other slots do and however many rounds decodes fill in between |
| `BatchPlanning.NoStarvationWithin` | libs/orchion-llama-cpp/src/scheduler.rs:2264-2267 | And hence within as many rounds with room as there are slots |
| `BatchPlanning.RoundApproaches` | libs/orchion-llama-cpp/src/slot.rs:268-318 | A round full of decodes leaves the cursor alone; any other serves the slot first or brings the cursor strictly nearer |
| `BatchPlanning.LogitsTargetsExact` | libs/orchion-llama-cpp/src/slot.rs:321-334 | The targets are exactly the entries asking for logits, in batch order; refused if and only if one lies beyond 31 bits |
| `BatchPlanning.OneTargetPerSlot` | libs/orchion-llama-cpp/src/slot.rs:321-334 | No slot is sampled twice from one batch |
| `VadConservation.SegmentsAreExact` | libs/orchion-audio-vad/src/streaming.rs:223-379 | Over any run each finished segment is exactly the fed samples between its bounds, and segments are ordered and disjoint |
| `VadDecisions.PushIsDue` | libs/orchion-audio-vad/src/streaming.rs:223-379 | Every push reports exactly what flags, frames and earlier events call for: the audio of an open segment, its end, or the start of one with the run of speech and the silence before it |
| `VadDecisions.ClosesExactly` | libs/orchion-audio-vad/src/streaming.rs:305-338 | A push ends a segment if and only if one is open and its latest frames complete the minimum silence, or it has reached its longest length |
| `VadDecisions.OpensExactly` | libs/orchion-audio-vad/src/streaming.rs:268-364 | A push starts a segment if and only if none is open and the speech since the last end has just lasted the minimum |
| `VadDecisions.FinishIsDue` | libs/orchion-audio-vad/src/streaming.rs:246-261 | The end of the stream ends the open segment where the audio ends, and reports nothing else |
| `VadDecisions.LimitsInFrames` | libs/orchion-audio-vad/src/streaming.rs:400-454 | Each duration of the configuration counts as the least number of frames that lasts as long, for speech and silence at least one |
| `VadDecisions.RunFollows` | libs/orchion-audio-vad/src/streaming.rs:223-379 | After any run the phase and the buffers are those the history calls for |
| `VadDecisions.TrailingSilenceExact` | libs/orchion-audio-vad/src/streaming.rs:314-316 | The silence at the end is the longest run of silent flags there |
| `VadDecisions.TrailingSpeechExact` | libs/orchion-audio-vad/src/streaming.rs:291-296 | The speech at the end is the longest run of speech flags there |
| `VadDecisions.QuietExact` | libs/orchion-audio-vad/src/streaming.rs:366-372 | The silence before it is the run of silent flags that the speech follows |
| `VadConservation.RunConserves` | libs/orchion-audio-vad/src/streaming.rs:223-379 | The event stream always has the form start, audio, end, each piece of audio continuing the last without gap or overlap |
| `VadConservation.StepInStep` | libs/orchion-audio-vad/src/streaming.rs:223-261 | One frame or end of stream keeps the emitted audio in step with what was fed, whatever the flags |
| `VadConservation.AcceptedSegments` | libs/orchion-audio-vad/src/streaming.rs:305-364 | An accepted event stream has exact, ordered, disjoint segments |
| `VadBounds.RunBounded` | libs/orchion-audio-vad/src/streaming.rs:223-428 | For every accepted configuration and run: a segment opens with the whole speech run that triggered it and at most the padding before it, buffers keep within their limits, and segments within their longest length |
| `VadBounds.RetainedBounded` | libs/orchion-audio-vad/src/streaming.rs:366-379 | Retained samples never exceed the larger of the candidate budget and the padding |
| `VadBounds.AcceptedBudget` | libs/orchion-audio-vad/src/streaming.rs:136-193 | An accepted configuration has room for the minimum speech in its candidate buffer |
| `VadBounds.AcceptedExact` | libs/orchion-audio-vad/src/streaming.rs:136-193 | The accepted configurations, in milliseconds and samples |
| `VadBounds.TrimmedOfFull` | libs/orchion-audio-vad/src/streaming.rs:374-379 | Trimming keeps the latest frames, as many as the budget holds |
| `VadBounds.SpeakingBounded` | libs/orchion-audio-vad/src/streaming.rs:268-303 | A speech frame in front of a segment keeps the whole run of speech in the candidate buffer |
| `VadBounds.SegmentBounded` | libs/orchion-audio-vad/src/streaming.rs:305-338 | A segment is closed before it can outgrow its longest length |
| `VadBounds.SpeakingShort` | libs/orchion-audio-vad/src/streaming.rs:90-106 | The bounds also hold for the short last frame of a stream |
| `VadBounds.FinishBounded` | libs/orchion-audio-vad/src/streaming.rs:246-261 | Ending the stream closes the open segment within the bounds and empties the buffers |
| `VadEndpoint.ChunkingIndependent` | libs/orchion-audio-vad/src/streaming.rs:69-88 | Pushing two chunks is pushing their concatenation: same state, same events, less than one frame pending; and exactly what a detector failure changes |
| `VadEndpoint.DrainedInParts` | libs/orchion-audio-vad/src/streaming.rs:80-87 | The outcome of a long chunk told from that of its parts, failures included |
| `VadEndpoint.DrainedLeavesLess` | libs/orchion-audio-vad/src/streaming.rs:82-85 | Less than one frame stays pending |
| `VadEndpoint.WebRtcStreamingVadEndpoint.Push` | libs/orchion-audio-vad/src/streaming.rs:69-88 | A wrong sample rate changes nothing; otherwise the loop drains every whole frame through detector and state machine, keeping the rest |
| `VadEndpoint.WebRtcStreamingVadEndpoint.Finish` | libs/orchion-audio-vad/src/streaming.rs:90-106 | Leaves no pending samples, no buffers and no open segment, and reports nothing when no speech was under way |
| `VadSession.ClosedRuns` | libs/orchion-audio-vad/src/streaming.rs:90-106 | Closing feeds an incomplete frame as it is when speech is under way, with the verdict on it padded with silence and a failing detector counting as silence, drops it otherwise, and ends the stream |
| `VadSession.PaddedWithSilence` | libs/orchion-audio-vad/src/streaming.rs:96-97 | The frame that is classified is the pending one, cut or followed by silence |
| `VadSession.SessionRuns` | libs/orchion-audio-vad/src/streaming.rs:69-134 | Any session of pushes and closes in which the detector does not fail in a push is a run of the state machine on frames of the right size, fed exactly the samples that were not dropped and flagged with the verdicts of the detector on them |
| `VadSession.ClosedIsJudged` | libs/orchion-audio-vad/src/streaming.rs:90-133 | Closing asks the detector about the incomplete frame, once |
| `VadSession.SessionSegmentsAreExact` | libs/orchion-audio-vad/src/streaming.rs:69-134 | What a session reports as finished segments are exact, ordered, disjoint slices of the samples that were not dropped |
| `VadSession.SessionWithinBounds` | libs/orchion-audio-vad/src/streaming.rs:69-193 | Every event of a session of an accepted configuration is within the bounds, and so is the state after it |
| `VadSession.Play` | libs/orchion-audio-vad/src/streaming.rs:69-134 | A session played on the endpoint yields exactly these events |
| `VadLongFrame.LongFrameBounded` | libs/orchion-audio-vad/src/streaming.rs:90-106 | A closing frame longer than the detector, which only a failed push can leave, still keeps to the bounds plus its own length; the opening run is whole in its segment if and only if it fits the candidate budget |
| `VadLongFrame.TrimmedExact` | libs/orchion-audio-vad/src/streaming.rs:374-379 | Trimming keeps the last frames if and only if they fit |
| `VadEndpoint.WebRtcStreamingVadEndpoint.ProcessFrame` | libs/orchion-audio-vad/src/streaming.rs:108-120 | One frame goes through the detector and, unless that fails, through the state machine |
| `VadEndpoint.StreamingVadState.PushFlag` | libs/orchion-audio-vad/src/streaming.rs:223-244 | Updates the fields as the transition function that the conservation and bounds results are about |
| `VadEndpoint.StreamingVadState.PushSegment` | libs/orchion-audio-vad/src/streaming.rs:305-338 | The in-segment transition, in place |
| `VadEndpoint.StreamingVadState.StartSegmentIfReady` | libs/orchion-audio-vad/src/streaming.rs:340-364 | The opening of a segment, in place |
| `VadEndpoint.StreamingVadState.TrimCandidate` | libs/orchion-audio-vad/src/streaming.rs:374-379 | The loop that drops frames from the front until the budget holds |
| `VadEndpoint.StreamingVadState.RememberPreSpeech` | libs/orchion-audio-vad/src/streaming.rs:366-372 | The loop that keeps only the latest padding frames |
| `VadEndpoint.StreamingVadState.Finish` | libs/orchion-audio-vad/src/streaming.rs:246-261 | The end of a stream, in place |
| `SemanticStream.SemanticParser.Push` | libs/orchion-llama-cpp/src/common_chat.rs:470-487 | A snapshot is accepted if and only if it extends all that was emitted; then the deltas so far rebuild it as far as its calls are announced, and a call is announced exactly when it was, at the end, or once its name is a known tool or its arguments have begun; ids stay as first seen, and a metadata error can only mean a changed name, never a changed id; new ids are the model ones or generated from the next values of the counter, which moves on by their number |
| `SemanticStream.AnnouncedIsHeard` | libs/orchion-llama-cpp/src/common_chat.rs:583-602 | A client hears of a call exactly when it is announced |
| `SemanticStream.SemanticParser.Finish` | libs/orchion-llama-cpp/src/common_chat.rs:489-491 | At the end every call is announced and the whole delta stream rebuilds the final message exactly |
| `SemanticStream.StabilizeToolIds` | libs/orchion-llama-cpp/src/common_chat.rs:531-545 | Every call keeps the id it was first seen with; model ids are kept, missing ones are generated from successive values of the counter; nothing else changes |
| `SemanticStream.FirstIdsDiffer` | libs/orchion-llama-cpp/src/common_chat.rs:531-545 | Calls of one snapshot that came without an id are given different ones |
| `SemanticStream.LaterIdsDiffer` | libs/orchion-llama-cpp/src/common_chat.rs:531-545 | So are calls of different snapshots, in one reply or in several |
| `SemanticStream.GeneratedIdsDiffer` | libs/orchion-llama-cpp/src/common_chat.rs:538-541 | Ids generated from different values of the 64-bit counter differ |
| `SemanticStream.HexAppends` | libs/orchion-llama-cpp/src/common_chat.rs:538-541 | The counter is printed in hexadecimal, units last |
| `SemanticStream.DigitsAreLowerCase` | libs/orchion-llama-cpp/src/common_chat.rs:538-541 | And in lower case |
| `SemanticStream.SemanticParser.SemanticDiffs` | libs/orchion-llama-cpp/src/common_chat.rs:547-626 | Accepts exactly the snapshots that only add to what was emitted, and then the deltas make up the difference |
| `SemanticStream.SemanticParser.ToolDiffs` | libs/orchion-llama-cpp/src/common_chat.rs:575-625 | The loop over the calls: each is brought up to date or exactly one of them is at fault, and texts are untouched |
| `SemanticStream.SemanticParser.ProcessCall` | libs/orchion-llama-cpp/src/common_chat.rs:575-624 | One call: announced once with id and name, then only its new arguments |
| `SemanticStream.SemanticParser.TextDiffs` | libs/orchion-llama-cpp/src/common_chat.rs:554-564 | Reasoning and text deltas bring both texts up to date and no tool call |
| `SemanticStream.RebuiltIsMessage` | libs/orchion-llama-cpp/src/common_chat.rs:547-626 | When every call is announced, a client that reads id and name off first deltas and joins the rest has the message |
| `SemanticStream.FirstDelta` | libs/orchion-llama-cpp/src/common_chat.rs:592-600 | Announcing a call emits its id and name once, in its first delta |
| `SemanticStream.MoreArguments` | libs/orchion-llama-cpp/src/common_chat.rs:609-623 | Later deltas carry arguments only, and joined they are what is recorded as emitted |
| `SemanticStream.AcceptedIgnoresIds` | libs/orchion-llama-cpp/src/common_chat.rs:531-545 | Whether a snapshot is accepted does not depend on the ids in it |
| `MediaSentinels.ValidateRenderedMedia` | libs/orchion-llama-cpp/src/common_chat.rs:740-789 | Succeeds if and only if the prompt has no marker and holds each image sentinel exactly once and well formed; then the order is a permutation, the result has exactly that many markers, and putting the sentinels back gives the prompt |
| `MediaSentinels.MarkedIsInvertible` | libs/orchion-llama-cpp/src/common_chat.rs:769-780 | Replacing sentinels by markers neither hides nor invents a marker across splices, and can be undone |
| `MediaSentinels.AcceptedPrompt` | libs/orchion-llama-cpp/src/multimodal.rs:59-65 | For an accepted prompt the later marker count equals the number of images |
| `MediaSentinels.ReadSentinel` | libs/orchion-llama-cpp/src/common_chat.rs:750-764 | One step of the scan takes off the text before a sentinel and its index, or finds the rest malformed |
| `MediaSentinels.ParseIsExact` | libs/orchion-llama-cpp/src/common_chat.rs:750-780 | What is read off a prompt, rendered again, is the prompt |
| `MediaSentinels.NumberAppends` | libs/orchion-llama-cpp/src/common_chat.rs:762-764 | An index is read as decimal digits from the left |
| `MediaSentinels.PaddedDigits` | libs/orchion-llama-cpp/src/common_chat.rs:685-689 | An index is printed in as many digits as asked for, and read back as itself |
| `MediaSentinels.ParseRendered` | libs/orchion-llama-cpp/src/common_chat.rs:685-689 | Reading a rendered prompt gives back its text chunks and image indices |
| `MediaSentinels.Rejected` | libs/orchion-llama-cpp/src/common_chat.rs:765-786 | A prompt whose indices are no permutation is not acceptable in any reading |
| `MediaSentinels.NothingStraddles` | libs/orchion-llama-cpp/src/common_chat.rs:21-23 | No sentinel or marker starts inside a chunk and ends outside it |
| `MediaSentinels.PermutationLength` | libs/orchion-llama-cpp/src/common_chat.rs:747-786 | Distinct indices that cover 0 up to n are n in number |
| `PrefixCaching.PrefixCache.Lookup` | libs/orchion-llama-cpp/src/prefix_cache.rs:61-83 | Finds the unique longest proper prefix of the tokens with the same compatibility and makes it the most recently used, or there is none |
| `PrefixCaching.PrefixCache.Insert` | libs/orchion-llama-cpp/src/prefix_cache.rs:85-129 | An entry is accepted when it is long enough and its state and four bytes a token fit; it replaces the one with its key, goes to the front, and exactly the longest most recently used run that fits both limits is kept; anything else changes nothing, the clock included |
| `PrefixCaching.WithoutKeyExact` | libs/orchion-llama-cpp/src/prefix_cache.rs:102-109 | Exactly the entry with the same compatibility and tokens is replaced |
| `PrefixCaching.EntryBytes` | libs/orchion-llama-cpp/src/prefix_cache.rs:95-98 | The weight of an entry saturates at the machine word |
| `PrefixCaching.PrefixCache.Evict` | libs/orchion-llama-cpp/src/prefix_cache.rs:119-128 | The loop ends, never looks into an empty list, and leaves what fits, with exact byte accounting |
| `PrefixCaching.PrefixCache.RemoveKey` | libs/orchion-llama-cpp/src/prefix_cache.rs:102-109 | The entry with the key is gone, the others keep their order, and the byte count is exact |
| `PrefixCaching.PrefixCache.Disable` | libs/orchion-llama-cpp/src/prefix_cache.rs:131-135 | Empties the cache for good |
| `PrefixCaching.KeptIsLongest` | libs/orchion-llama-cpp/src/prefix_cache.rs:119-128 | A run of most recent entries is kept if and only if it fits both limits |
| `PrefixCaching.NewestSurvives` | libs/orchion-llama-cpp/src/scheduler.rs:1870-1881 | With at least one entry allowed, an entry just accepted survives its own insertion |
| `PrefixCaching.LongestIsUnique` | libs/orchion-llama-cpp/src/prefix_cache.rs:69-79 | Two usable entries never have the same length |
| `PrefixCaching.LongestUsable` | libs/orchion-llama-cpp/src/prefix_cache.rs:69-79 | A usable entry with the most tokens, if there is one |
| `PrefixCaching.EvictOldest` | libs/orchion-llama-cpp/src/prefix_cache.rs:120-127 | The entry with the smallest time stamp is the last of the recency order, and taking it out keeps the accounting exact |
| `PrefixCaching.Touched` | libs/orchion-llama-cpp/src/prefix_cache.rs:80-81 | A new time stamp moves the entry to the front of the recency order |
| `PrefixCaching.Added` | libs/orchion-llama-cpp/src/prefix_cache.rs:110-118 | A new entry goes in front with an exact byte count and distinct keys and times |
| `PrefixCaching.Removed` | libs/orchion-llama-cpp/src/prefix_cache.rs:102-109 | Taking out an entry takes it out of the recency order and of the byte count, and no other entry has its key |
| `ProviderSelection.OneProvider` | libs/orchion-download/src/lib.rs:1069-1208 | Over any calls for one deployment all successful ones use the same provider, and one that every artifact allows |
| `ProviderSelection.CommittedStays` | libs/orchion-download/src/lib.rs:1120-1128 | Once a call has succeeded the selected provider never changes |
| `ProviderSelection.DeploymentSelection.Download` | libs/orchion-download/src/lib.rs:1069-1208 | Terminates for every sequence of answers; success means that the source returned had the artifact or delivered it, and commits it; a committed source is kept; a retryable failure is final only for a committed source; it gives up only when every candidate has been rejected after a failed download or passed over, or one has failed for good |
| `ProviderSelection.DeploymentSelection.Replace` | libs/orchion-download/src/lib.rs:1190-1203 | After a retryable failure the source is rejected and another one selected, with fewer ways left to go on |
| `ProviderSelection.DeploymentSelection.ReuseCached` | libs/orchion-download/src/lib.rs:1093-1130 | A cache hit commits its source, which the selection or the recipes allow; a miss means that every source that may be used missed, and changes nothing |
| `ProviderSelection.DeploymentSelection.Resolve` | libs/orchion-download/src/lib.rs:1132-1152 | Asks only the selected source when there is one, keeps whether it is final, gives up only when those asked are passed over or fail for good, and changes nothing on failure |
| `ProviderSelection.DeploymentSelection.Preflight` | libs/orchion-download/src/lib.rs:1210-1300 | The first candidate in order that is neither rejected nor unknown nor held up by a retryable problem decides: it is selected if every artifact allows it and has an answer, and ends the call otherwise; with no such candidate all are exhausted |
| `ProviderSelection.NoProblemExact` | libs/orchion-download/src/lib.rs:1231-1279 | A candidate has no problem exactly when the recipe of every artifact allows it and its provider answers for each |
| `ProviderSelection.RejectingShrinks` | libs/orchion-download/src/lib.rs:1191-1203 | Each newly rejected source leaves one candidate fewer |
| `SpeechSegments.SegmentsFromSpeechFlags` | libs/orchion-audio-vad/src/lib.rs:98-141 | The segments are the padded groups of exactly the long speech runs, and with enough flags for the samples they are non-empty ordered intervals inside the recording, disjoint when the padding fits |
| `SpeechSegments.LimitsInFrames` | libs/orchion-audio-vad/src/lib.rs:186-192 | Durations count as the least number of frames that lasts as long, the minimum speech as at least one |
| `SpeechSegments.LongRuns` | libs/orchion-audio-vad/src/lib.rs:108-131 | The scan finds exactly the maximal runs of the required length, in order |
| `SpeechSegments.MergeClose` | libs/orchion-audio-vad/src/lib.rs:143-162 | Runs are grouped exactly where neighbours are close, one segment a group, from its first start to its last end |
| `SpeechSegments.MergedExactly` | libs/orchion-audio-vad/src/lib.rs:153-158 | Neighbouring runs end up in one segment if and only if the gap between them is shorter than the minimum silence or at most the merge gap |
| `SpeechSegments.SpanInOneHull` | libs/orchion-audio-vad/src/lib.rs:143-162 | Every long run lies in exactly one merged segment |
| `SpeechSegments.HullSpans` | libs/orchion-audio-vad/src/lib.rs:143-162 | Merged segments start and end at runs |
| `SpeechSegments.HullGaps` | libs/orchion-audio-vad/src/lib.rs:153-158 | Consecutive merged segments are separated by at least the minimum silence and by more than the merge gap |
| `SpeechSegments.HullsApart` | libs/orchion-audio-vad/src/lib.rs:143-162 | Merged segments are in order and do not touch |
| `SpeechSegments.PaddedCovers` | libs/orchion-audio-vad/src/lib.rs:175-182 | A padded segment is a non-empty interval inside the recording that covers its frames |
| `SpeechSegments.PaddedExact` | libs/orchion-audio-vad/src/lib.rs:175-182 | A segment starts the padding before its first frame and ends the padding after its last, as far as the recording reaches |
| `SpeechSegments.IntervalsOrdered` | libs/orchion-audio-vad/src/lib.rs:164-184 | Padding keeps segments ordered and inside the recording |
| `SpeechSegments.PaddedApartExact` | libs/orchion-audio-vad/src/lib.rs:175-182 | Two padded neighbours do not overlap if and only if the gap between them holds both paddings |
| `SpeechSegments.DisjointExact` | libs/orchion-audio-vad/src/lib.rs:98-184 | Padded segments are disjoint for every recording if and only if twice the padding fits the shortest gap that is not merged, a condition on the configuration alone |
| `SpeechSegments.FittingIsDisjoint` | libs/orchion-audio-vad/src/lib.rs:143-184 | With such a configuration no two neighbouring segments of any recording overlap |
| `SpeechSegments.TwoRunsOverlap` | libs/orchion-audio-vad/src/lib.rs:98-184 | With any other the segments of two shortest runs with the shortest gap between them do |
| `SpeechSegments.DefaultOverlaps` | libs/orchion-audio-vad/src/lib.rs:33-44 | The default configuration is of the latter kind: gaps from 18 frames on are kept, and padded with 10 on either side |
| `StrictSchema.ValidateStrictSchema` | libs/orchion-llama-cpp/src/constraints.rs:63-77 | Accepts a parsed schema if and only if it is short enough, its root is an object schema, at most 4096 nodes are visited, and each lies at most 32 deep and meets the condition of its type |
| `StrictSchema.ValidateNode` | libs/orchion-llama-cpp/src/constraints.rs:79-176 | The shared counter makes the recursive check succeed exactly when the subtree is well formed, shallow enough and fits in what is left of the node limit |
| `StrictSchema.WalkIsExact` | libs/orchion-llama-cpp/src/constraints.rs:79-176 | Counting and checking by recursion is counting and checking the list of visited nodes |
| `StrictSchema.RequiredIsPermutation` | libs/orchion-llama-cpp/src/constraints.rs:268-283 | The three tests of the required list together hold if and only if it is a permutation of the property names |
| `StrictSchema.ValidateRequired` | libs/orchion-llama-cpp/src/constraints.rs:268-283 | The loop over a growing set of names accepts exactly the permutations of the property names |
| `StrictSchema.ValidateObject` | libs/orchion-llama-cpp/src/constraints.rs:252-288 | An object schema is accepted exactly when it is closed, requires every property once, and all property schemas are accepted |
| `StrictSchema.ValidateChildren` | libs/orchion-llama-cpp/src/constraints.rs:284-286 | The loop over properties threads the counter through every subtree |
| `StrictSchema.ValidateKeywords` | libs/orchion-llama-cpp/src/constraints.rs:91-144 | Only known keywords, one known type, and values and limits that agree with it |
| `StrictSchema.ValidateLimits` | libs/orchion-llama-cpp/src/constraints.rs:125-143 | A limit is accepted only with its own type, in range, and with the lower one not above the upper one |
| `StrictSchema.ValidateNumericBounds` | libs/orchion-llama-cpp/src/constraints.rs:191-220 | Numeric limits are numbers, integral for integers, and in order as double-precision numbers |
| `StrictSchema.RoundingThreshold` | libs/orchion-llama-cpp/src/constraints.rs:199-217 | Integer limits of up to n in magnitude are always compared exactly if and only if n is at most 2^53 |
| `StrictSchema.RoundingKeepsOrder` | libs/orchion-llama-cpp/src/constraints.rs:199-217 | Integer limits in order are never refused, and up to 2^53 every disorder is |
| `StrictSchema.FloatsAreThemselves` | libs/orchion-llama-cpp/src/constraints.rs:195-217 | Floating-point limits are compared as they are, with each other and with integers up to 2^53 |
| `StrictSchema.TypesExact` | libs/orchion-llama-cpp/src/constraints.rs:178-189 | Each value matches the types of its kind and no others; an integer is also a number |
| `StrictSchema.RoundingHidesDisorder` | libs/orchion-llama-cpp/src/constraints.rs:199-217 | Two integer limits in the wrong order that are accepted |
| `StrictSchema.ValidateSizeBounds` | libs/orchion-llama-cpp/src/constraints.rs:222-250 | Size limits are integers up to a million, and in order |

## Left out

- CachePublication.CacheDisk.Publish: symbolic links, ancestor checks and path syntax are not modelled; a failing check is a refused operation. Listed paths are opaque keys, none an ancestor of another or of a name inside the transaction directory.
- CachePublication.CacheDisk.Publish: writing a temporary file and renaming it is one step, and so is the creation of directories; a leftover temporary file only adds a refused operation.
- CachePublication.CacheDisk.Publish: a power loss keeps every operation that had taken effect; what an unsynced directory may still lose is not modelled.
- CachePublication.CacheDisk.Recover: a marker or manifest that is not a regular file, and a manifest that cannot be read, are not modelled; recovery then stops before it changes anything. A marker that cannot be read is modelled.
- File locks: publications and recoveries are serialised by assumption.
- LockHistory.PublishLlm: files are digests and lock entries numbers; JSON and hashing are not modelled. Sorting and removing duplicates from the paths is not modelled, as nothing depends on their order.
- StopFilters.StopFilter.PushToken: positions count characters, not UTF-8 bytes; every cut lies on a character boundary.
- Delivery of queued output to the client, and draining of finished slots.
- BatchPlanning.PlanBatch: assumes slots whose tokens can be placed (`ServableExact` says which) and that the capacity is positive or nothing is decoding.
- VadBounds.RunBounded: assumes that frames have the detector's size, except a short one that ends the stream, which is so for every session whose pushes do not fail (`SessionRuns`). After a failed push more than one frame may be pending, and `finish` then cuts the frame it classifies but emits all of it; that frame is the subject of `LongFrameBounded`.
- VadSession.SessionRuns: a session goes up to the first failed push; the samples of the frame that failed and the events before it in the same push are lost, as `ChunkingIndependent` states.
- VadEndpoint.WebRtcStreamingVadEndpoint.Push: samples are opaque and the detector is a deterministic state machine that may fail; the conversion to 16-bit samples is part of it.
- VadEndpoint.StreamingVadState.PushFlag: sample positions do not wrap around.
- SemanticStream.SemanticParser.Push: the native parser's snapshot is an argument, and the program-wide id counter is passed in and out. The parser's state after an error is not described, since the reply ends there.
- SemanticStream.StabilizeToolIds: the 64-bit counter does not wrap; generated ids are not shown to differ from ids chosen by the model.
- MediaSentinels.ValidateRenderedMedia: the error messages are told apart only by kind; building the messages and the chat template are not modelled.
- PrefixCaching.PrefixCache.Insert: the 64-bit clock does not wrap, and twice the byte limit fits in a machine word (it is configured to at most 4 GiB).
- PrefixCaching.PrefixCache.Lookup: the 64-bit clock does not wrap.
- ProviderSelection.DeploymentSelection.Download: what caches and providers answer is given beforehand and arbitrary; paths, revisions and downloads are not modelled.
- SpeechSegments.SegmentsFromSpeechFlags: sample counts do not overflow.
- StrictSchema.ValidateStrictSchema: the length of the serialised schema is an argument, and the error messages are not modelled.
- Sampling, log-probability normalisation, model loading, network providers, codecs and user interfaces.
