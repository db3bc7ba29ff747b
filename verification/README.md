# A verified model of the ANE decode plane and draft runtime

This Dafny project models the parts of the repository whose logic does not live in Apple's
frameworks or in MLX: the slot pool of the decode plane and its build-once caches, the layer
loop with its direct blocks, the speculative drafter and the decoder around it, the K/V log of
the draft model, the strided and padded layouts, the binary16 codecs, the weight file, the hook
sessions, the router and the compile profiles. `dafny verify dfyconfig.toml` checks all of it.

Foreign calls are either outcomes that the environment chooses (a bridge that fails, a snapshot
that is refused, a cache that takes no row) or arbitrary functions (what a stage, a block, the
reference model or the target computes). Every statement holds for all of these choices. Code that
updates state is written as classes and loops and proved against functions; the protocols that
several goroutines run are transition systems, one critical section to a step, and their
theorems are about every run of every interleaving.

| file | models |
|---|---|
| lease_pool.dfy, lease_protocol.dfy | slots, leases, stealing, stale releases, slot mutexes |
| fan_out.dfy | dispatches that hold slots of several pools: when they block each other |
| prepared_run.dfy | which lock and which lease a dispatch owes at each point |
| build_once.dfy | pending channels: one build per key |
| forward.dfy, spans.dfy | the layer loop, direct blocks, fallbacks, caches and views, maximal spans |
| decode_run.dfy | token after token: when decoding sees the real history |
| drafter.dfy | drafting, the three rewinds, the hand-over to the reference model |
| draft_kv.dfy | the drafter's model and the K/V surfaces as one object |
| speculative.dfy, top_k.dfy | greedy acceptance, the decoder step, argmax and top k |
| kv_log.dfy | K/V surfaces as a truncating log, decode position, attention mask |
| surface.dfy, float16.dfy | strided surfaces as flat arrays, binary16, the weight blob |
| packed_linear.dfy, heads.dfy | padded matrix product, KV head expansion, transposes |
| weight_file.dfy | the Espresso weight file and its inverse |
| hooks.dfy, router.dfy, profiles.dfy | hook sessions, routing and its cache, profile lists |
| strides.dfy, matrices.dfy, options.dfy | index arithmetic, flat matrices, missing values |

## Where the code is narrower than its comments

Each of these is a theorem below: the exact condition, and a concrete input that shows the failure.

- A fan-out of several stages returns with slot mutexes held exactly when a later stage fails to
  evaluate or an earlier one fails to deliver its output (`PreparedRuns.MutexLeftHeldIff`,
  `PreparedRuns.SecondEvaluationFails`).
- A mutex left that way is never unlocked, and one failed evaluation is enough to block a later
  dispatch for good (`FanOut.LostForever`, `FanOut.OneFailureBlocks`).
- Without such failures dispatches always come to their end if all take their pools in one order
  (`FanOut.EveryScheduleDrains`), but experts are taken in the router's order. Dispatches over two
  pools can block each other exactly if both orders occur, whatever the depths of the pools
  (`FanOut.TwoPoolsBlockIff`, `FanOut.OppositeOrdersBlock`).
- The release of a pass's output views is deferred with a list that is still empty, so a pass
  leaves exactly the leases of its borrowed views in use (`Forwarding.Plane.Forward`). With views
  that are borrowed and not copied, a direct block is therefore handed another slot for the next
  token, unless its pool has a single one (`DecodeRuns.SameSlotIff`), and a block on another slot is
  restored from caches that hold zero rows: in such a run its layers see a zero row for every token
  that has been decoded (`DecodeRuns.RunInTurn`, `DecodeRuns.RestoredFromZeros`,
  `DecodeRuns.RestoredFromZerosCounts`).
- A layer that falls back to the GPU reuses its error variable for the residual and the norm, so
  the plane is disabled exactly when the failure came after both had been computed: from the
  dispatch of an explicitly normalized input. A failing fused path is tried again for every
  token (`Forwarding.Plane.LayerForward`, `Forwarding.FusedFailureIsNotRemembered`).
- A direct block that fails after it has begun to advance the caches leaves a zero row too many in
  each cache it reached, and no other block and no other failure does (`Forwarding.Plane.Forward`,
  `Forwarding.LateBlockFailureShows`, `Forwarding.LateBlockFailureCounts`).
- Snapshots are taken for drafted tokens only. A rewind restores the right state exactly when the
  snapshot it would restore is as old as the rewind is long, or everything is rebuilt
  (`Drafting.Drafter.Rewind`, `Drafting.RewindPastLatestDraft`).
- A drafter that is given a token equal to the last of its history does not feed it if the logits
  of that one are at hand: exactly such a round loses a token (`Drafting.Drafter.Session`,
  `Drafting.SettledTokenIsLost`).
- The draft model is never rewound after a decoder step: it stands where the next step needs it
  exactly when k tokens came out (`Speculative.SpeculativeDecoder.Step`,
  `Speculative.StepLeavesTheDraftBehind`). The output stays that of
  greedy decoding all the same (`Speculative.SpeculativeDecoder.Decode`).
- A K/V row written and not advanced survives rewind and reset (`KVLog.KVState.Truncate`,
  `KVLog.DirtyRowSurvives`); a K/V state configured in mid-run is out of step for as long as the
  rewinds do not reach back to position 0 (`KVLog.DecodeModel.ConfigureKVState`,
  `KVLog.DecodeModel.RewindDecodePosition`, `KVLog.ConfiguredInMidRun`).
- `valid` accepts layouts whose elements overlap or leave the allocation: those, and only those,
  whose rows do not fit (`Surfaces.Layout.SoundIffRowsFit`, `Surfaces.RowsOverlap`); exactly the
  others keep whatever is written to them (`Surfaces.WritesHoldIffRowsFit`).
- A NaN can keep larger numbers out of a top-k list. A value gets in front of the first NaN if it
  comes earlier or is greater than a number that does; the list is right exactly if k values get
  in front or all numbers do (`TopK.KeptLeadsIff`, `TopK.NaNStaysInTheWay`).
- The surface codec loses subnormal values and turns NaN into infinity; the blob codec keeps both
  (`Float16.RoundTrips`), and the two disagree from 65520 up to 65536 (`Float16.CodecsDisagree`,
  `Float16.WhereTheyDiffer`).
- The router sees padded dimensions, so a channel multiple rejects nothing exactly if it divides 16
  (`Routing.PaddingAligns`, `Routing.OneChannelPasses`).

## Model

| member | source | states |
|---|---|---|
| LeasePool.Stage.AcquireSlot | decode/pool.go:48-111 | Run without interference, the two sections leave the pool and return the outcome that the pool functions give: first free slot, else a new one, else after a synchronisation the first free or the oldest; the third result says whether it stalled. |
| LeasePool.Stage.AcquireOrGrow | decode/pool.go:52-78 | The first critical section: while any slot is free the first of them is leased and the pool does not grow; with all in use a slot is built if the depth allows it, and otherwise nothing changes. |
| LeasePool.Stage.AcquireOrSteal | decode/pool.go:85-109 | The second critical section: while any slot is free the first of them is leased; a lease is stolen only with all in use, and then the oldest. No other slot changes. |
| LeasePool.Stage.ReleaseSlot | decode/pool.go:113-123 | A release frees the slot if its lease is still current and changes nothing if it is stale. |
| LeasePool.Stage.constructor | decode/stages.go:425-438 | A stage starts with one free slot, lease number 0 and a depth of at least 1. |
| LeaseProtocol.PoolSafety | decode/pool.go:48-123 | In every reachable state of any number of runs: at most the depth in slots, distinct leases, no slot mutex with two owners, a slot is in use exactly when a run holds its current lease. |
| LeaseProtocol.StepInv | decode/pool.go:709-784 | Every step of every run keeps the whole invariant; the direct block pool is the same code. |
| LeaseProtocol.LeasesStrictlyIncrease | decode/pool.go:56-59 | The leases that any run of the protocol issues are consecutive numbers, none twice. |
| LeaseProtocol.StealAlwaysLeases | decode/pool.go:85-109 | "output pool is empty" is unreachable: the second section always ends with a fresh lease. |
| LeaseProtocol.UsedSlotsStay | decode/pool.go:85-123 | A slot that is in use changes only when its current lease is released, or when it is stolen: with every slot in use and no older lease. |
| LeaseProtocol.FreeSlotsFirst | decode/pool.go:48-111 | In either section, with some slot free, the slot that is leased was free and every slot before it in use. |
| LeaseProtocol.GrowsOnlyWhenFull | decode/pool.go:61-74 | A pool grows only with all its slots in use, below its depth, and by one. |
| LeaseProtocol.StaleReleaseChangesNothing | decode/pool.go:117-122 | A release by a run whose lease was stolen leaves the pool as it is; a release of a current lease frees exactly its slot. |
| LeaseProtocol.StolenLeaseIsOld | decode/pool.go:96-107 | A lease stolen from a full pool of depth d has seen at least d-1 younger leases. |
| LeaseProtocol.FreeAgainIsNoop | decode/pool.go:117-122 | Releasing a lease a second time changes nothing. |
| LeaseProtocol.BlockedOnlyByUnlockable | decode/pool.go:328-335 | Within one pool a run that waits for a slot mutex waits for a run that is inside that slot, and that one waits for nothing in this pool. |
| LeaseProtocol.DrainsToAllFree | decode/pool.go:48-123 | In one pool whose runs all unlock what they lock, from every reachable state all runs can finish, and then every slot is free and every mutex unowned: no interleaving of steals and stale releases loses a slot. |
| FanOut.StepInv | decode/dispatch.go:519-626 | Any number of dispatches over any number of pools: every step keeps each pool's invariant, a dispatch holds the mutexes of exactly the pools it has passed while it waits for the next, and runs belong to dispatches that use their pool. |
| FanOut.EndsAsDispatched | decode/dispatch.go:591-619 | The mutexes that a dispatch leaves held, as `PreparedRuns` accounts for them, are one of the ranges that a dispatch can leave behind here. |
| FanOut.EveryEndOccurs | decode/dispatch.go:591-619 | Every such range is what some dispatch leaves behind, for any number of stages. |
| FanOut.OrderedRunsProgress | decode/dispatch.go:544-554 | If all dispatches take their pools in one order and none is aborted in part, then in every reachable state in which anything is in flight some dispatch can do its next step. |
| FanOut.EveryScheduleDrains | decode/dispatch.go:519-626 | Then every schedule without new dispatches ends after a bounded number of steps, and ends with no runs, all slots free and all mutexes unowned. |
| FanOut.OppositeOrdersBlock | decode/dispatch.go:1188-1196 | For any two pools of any depths: as many dispatches in each order as its first pool has slots reach a state in which all of them are in flight and none can do anything. |
| FanOut.TwoPoolsBlockIff | decode/dispatch.go:544-554 | Dispatches over two pools, any number of them and in any interleaving, can reach such a state exactly if both orders occur. |
| FanOut.LostForever | decode/dispatch.go:591-619 | A slot mutex that a partial abort passes over stays owned in every future, and a dispatch that waits for it never does anything again. |
| FanOut.OneFailureBlocks | decode/dispatch.go:591-598 | A concrete run in which one failed evaluation leaves the next dispatch behind such a mutex. |
| PreparedRuns.Ledger.BeginInput | decode/pool.go:319-429 | A begin call returns with lease and mutex held exactly when it returns a run. A run that is returned has its input on the surface, or queued on the stream with the ready signal behind it; none is returned only if the slot, an interface or the reset failed, or every way of filling the surface did. |
| PreparedRuns.Ledger.FillInput | decode/pool.go:356-427 | The three ways of filling the surface in their order: when each is taken, and what input and signal it leaves. |
| PreparedRuns.Ledger.BeginFused | decode/pool.go:431-545 | The fused begin calls keep the same accounting, need every one of their steps, and return with the input on the surface and its signal raised. |
| PreparedRuns.Ledger.OutputHiddenView | decode/pool.go:572-696 | Every output path unlocks once and then either gives the lease back or hands it to the view, never both; in each mode, which steps a borrowed or owned view has gone through, and that a failure means one of them failed. |
| PreparedRuns.Ledger.Dispatch | decode/dispatch.go:519-626 | After a dispatch every slot owes exactly what the failing stage, if any, determines, and the call succeeds exactly when all stages prepare, evaluate and deliver; then all were evaluated, on inputs that were all in place, and exactly the borrowed views keep leases. |
| PreparedRuns.Ledger.EvaluateAll | decode/dispatch.go:571-600 | Stages are started only with their input in place and their slot locked, then awaited in order; at the first failure the runs from it on are aborted. |
| PreparedRuns.Ledger.ReleaseOutputViews | decode/dispatch.go:629-635 | Releasing the views returns every lease they hold. |
| PreparedRuns.MutexLeftHeldIff | decode/dispatch.go:591-619 | The exact condition under which a dispatch leaves a slot mutex held. |
| PreparedRuns.SingleStageIsClean | decode/dispatch.go:519-626 | With a single stage no failure leaves a mutex, and no failed dispatch a lease. |
| PreparedRuns.SecondEvaluationFails | decode/dispatch.go:591-598 | A concrete fan-out whose second evaluation fails leaves the first slot locked. |
| BuildOnce.Plane.Acquire | decode/stages.go:51-86 | Without interference a caller gets the stored stage, else the stored error, else builds, stores the result under its key and leaves no channel pending; other keys are as before. |
| BuildOnce.Plane.Finish | decode/stages.go:76-84 | Completing a build stores its result, drops the pending entry and closes the channel. |
| BuildOnce.StepInv | decode/stages.go:88-201 | Any interleaving keeps: a key is pending only while exactly one thread builds it on that channel, stored results and errors are disjoint, every waiter waits on a live or closed channel. |
| BuildOnce.OneBuildPerKey | decode/stages.go:51-201 | In every run of any number of threads at most one build of a key ever starts. |
| BuildOnce.ResultIsFinal | decode/stages.go:51-201 | A stored stage or error never changes again. |
| BuildOnce.WokenWaiterReturns | decode/stages.go:52-66 | A woken waiter finds the stored result whatever the other threads do before it looks. |
| BuildOnce.NoLostWakeup | decode/stages.go:62-84 | When a build completes, everyone waiting for it can wake. |
| Forwarding.DirectSlot.Sync | decode/dispatch.go:989-1031 | Synchronising succeeds exactly when the span's caches agree and the block is, or can be reset or restored, there; the block keeps its own rows if it was at that position and otherwise holds those of the caches, row for row. |
| Forwarding.AdvanceDirectBlockCaches | decode/dispatch.go:1035-1048 | The caches of the span take a zero row each, in order, up to the first that refuses. |
| Forwarding.Plane.DirectBlockOutput | decode/dispatch.go:848-981 | A block either computes the composition of its layers on the rows it holds, adds their rows to its own state, a zero row to every cache of its layers and to no other, and lends its view; or leaves the hidden state alone, lends nothing, is marked and never tried again, with exactly the caches advanced that it had reached. |
| Forwarding.Plane.NoStepFailed | decode/dispatch.go:848-981 | A block that goes through has had none of its steps fail, and no cache of its layers refuse. |
| Forwarding.Plane.NothingInTheWay | decode/dispatch.go:848-981 | If no step fails and the caches of its layers are equally long, it goes through. |
| Forwarding.Plane.LayerForward | decode/dispatch.go:1280-1476 | For every mix of fused, plain, MoE and GPU paths: the layer's result on the rows of its cache, in the operations of the model, a norm handed on is the next layer's input norm of it, the cache takes the layer's key/value row and no other cache changes, no ANE failure fails the layer, views are lent only by a layer that succeeds, and the exact condition under which the plane is disabled. |
| Forwarding.Plane.FallBack | decode/dispatch.go:1410-1435 | The error fallback completes the layer on the GPU and passes an error to `disable` only if it computed neither residual nor norm itself. |
| Forwarding.Plane.PostFFN | decode/dispatch.go:1437-1476 | The fused and plain residual additions agree, and the fused norm is the next layer's. |
| Forwarding.Plane.Forward | decode/dispatch.go:1484-1577 | One pass computes the sequential composition of all layers, each run once and in order on the rows it sees, for any mix of blocks and fallbacks, and says what every cache holds afterwards; which blocks went through, on which rows and into which state, and which were given up with how many rows too many in their caches; it leaves exactly the leases of its lent views in use, also if it fails; hooks see every layer's output; if the GPU side works the pass succeeds; and a pass that is fair to blocks that have kept the rows so far is the pass over what the tokens so far have really written. |
| Forwarding.Plane.WholePass | decode/dispatch.go:848-981 | After any pass, fair or not, every block went through exactly if it could from the state and caches that the pass found, its layers then on the rows it was brought to and those in its state; otherwise its layers ran alone, and it was given up where it failed or never tried. |
| Forwarding.Plane.CleanPass | decode/dispatch.go:1529-1568 | Without a block that fails while advancing, a layer that runs by itself sees exactly its cache, one in a block as many rows of the block's, and every cache ends one row further. |
| Forwarding.Plane.PassedAt | decode/dispatch.go:1529-1577 | Of a pass, layer by layer: the rows it saw, the row it made from the hidden state before it, what its cache holds afterwards; and the logits as the head of the last layer. |
| Forwarding.Net.ComposeSplits | decode/dispatch.go:1529-1568 | Running a span as one block and then the rest is running all the layers. |
| Forwarding.Net.ChainComposes | decode/dispatch.go:1280-1476 | The composition of layers is the one chain of hidden states in which each comes from the one before by the operations of the model. |
| Forwarding.ThreeTokens | decode/dispatch.go:1280-1476 | The logits of three tokens through a layer that adds up its cache. |
| Forwarding.FusedFailureIsNotRemembered | decode/dispatch.go:1411-1425 | A concrete fused failure after which the plane is still enabled. |
| Forwarding.LateBlockFailureShows | decode/dispatch.go:962-977 | A concrete late failure after which the layer attends to a zero row too many. |
| Forwarding.LateBlockFailureCounts | decode/dispatch.go:962-977 | The same in numbers, with a layer that counts its rows. |
| DecodeRuns.Decode | decode/dispatch.go:1484-1577 | A run of tokens goes from moment to moment, each made from the one before by one pass. For every n, if the first n tokens are steady at their moments (blocks that hold rows are all used, work, and are handed the slot that holds them, others do not fail late), the first n logits are those of decoding over the real history. In a run on fresh slots, with no late failure and the same slot for every token, all are steady. |
| DecodeRuns.RunInTurn | decode/dispatch.go:989-1048 | In any run whose views keep their leases, the layers of a working block with several fresh slots see, at token n, their first rows and n zero rows: none of the rows that the run has written. |
| DecodeRuns.LentSlotsRotate | decode/pool.go:709-784 | While views keep their leases, the slots of a block are handed out in turn. |
| DecodeRuns.SameSlotIff | decode/pool.go:926-1056 | A block is handed the same slot for every token exactly if outputs are copied or its pool has one slot. |
| DecodeRuns.RestoredFromZeros | decode/dispatch.go:1026-1048 | A concrete second token on another slot: its logits are those over a zero row in place of the row that the first token wrote. |
| DecodeRuns.RestoredFromZerosCounts | decode/dispatch.go:1026-1048 | The same in numbers: the sum of the tokens 10 and 20 comes out as 20. |
| DecodeRuns.BuiltSpansFit | decode/plane.go:294-399 | The spans that are built and selected are what the plane asks for: consecutive layers, none in two. |
| Spans.FullAttentionDenseOffsets | decode/plane.go:276-290 | The offsets map exactly the eligible layers, each to the number of eligible layers before it. |
| Spans.OffsetsCountUp | decode/plane.go:276-290 | In plain terms: exactly the eligible layers have an offset, offsets rise with the layers, and all are below their number. |
| Spans.FiveLayers | decode/plane.go:276-399 | Offsets and spans of five layers of which one is linear and one has experts. |
| Spans.BuildDirectSpans | decode/plane.go:369-399 | The spans are all the maximal runs of consecutive layers, each keyed by its first layer. |
| Spans.SpansPartition | decode/plane.go:369-399 | The spans cover the layers that have an offset, each once. |
| Spans.JoinedRanks | decode/plane.go:276-290 | With ranks as offsets two layers are joined exactly when both are eligible and adjacent. |
| Spans.FirstSpan | decode/plane.go:332-339 | Exactly one span has offset 0, if there are spans at all; no two share an offset. |
| Spans.SpansHoldAllEligible | decode/plane.go:401-407 | The spans together hold as many layers as are eligible. |
| Spans.DirectSpanLayerCount | decode/plane.go:401-407 | The total is the number of layers covered. |
| Spans.SelectDirectBlockSpans | decode/plane.go:294-365 | The selection contains exactly the spans that the request asks for, unchanged, request by request; a malformed list selects none. |
| Drafting.Drafter.Run | anedraftimpl/ane_draft_darwin.go:2778-2959 | After any run of prompts, speculation rounds, resets and rewinds whose check passes, with snapshots that may fail and the width cap, the active backend equals a replay of the history from reset. |
| Drafting.Drafter.Draft | anedraftimpl/ane_draft_darwin.go:2778-2836 | Drafted tokens are the active backend's greedy continuation of the history, to which the given token was added exactly unless it was its last and its logits were at hand or come back with the guard. |
| Drafting.Drafter.Rewind | anedraftimpl/ane_draft_darwin.go:2838-2895 | The history is cut by n, and the backend is its replay exactly when the snapshot check held or everything is rebuilt, for snapshot restore, position rewind and replay alike; both conditions can be checked before the call. |
| Drafting.Net.ReplayOneMore | anedraftimpl/ane_draft_darwin.go:3385-3448 | A replay of one token more is the evaluation of that token on the state after the others, for every kind of backend. |
| Drafting.Drafter.CoveredCanRewind | anedraftimpl/ane_draft_darwin.go:2820-2830 | Tokens of the latest draft can always be rewound if their snapshots were captured. |
| Drafting.Drafter.GiveBack | anedraftimpl/ane_draft_darwin.go:2838-2895 | Giving back all but some tokens of the latest draft leaves backend and history in step, the history cut to the kept ones; states exactly which next token a draft would then not feed. |
| Drafting.Drafter.Speculate | anedraftimpl/ane_draft_darwin.go:2778-2895 | A round leaves the history as it was, with the given token and the kept ones behind it; it always can if no snapshot was missed. |
| Drafting.Drafter.Session | anedraftimpl/ane_draft_darwin.go:2778-2934 | After a prompt and any rounds the drafter stands where a function of the rounds and the drafted tokens says; by that standing, each round that began with a settled token has lost it and no other has, and the history equals the accepted tokens exactly if there was no such round. |
| Drafting.SettledTokenIsLost | anedraftimpl/ane_draft_darwin.go:3370-3383 | A concrete round that begins with the last token of the prompt, which is then missing from the history. |
| Drafting.Drafter.Prefill | anedraftimpl/ane_draft_darwin.go:2897-2934 | A prefill starts over and ends in step with the prompt, or at the prefix that fits. |
| Drafting.Drafter.Reset | anedraftimpl/ane_draft_darwin.go:2936-2959 | A reset undoes the hand-over to the reference model and all counters. |
| Drafting.Drafter.RestoreDraftSnapshot | anedraftimpl/ane_draft_darwin.go:2973-2989 | The snapshot taken before the n-th last draft is restored and the stack cut to it. |
| Drafting.Drafter.RebuildState | anedraftimpl/ane_draft_darwin.go:3566-3588 | Replaying the history puts every backend where it belongs. |
| Drafting.Drafter.FeedToken | anedraftimpl/ane_draft_darwin.go:3385-3448 | A token fed keeps all active backends in step and returns the logits of the active one, or fails on a full K/V log and changes no history. |
| Drafting.Drafter.EnsureTokenState | anedraftimpl/ane_draft_darwin.go:3370-3383 | Afterwards the history ends in the token and its logits are at hand; it is fed exactly unless that was so before. |
| Drafting.Drafter.MaybeEnableReferenceOnly | anedraftimpl/ane_draft_darwin.go:3450-3503 | Without a guard, or with reference logits, nothing changes. Otherwise the drafter hands over exactly after two corrections, or after eight drafts of which fewer than one in twenty were kept, and is in step with the reference then. |
| Drafting.Drafter.MoreRewoundFiresToo | anedraftimpl/ane_draft_darwin.go:3479-3486 | Giving back more of the same drafts never keeps the drafter from handing over. |
| Drafting.Drafter.GuardBoundary | anedraftimpl/ane_draft_darwin.go:3479-3486 | At the boundary: one kept of twenty stays, one of twenty-one hands over, seven of which none was kept stay, eight hand over. |
| Drafting.Drafter.SyncReferenceState | anedraftimpl/ane_draft_darwin.go:3522-3564 | The reference is brought to a replay of the history. |
| Drafting.Reference.Rewind | anedraftimpl/ane_draft_darwin.go:3756-3782 | Trimming the cache and replaying give the same state. |
| Drafting.DraftModel.RewindDecodePosition | draft_model_darwin.go:2779-2802 | K/V runtimes drop the last rows, stateful ones refuse. |
| DraftSurfaces.Run | draft_model_darwin.go:2756-2802 | The model that the drafter drives and the K/V surfaces succeed and fail together over any run of tokens, rewinds and resets, and the surfaces hold the rows that feeding the remaining tokens from reset would write. |
| Drafting.RewindPastLatestDraft | anedraftimpl/ane_draft_darwin.go:2827-2830 | A concrete rewind past the latest draft leaves the model behind its history. |
| Speculative.ArgmaxFloat32 | draft_model_darwin.go:1034-1047 | The loop finds the first largest entry: no number exceeds it and none before it equals it; a NaN in front hides all others. |
| Speculative.FirstLargestIsUnique | draft_model_darwin.go:1034-1047 | There is one such entry. |
| Speculative.ContinuationAt | draft_model_darwin.go:2895-2929 | Each token of the greedy continuation is the target's choice after the history and the tokens before it. |
| Speculative.MergeDraftWithTargetGreedy | draft_model_darwin.go:2899-2929 | The accepted tokens are the target's choices one after the other, up to the first that the draft does not have; fails exactly on missing or empty rows that it reaches. |
| Speculative.AcceptedIsGreedy | draft_model_darwin.go:2895-2929 | What a step accepts is the target's own greedy continuation, for any draft. |
| Speculative.AcceptedIsLongest | draft_model_darwin.go:2895-2929 | It accepts one token more than the draft has in common with that continuation. |
| Speculative.SpeculationIsLossless | draft_model_darwin.go:2817-2861 | Any sequence of steps with any drafts is plain greedy decoding. |
| Speculative.SpeculativeDecoder.GenerateDraft | draft_model_darwin.go:978-1032 | k tokens within the vocabulary; of a draft model that had been fed certain tokens, its greedy continuation of them, all of which but the last it has then been fed. |
| Speculative.SpeculativeDecoder.Step | draft_model_darwin.go:2818-2861 | Whatever state the draft model is in, a step emits 1 to k+1 tokens and they are a prefix of the target's greedy continuation; a draft model that had been fed the context is ready for the next step exactly when it emitted k. |
| Speculative.SpeculativeDecoder.Decode | draft_model_darwin.go:2818-2861 | A run of steps is plain greedy decoding with the target, although the draft model is out of step after most of them; if target and draft model work, every step succeeds. |
| Speculative.StepLeavesTheDraftBehind | draft_model_darwin.go:2818-2861 | A concrete step after which the draft model is behind the output. |
| TopK.TopKSamples | anedraftimpl/ane_draft_darwin.go:3947-3977 | The samples are what the insertions give, and they are the first k of the values in stable descending order, NaN last, exactly if no NaN obstructs them. |
| TopK.KeptLeadsIff | anedraftimpl/ane_draft_darwin.go:3947-3977 | When that is so, by the values alone: k of them come before the first NaN or are greater than a number that does, or all numbers are such values. |
| TopK.NaNStaysInTheWay | anedraftimpl/ane_draft_darwin.go:3947-3977 | A concrete list in which an early NaN keeps the largest number out. |
| TopK.LeadingIsUnique | anedraftimpl/ane_draft_darwin.go:3947-3977 | That order has one such beginning. |
| TopK.BeforeMeans | anedraftimpl/ane_draft_darwin.go:3947-3977 | The order by the values: greater numbers first, NaN last, equal ones as they come. |
| TopK.LeadingNumbers | anedraftimpl/ane_draft_darwin.go:3947-3977 | Among numbers: the samples go down, and nothing that was left out is larger than anything kept. |
| KVLog.KVState.WriteLayerKV | draft_kv_state_darwin.go:275-303 | Writes one row at the position of one layer, entry for entry, and no other row of any layer; fails exactly on a bad layer, a full log or a bad row length. |
| KVLog.KVState.CellAt | draft_kv_state_darwin.go:275-303 | Entry c of the row at position p is entry p * rowSize + c of the surface. |
| KVLog.KVState.Append | draft_kv_state_darwin.go:275-317 | Write and advance appends to the layer's log and leaves everything beyond blank. |
| KVLog.KVState.Rewind | draft_kv_state_darwin.go:330-355 | Clears exactly the rows between the new and the old position. |
| KVLog.KVState.Reset | draft_kv_state_darwin.go:320-377 | Clears exactly the rows below the position. |
| KVLog.KVState.Truncate | draft_kv_state_darwin.go:330-377 | A rewind truncates every log; what lies beyond is blank exactly when nothing had been written without advancing. |
| KVLog.DirtyRowSurvives | draft_kv_state_darwin.go:339-341 | A concrete row that stays behind. |
| KVLog.DecodeModel.ConfigureKVState | draft_model_darwin.go:1767-1791 | Positions agree after configuring exactly when nothing had been decoded. |
| KVLog.ConfiguredInMidRun | draft_model_darwin.go:1767-1791 | A concrete K/V state that is configured after a token and out of step. |
| KVLog.DecodeModel.AdvanceDecodePosition | draft_model_darwin.go:2756-2776 | Both positions advance or neither; whether they agree does not change. |
| KVLog.DecodeModel.RewindDecodePosition | draft_model_darwin.go:2779-2802 | Both go back; the exact condition under which they agree afterwards. |
| KVLog.DecodeModel.Reset | draft_model_darwin.go:1407-1430 | Brings any two positions back in step. |
| KVLog.DecodeModel.WriteMask | draft_model_darwin.go:1867-1914 | Entry by entry: 0 for the rows below the position and for the current slot, -10000 for all others, head after head; in lockstep the open rows are those of the log. Succeeds exactly if the surface has that size. |
| KVLog.FirstMasks | draft_model_darwin.go:1867-1914 | The masks of a first and a second token. |
| KVLog.DecodeModel.DecodeToken | draft_model_darwin.go:889-936 | A token on the K/V plan opens the log, appends its row and keeps the lockstep, or changes no log. |
| KVLog.DecodeModel.Run | draft_model_darwin.go:2756-2802 | Any run of tokens, rewinds and resets refines truncating list operations, in lockstep and with nothing left beyond the log. |
| Float16.EncodesToNearest | linear_weights.go:40-79 | The blob encoder keeps sign and NaN and rounds every other magnitude into the half-open interval of its pattern. |
| Float16.RoundsToIsNearest | linear_weights.go:40-79 | That interval is round to nearest with ties away from zero (IEEE 754-2008, section 4.3.1). |
| Float16.OverflowBound | linear_weights.go:56-59 | Infinity is reached at 65520 and not before. |
| Float16.EncodesByTruncation | surface_layout_io_darwin.go:201-215 | The surface encoder truncates towards zero, flushes below 2^-14, gives infinity beyond the range and for NaN. |
| Float16.Fp16ToFloat32 | surface_layout_io_darwin.go:217-239 | Every pattern is decoded to exactly its value, field by field, subnormal ones through an exponent that wraps below zero. |
| Float16.RoundTrips | surface_layout_io_darwin.go:201-239 | For every pattern: which of the two encoders give it back after decoding. |
| Float16.CodecsDisagree | surface_layout_io_darwin.go:201-215 | Between 65520 and 65536 one codec saturates and the other does not. |
| Float16.WhereTheyDiffer | surface_layout_io_darwin.go:201-215 | 65520, the smallest positive pattern and a NaN, through both encoders. |
| Float16.ExactNumbers | surface_layout_io_darwin.go:201-215 | Numbers that binary16 has in full, by either encoder: sign, exponent less 112, upper ten bits of the fraction. |
| Float16.SmallNumbers | linear_weights.go:60-71 | 2^-24, half of it and the number below that, through both encoders. |
| Float16.BuildBLOBFileFP16 | linear_weights.go:82-104 | The blob has 128+2n bytes: both headers, then every weight encoded in order. |
| Float16.BlobBytes | linear_weights.go:82-104 | That blob byte by byte. |
| Float16.BuildLinearWeightsBlob | linear_weights.go:24-37 | Fails exactly on bad dimensions or a length that does not match them. |
| Surfaces.Layout.SoundIffRowsFit | compiled_layout_darwin.go:44-67 | All elements lie in the allocation and apart from one another exactly when the rows fit. |
| Surfaces.RowsOverlap | compiled_layout_darwin.go:44-67 | A concrete layout that passes `valid` and puts two elements at one offset. |
| Surfaces.Layout.InBounds | surface_layout_io_darwin.go:189-199 | Offsets of a fitting layout are in bounds. |
| Surfaces.Layout.Disjoint | surface_layout_io_darwin.go:189-199 | Different logical indices have disjoint bytes. |
| Surfaces.Layout.ElementAt | surface_layout_io_darwin.go:189-199 | Logical indices run over rows, then channels, then columns; the place of each in strides. |
| Surfaces.Shape.FlatAt | surface_layout_io_darwin.go:189-199 | The element of the flat view at channel, row and column is the bytes at that place. |
| Surfaces.Surface.WriteAt | surface_layout_io_darwin.go:52-104 | Under every layout: which ranges are rejected, which run out of the allocation, and the memory that the others leave; if the rows fit, every range within the count goes through, and exactly that range of the flat view changes, to the encoded data. |
| Surfaces.Surface.Write | surface_eval_plan_darwin.go:115-134 | The same for the whole surface; if the rows fit, the flat view is the encoded data. |
| Surfaces.Surface.ReadAt | surface_layout_io_darwin.go:114-166 | Under every layout: which ranges are rejected, which run out of the allocation, and that the others return what the elements read as. |
| Surfaces.Surface.ReadMeans | surface_layout_io_darwin.go:114-166 | What is returned for a channel, row and column is the little-endian word, or the value of the binary16, at its place. |
| Surfaces.SplatIsWritten | surface_layout_io_darwin.go:83-104 | With a place for every element, writing a range one by one replaces exactly that range of the flat view. |
| Surfaces.WritesHoldIffRowsFit | compiled_layout_darwin.go:44-67 | Of the valid layouts exactly those whose rows fit keep, in every element, whatever is written to the whole surface. |
| Surfaces.ReadAfterWrite | surface_eval_plan_darwin.go:137-251 | 4-byte elements read back as written, 2-byte ones as the value they were truncated to. |
| Surfaces.LittleEndian | surface_layout_io_darwin.go:83-104 | Elements are little-endian, whole words or what the encoder gives. |
| Surfaces.Surface.ZeroFill | surface_layout_io_darwin.go:168-187 | Clears the allocation and no byte beyond it, under every valid layout. |
| Surfaces.CompactOutput | decode_plane_register_darwin.go:211-233 | Afterwards a linear reader at the base finds the strided contents; exactly when it fails and when it runs out of the allocation, with memory and locks as before. |
| PackedLinear.PackInto | linear_dynamic_mil.go:187-234 | The packed tensor holds the rows of x and w filled up with zeros, on the fast path and the padded one, whatever the buffer held; a longer buffer keeps what lies beyond. |
| PackedLinear.PackedAt | linear_dynamic_mil.go:187-234 | The packed tensor entry by entry: x with zeros to the right, below it w with zeros to the right and below. |
| PackedLinear.ProgramOnPacked | linear_dynamic_mil.go:110-126 | The program on the padded tensor gives the entries of x times w transposed, over any numbers where a product of zeros adds nothing. |
| PackedLinear.Ops.DotOneMore | linear_dynamic_mil.go:110-126 | A dot product grows by the product of the two cast numbers, added at the end. |
| PackedLinear.TwoByTwo | linear_dynamic_mil.go:110-126 | A product of two by two matrices in numbers. |
| PackedLinear.UnpackInto | linear_dynamic_mil.go:244-278 | Unpacking keeps the first columns of every row. |
| PackedLinear.DynamicLinearModel.EvalInto | adapter_apple_private_dynamic_linear_darwin.go:44-111 | Pack, run, unpack is x times w transposed for all sizes, however often the model is reused; exact failure condition of the layout. |
| PackedLinear.AlignDimUp | linear_dynamic_mil.go:280-289 | The least multiple that is large enough. |
| Heads.SameHeadMap | decode/dispatch.go:1133-1148 | With whole groups the weight expansion and the state expansion use the same KV head for every head. |
| Heads.ServesGroup | decode/dispatch.go:1133-1148 | With whole groups each KV head serves one group of consecutive heads. |
| Heads.FiveHeadsOverTwo | anedraftimpl/ane_draft_darwin.go:2142-2177 | Five heads over two KV heads: the first serves three, the second two. |
| Heads.ExpandRightAlign | decode/dispatch.go:1128-1151 | Every head's row is its KV head's row at the right end behind zeros; nothing but zeros without whole groups. |
| Heads.DirectBlockState | decode/dispatch.go:1076-1124 | A longer cache contributes exactly its last positions. |
| Heads.ExpandGQAProjectionRows | anedraftimpl/ane_draft_darwin.go:2142-2177 | Row d of every head is row d of the KV head it uses; fails exactly on bad dimensions or length. |
| Heads.ExpandedAt | anedraftimpl/ane_draft_darwin.go:2142-2177 | The same entry by entry, in plain indices. |
| Heads.TransposeRowMajor | decode_plane_register_darwin.go:379-387 | Entry (r, c) goes to (c, r). |
| Heads.TransposedAt | decode_plane_register_darwin.go:379-387 | In plain indices: entry c * rows + r of the result is entry r * cols + c. |
| Heads.LinearInputHostToANE | adapter_apple_private_darwin.go:337-358 | Row b, column i goes to i, b; a batch of one is copied; fails exactly on bad dimensions or length. |
| Heads.LinearOutputANEToHost | adapter_apple_private_darwin.go:360-381 | The way back, with the same failures. |
| Heads.LayoutRoundTrip | adapter_apple_private_darwin.go:337-381 | To the ANE layout and back is the identity, for every size that is accepted. |
| WeightFile.Builder.Build | espresso_gen_transformer.go:101-153 | The file is the header and the stored bytes of all slots; fails exactly without slots. |
| WeightFile.Builder.AddLinear | espresso_gen_transformer.go:80-87 | Four slots in order: bias descriptor, bias, weight descriptor, weights; the ids of both descriptors point to the slots with the bias and the weights. |
| WeightFile.DescribesStays | espresso_gen_transformer.go:93-99 | That remains so whatever slots are added later. |
| WeightFile.OneCycle | espresso_gen_transformer.go:93-99 | The ids form one cycle through all slots. |
| WeightFile.FileReadsBack | espresso_gen_transformer.go:101-153 | Count, sizes, ids and every slot's bytes can be read back from the file. |
| WeightFile.FileDeterminesSlots | espresso_gen_transformer.go:101-153 | Two slot lists with the same file have the same sizes and stored bytes. |
| WeightFile.OneSlotFile | espresso_gen_transformer.go:101-153 | A file of one slot, byte by byte, and ids and offsets in numbers. |
| WeightFile.PayloadOffset | espresso_gen_ffn.go:93-99 | The payload starts 64-aligned past the table, so the length check never fails. |
| Hooks.Run | nnhook.go:108-147 | Sessions installed and restored in any order, restores repeated: the stack is the live sessions in order, the mode that of the latest that set one, and the original hook and mode are back when none is left. |
| Hooks.Manager.Remove | nnhook.go:124-145 | Takes out one session wherever it stands and keeps the others in order. |
| Hooks.Manager.Dispatch | nnhook.go:149-176 | The latest session answers, and only if it declines the hook that was there before. |
| Hooks.Manager.ApplyTopMode | nnhook.go:178-188 | The loop finds the mode of the latest session with one. |
| Routing.LinearMACs | routing.go:195-210 | The 64-bit loop-free count is exact or refused, never wrapped. |
| Routing.MACsOverflow | routing.go:195-210 | For proper dimensions it is refused exactly when it exceeds 64 bits. |
| Routing.DecideLinear | routing.go:154-186 | Admission is one condition on shape, budget and work; every reason says what is wrong, with all that is asked before it in order, and tells a predicted hit. |
| Routing.Runtime.Linear | runtime.go:71-135 | The predicted hit is the executor's hit, and only an admitted miss that compiles adds to the cache. |
| Routing.Runtime.Run | runtime.go:172-207 | Any sequence of calls keeps the cache within the budget. |
| Routing.PaddingAligns | routing.go:162-166 | The router takes all numbers of channels exactly if the multiple it asks for divides 16. |
| Routing.OneChannelPasses | routing.go:162-166 | A single channel passes for a multiple of 16. |
| Profiles.ParseProfiles | compile_fallback_profiles.go:32-63 | The loop with its set of keys computes the parse: it fails exactly on a part without a colon, and otherwise every part that is not blank is in the list, by its two names. |
| Profiles.ParseReturns | compile_fallback_profiles.go:32-73 | What a parsed list looks like: clean fields, no key twice. |
| Profiles.PartsOutcome | compile_fallback_profiles.go:41-61 | For any parts and any list so far: when parsing fails, and that no part is lost otherwise. |
| Profiles.PrintedForm | compile_fallback_profiles.go:20-30 | The printed form of lists, and the words for an empty field that parsing takes back. |
| Profiles.RoundTrip | compile_fallback_profiles.go:20-73 | Printing a parsed list and parsing it again gives the same list. |

## Left out

- LeasePool.Stage.AcquireSlot: lease numbers are unbounded here, the wrap-around of the 64-bit counter after 2^64 leases is not modelled.
- LeaseProtocol.BlockedOnlyByUnlockable: one pool and dispatches of one stage; a run that is inside a slot may wait for another pool, which `FanOut` models.
- LeaseProtocol.DrainsToAllFree: one pool, and every run unlocks its slot; several pools and mutexes that a dispatch leaves held are in `FanOut`.
- FanOut.EveryScheduleDrains: the pools of a dispatch are distinct, as the experts of one token are; release callbacks that are called twice are steps of `LeaseProtocol` only.
- FanOut.TwoPoolsBlockIff: for three pools and more only that one common order is enough; which other orders are depends on the depths.
- Forwarding.DirectSlot.Sync: that a restored block holds the rows of its caches, whatever the layout of its state, is taken from foreign code; the state of a block that is given up is not followed.
- Forwarding.Plane.WholePass: for planes whose blocks share no layer, as all that are built (`DecodeRuns.BuiltSpansFit`); a block that is given up has no state any more.
- DecodeRuns.Decode: asks for a cache for every layer, and that no block is at the length of the caches by chance before it has seen any of their rows.
- Forwarding.Plane.RunBlock: that a compiled stage or block computes the layers it was built from is taken from foreign code.
- Forwarding.Plane.LayerForward: dtypes and casts, and the weighted combination of MoE experts, which is part of what an MoE layer computes.
- Drafting.Drafter.FeedToken: reference steps, embedding lookups and evaluations of a stateful model are taken to succeed.
- Drafting.Drafter.Run: resets are taken to succeed; timing, taps output and the environment switches are not modelled, and neither is a model that is stateful and has K/V surfaces at once.
- Speculative.SpeculativeDecoder.Step: a closed draft model, and draft runtimes that keep no state between tokens.
- KVLog.DecodeModel.Run: one layer is written per token, as the source does; surfaces that are closed, and writes that fail in the middle of a layer, are not modelled.
- Surfaces.Surface.WriteAt: says nothing about the memory after an access outside the allocation, which panics; a 4-byte element that begins inside and ends outside counts as outside.
- Surfaces.Surface.ReadAt: lock failures of the surface itself.
- Float16.EncodesToNearest: the words of the source are modelled by arithmetic on natural numbers, not by bit vectors.
- Heads.ExpandRightAlign: asks for a source of the stated size that is no longer than the state, as its only caller provides; the bias expansion uses the same head map and has no member of its own.
- WeightFile.Builder.Build: sizes are unbounded; reading back asks that they be 64-bit words.
- Hooks.Run: what other packages do to the global hook and mode while sessions are installed.
- Routing.Runtime.Run: one router and forward calls only; a training router and the backward pass have routes of their own.
- Profiles.RoundTrip: white space and lower case are parameters with the few properties that are used, not the tables of Unicode.
- Objective-C, Metal, IOSurface, ANE compile and evaluate calls, protobuf and MLX tensor operations: foreign code.
- MIL and Espresso texts, except for the slices and the product of the packed program.
- RoPE tables, model reflection, environment variables, tracing, statistics, presets, command-line tools and the stage registration that repeats the decode plane: no logic of their own to prove.
- The offsets of the fused FFN weight file: its header overlaps a bias area that only holds zeros.
