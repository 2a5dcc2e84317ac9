# Flint, verified

A Dafny 4.11 model of the parts of Flint where a mistake loses data, shrinks a device or breaks a document, with proofs
of what they promise. `dafny verify dfyconfig.toml` checks everything.

## What is modelled

**Epochs** (`SyncRecord`, `EpochMachine`, `EpochScheduler`, `EpochNames`). A replicated volume is periodically
snapshotted on every in-sync leg under a common epoch name, so that a stale leg can be reverted to an epoch and caught up
from a survivor's newer layers. `EpochMachine` is the volume as a state machine: writes, legs failing, record updates,
snapshots, deletions, retirement, in any interleaving. `EpochScheduler.Cluster` is the scheduler's own code over that
machine: before every RPC the others may act, and the RPC may be answered, lose its reply, not arrive, or find the
process dead. Everything the class does is a run of the machine, so the theorems over all runs hold of it, aborted cuts,
failed rollbacks, crashes and adopted leftovers included.

**Freshness** (`FreshnessGate`, `DeferLoop`, `ServingLegs`). The gate decides whether an assembly that misses a leg of
the last serving set proceeds, waits or serves with risk. `ServingLegs` runs it over writes, leg failures, record marks,
admissions and assemblies, with the writers the driver corroborates below two bases and the stale legs it may force in;
`DeferLoop` runs the deadline bookkeeping around it.

**Leg sizes** (`LegSizeGuard`, `Expand`, `DeviceFloor`). Expanding a replicated volume resizes each leg and records the
grow in an annotation; assembly serves the largest cohort at or above that floor. `DeviceFloor` composes both over runs
of partial expands, retries and reassemblies.

**Metafiles** (`EmfBytes`, `EmfValidator`, `EmfReplay`, `EmfFile`, `EmfWriter`, `EmfPage`). The Enhanced Metafile back
end: a writer that de-duplicates objects and skips redundant selects, and a validator that walks the bytes. `EmfReplay`
is an independent consumer after MS-EMF. A page's bytes are accepted and replay to the page.

**View census** (`Census`, `CensusScan`, `StripComments`). A script that is meant to make a model checker's state view
sound by looking at the text of a specification. Actions are expressions with a meaning, the rule is a predicate on them,
the scan that attributes a position to an assignment is proved to find what the rule says it does.

**Smaller loops** (`Layout`, `Reap`, `BlockBind`). Greedy wrapping and segment clipping; striking dead controllers; the
bounded bind loop. `Text`, `Outcomes`, `Arithmetic` and `Sequences` hold what they share.

## What the code does not promise after all

Each of these is a property its documentation states or suggests that fails; the lemma named gives the failing run, and
the exact condition is proved beside it.

- The defer deadline re-arms only on a strict shrink of the stored missing set, but the driver rewrites that set on every
  carry, so a set that flips between two legs and one re-arms for ever (`TreadmillOutlasts`). The bound holds if and only
  if the wait is zero, retries never move on in time, or no missing set the outage can show is a strict part of another
  (`DeferBoundedIffAntichain`).
- An acknowledged write can be lost without `ServeWithRisk`: a leg excluded for its size counts as present
  (`SizeExclusionLosesSilently`), the record write of an assembly may be lost (`LostStampLosesSilently`), and a leg that
  dropped out unnoticed may be assembled again beside the complete one (`TrailingLegLosesSilently`). Runs that permit any
  of these, or the surfaced risk, can lose a write, and runs that permit none cannot (`LossFreeIffNothingPermitted`).
- The device floor records the bytes requested, not the rounded size. No run serves a smaller device if and only if all
  legs round alike (`NeverShrinksIffUniform`); one grow missing from the annotation breaks it (`LostStampShrinks`).
- A retry of a partial expand with a smaller size passes the capacity guard and shrinks a leg (`SmallerRetryShrinks`);
  the exact condition is `FanOutShrinksExactly`.
- The newest common epoch is not always a base to catch up from (`LateBaseLosesAWrite`); `RebuildsExactly` says when one
  is, and an epoch recorded before the leg dropped out always is (`BackedOffBaseRebuilds`).
- Text outside the Basic Multilingual Plane is cut short in a metafile: the record counts code points where a reader
  counts UTF-16 units (`ShownWholeIffBasic`).
- The census accepts a kept field assigned at an index that reads a dropped one, one assigned from a dropped field at an
  index that has a bracket of its own, and primed reads (`DirtyIndexIsAccepted`, `NestedIndexIsAccepted`,
  `PrimedReadIsAccepted`). An accepted module meets the rule as its header states it if and only if it has none of these
  (`SoundIffNotBlind`), and then the view is a bisimulation (`ViewSearchDecides`).

## Model

| member | source | states |
|---|---|---|
| EpochMachine.StepInv | spdk-csi-driver/src/epoch_scheduler.rs:10-22 | every step, by the scheduler or beside it, keeps the invariant: heads and snapshots hold exactly the writes received by their time, recorded cuts ascend in time, the record is ordered and its newest entry current, retained epochs are present |
| EpochMachine.RunInv | spdk-csi-driver/src/epoch_scheduler.rs:10-22 | the invariant holds after every run from an initial volume |
| EpochMachine.EpochsAreOrdered | spdk-csi-driver/src/epoch_scheduler.rs:10-17 | over every run, each leg's cut of a newer epoch is later than each leg's cut of an older one, whatever was aborted, left over, adopted or lost in a crash |
| EpochMachine.RebuildsExactly | spdk-csi-driver/src/epoch_scheduler.rs:10-17 | reverting a leg to an epoch and copying a survivor's layers from it on gives every acknowledged write, if and only if none landed after the leg dropped out and before an older epoch was cut on the survivor |
| EpochMachine.BackedOffBaseRebuilds | spdk-csi-driver/src/epoch_scheduler.rs:10-17 | so an epoch recorded before the leg dropped out always rebuilds everything |
| EpochMachine.LateBaseLosesAWrite | spdk-csi-driver/src/epoch_scheduler.rs:10-17 | a run after which the newest epoch on both legs is no base: an acknowledged write is lost |
| EpochMachine.RetainedEpochsArePresent | spdk-csi-driver/src/epoch_scheduler.rs:333-352 | over every run, each epoch in the record stands on every leg it was recorded for, every replica still in sync is among them, and the next number lies beyond every epoch ever recorded |
| EpochMachine.PinnedEpochStays | spdk-csi-driver/src/replica_sync.rs:1008-1035 | over every run in which the pin does not move, a recorded epoch the pin holds stays in the record and on its legs |
| EpochMachine.NextIsLatest | spdk-csi-driver/src/replica_sync.rs:1093-1099 | the next number is one more than the newest in the record, also after retirement |
| SyncRecord.RetireKeeps | spdk-csi-driver/src/replica_sync.rs:1181-1209 | retirement keeps the current epoch, the pinned one and everything newer, adds nothing and keeps the order |
| SyncRecord.LatestSeq | spdk-csi-driver/src/replica_sync.rs:1093-1099 | an upper bound of the recorded numbers that is itself recorded, or 0 |
| EpochNames.NamesAreStrict | spdk-csi-driver/src/replica_sync.rs:1236-1243 | an epoch name is read back as its number by its own volume and by no other |
| EpochScheduler.PlanExactlyWhenDue | spdk-csi-driver/src/epoch_scheduler.rs:143-198 | a cut is planned if and only if the volume is attached, some in-sync replica can be addressed and the cadence is due |
| EpochScheduler.PlanCutIsExact | spdk-csi-driver/src/epoch_scheduler.rs:143-198 | a plan names an unrecorded epoch and targets exactly the in-sync replicas, each by its live head |
| EpochScheduler.PlanNamesNext | spdk-csi-driver/src/epoch_scheduler.rs:143-198 | in a reachable volume the planned number is the next one and the plan covers every in-sync replica |
| EpochScheduler.RetentionLeavesATail | spdk-csi-driver/src/epoch_scheduler.rs:203-209 | one retention pass leaves a tail of the list: the newest epochs kept, and before them only what the pin holds, an unreadable pin holding everything |
| EpochScheduler.GcCandidates | spdk-csi-driver/src/epoch_scheduler.rs:339-352 | exactly the found epochs strictly older than the oldest retained one |
| EpochScheduler.TrailIsARun | spdk-csi-driver/src/epoch_scheduler.rs:416-486 | whatever the cluster object has done is a run of the machine |
| EpochScheduler.Cluster.SnapshotRpc | spdk-csi-driver/src/epoch_scheduler.rs:234-265 | a snapshot reported done was created by this call from the leg's head, one reported existing stood before, nothing else moved and nothing that stood is gone |
| EpochScheduler.Cluster.DeleteRpc | spdk-csi-driver/src/epoch_scheduler.rs:268-284 | the snapshot is gone or the call failed; nothing else moved |
| EpochScheduler.Cluster.ExecuteCut | spdk-csi-driver/src/epoch_scheduler.rs:234-265 | recorded only if the epoch stands on every target; touches nothing but its own epoch on its targets; with every node answering it is always recorded, whatever an earlier rollback left behind |
| EpochScheduler.Cluster.CutEach | spdk-csi-driver/src/epoch_scheduler.rs:234-258 | every target is tried, and the ones reported as cut hold the epoch |
| EpochScheduler.Cluster.RollbackCut | spdk-csi-driver/src/epoch_scheduler.rs:268-284 | touches only its own epoch on its targets; with every node answering none of them holds it after |
| EpochScheduler.Cluster.ExecuteCutStrict | spdk-csi-driver/src/epoch_scheduler.rs:303-331 | recorded only if this call created the snapshot on every target, and always when every node answers and the name stands on none; nothing that stood before is deleted, aborts included |
| EpochScheduler.Cluster.ExecuteGc | spdk-csi-driver/src/epoch_scheduler.rs:358-412 | deletes only epochs older than the oldest retained one; with every node answering none is left on any replica |
| EpochScheduler.Cluster.ReapOn | spdk-csi-driver/src/epoch_scheduler.rs:390-411 | deletes candidates only, and all of them when answered |
| EpochScheduler.Cluster.RecordEpoch | spdk-csi-driver/src/replica_sync.rs:1157-1172 | the record write adds exactly this epoch; legs do not move |
| EpochScheduler.Cluster.RetireFromRecord | spdk-csi-driver/src/epoch_scheduler.rs:469-482 | the record write only trims; legs do not move |
| EpochScheduler.Cluster.RunEpochCycle | spdk-csi-driver/src/epoch_scheduler.rs:416-486 | at most one epoch is recorded; a pass that records none adds nothing to the record; with every call answered, whatever others do meanwhile, the pass succeeds and records what is due over reachable targets by the record it loaded |
| FreshnessGate.ProgressIsStrictShrink | spdk-csi-driver/src/freshness_gate.rs:239-255 | on duplicate-free lists a change is progress exactly when the missing set strictly shrinks |
| FreshnessGate.DeferMarkerRoundTrips | spdk-csi-driver/src/freshness_gate.rs:257-274 | parsing undoes encoding up to sorting, for exactly the fields the separators leave alone |
| FreshnessGate.RiskMarkerOutlivesTheLoss | spdk-csi-driver/src/freshness_gate.rs:190-218 | a raised marker clears exactly when no flagged leg is a member outside the writer set |
| DeferLoop.DeferralIsBounded | spdk-csi-driver/src/driver.rs:2534-2657 | an outage of deferrals lasts at most one bound plus one for each re-arming |
| DeferLoop.KeptSetBoundsDeferral | spdk-csi-driver/src/freshness_gate.rs:239-255 | were the stored set moved only with the deadline, the outage would be bounded by its first size, however the missing set oscillates |
| DeferLoop.TreadmillOutlasts | spdk-csi-driver/src/driver.rs:2565-2577 | with the set rewritten on every carry, a set flipping between two values outlasts any bound, for every wait of a second or more |
| DeferLoop.NoWaitIsBounded | spdk-csi-driver/src/driver.rs:2534-2657 | with no wait only strict shrinks defer, so every outage is bounded |
| DeferLoop.DeferBoundedIffAntichain | spdk-csi-driver/src/driver.rs:2534-2657 | the driver's loop stays bounded if and only if the wait is zero, retries never move on, or no missing set the run can show is a strict part of another |
| ServingLegs.ProceedKeepsTheWriters | spdk-csi-driver/src/driver.rs:2363-2500 | of a last serving set on record, an assembly by `Proceed` leaves out exactly the legs excluded for their size |
| ServingLegs.NoSilentLoss | spdk-csi-driver/src/freshness_gate.rs:10-16 | over every run with the gate enabled and none of the four hazards, every serving leg holds every acknowledged write and is on record as a writer |
| ServingLegs.LossFreeIffNothingPermitted | spdk-csi-driver/src/freshness_gate.rs:10-16 | runs that permit some of the four hazards never lose an acknowledged write if and only if they permit none |
| ServingLegs.RiskedTailIsLost | spdk-csi-driver/src/freshness_gate.rs:142-155 | a run whose only hazard is a surfaced risk, and a write is lost |
| ServingLegs.StepSafe | spdk-csi-driver/src/driver.rs:2363-2500 | a step that is none of those four hazards keeps every serving leg complete and a recorded writer |
| ServingLegs.SizeExclusionLosesSilently | spdk-csi-driver/src/driver.rs:2449-2454 | a run whose only hazard is that the leg-size belt drops a recorded writer, and a write is lost |
| ServingLegs.LostStampLosesSilently | spdk-csi-driver/src/driver.rs:3099-3210 | a run of three legs whose only hazard is that an assembly's record write is lost, with two bases attached in every assembly, and a write is lost |
| ServingLegs.TrailingLegLosesSilently | spdk-csi-driver/src/driver.rs:2158-2231 | a run whose only hazard is that a leg that dropped out unnoticed is assembled again, and a write is lost |
| LegSizeGuard.AppliedDecodes | spdk-csi-driver/src/leg_size_guard.rs:73-96 | folding any grows into the annotation decodes to the largest size and the sorted union of uuids |
| LegSizeGuard.AppliedIsOrderFree | spdk-csi-driver/src/leg_size_guard.rs:73-96 | two sequences of the same grows, in any order and with any repetition, give the same annotation |
| LegSizeGuard.FloorOf | spdk-csi-driver/src/leg_size_guard.rs:98-107 | the floor is the larger of the capacity and the largest recorded grow |
| LegSizeGuard.FloorCoversEveryGrow | spdk-csi-driver/src/leg_size_guard.rs:98-107 | the floor is at or above every recorded grow and the capacity, if there is one |
| LegSizeGuard.PartitionLegs | spdk-csi-driver/src/leg_size_guard.rs:132-177 | keeps exactly the largest cohort and the unmeasured legs, excludes exactly the shorter ones, and serves nothing if even the largest is below the floor |
| Expand.FanOutResizes | spdk-csi-driver/src/expand.rs:124-156 | whatever answers, a leg the resize reached ends at the rounded request and every other stays as it was |
| Expand.FanOutShrinksExactly | spdk-csi-driver/src/expand.rs:124-156 | no leg shrinks if and only if none that is reached is larger than the rounded request |
| Expand.NeverShrinks | spdk-csi-driver/src/expand.rs:77-156 | over any attempts whose requests never decrease no leg ever shrinks, whatever part of each takes effect |
| Expand.SmallerRetryShrinks | spdk-csi-driver/src/expand.rs:77-122 | two calls of `ExpandReplicated`: a partial grow, then a smaller retry that passes the capacity guard, succeeds and leaves a leg smaller than it was |
| Expand.Volume.ResizeLeg | spdk-csi-driver/src/main.rs:710-760 | told it worked, the leg is at the rounded request; told it did not, it is there or where it was; no other leg moves and the annotation gains at most this grow |
| Expand.Volume.ExpandReplicated | spdk-csi-driver/src/expand.rs:61-165 | refused by the sync belt or the capacity guard it touches nothing; otherwise it fans out over live uuids, and with every node answering all legs end at the requested size |
| Expand.Volume.ResizeAll | spdk-csi-driver/src/expand.rs:124-156 | the fan-out loop equals the fan-out over the live uuids, and reports exactly the legs that did not answer |
| Expand.Volume.LaggingLegs | spdk-csi-driver/src/replica_sync.rs:1481-1496 | exactly the replicas the record does not call in sync |
| DeviceFloor.UniformNeverShrinks | spdk-csi-driver/src/leg_size_guard.rs:56-107 | with equal rounding and every grow recorded, no run of partial expands, retries and reassemblies over any subset of legs serves a device, as large as its smallest leg at every moment, smaller than one seen |
| DeviceFloor.NeverShrinksIffUniform | spdk-csi-driver/src/leg_size_guard.rs:56-107 | that no such run exists holds if and only if all legs round every size alike |
| DeviceFloor.UnevenRoundingShrinks | spdk-csi-driver/src/minimal_disk_service.rs:466-501 | two legs that round a request differently give a run that serves a smaller device |
| DeviceFloor.LostStampShrinks | spdk-csi-driver/src/main.rs:721-757 | a grow missing from the annotation gives such a run even with equal rounding |
| DeviceFloor.LvolSizeRounds | spdk-csi-driver/src/minimal_disk_service.rs:466-501 | rounding to MiB and then to clusters of whole MiB goes up, keeps order and is stable |
| DeviceFloor.EqualClustersNeverShrink | spdk-csi-driver/src/minimal_disk_service.rs:466-501 | so legs whose lvstores share one cluster size of whole MiB never serve a smaller device |
| EmfBytes.WordsRoundTrip | docs/architecture/vsdxemf.py:84-93 | parsing little-endian words undoes packing them |
| EmfBytes.RecordIsWords | docs/architecture/vsdxemf.py:84-88 | a record of whole words is its type, its own length in bytes and its payload |
| EmfValidator.ValidateEmf | docs/architecture/vsdxemf.py:329-388 | no problem is reported if and only if the data is a file: sized records, handles created before they are selected, counts in the header right, one end record, last |
| EmfValidator.CheckRecord | docs/architecture/vsdxemf.py:362-377 | one record's checks pass exactly when the record is in order, and the top handle is kept |
| EmfValidator.AcceptedShape | docs/architecture/vsdxemf.py:329-388 | accepted bytes split into records with the header first and exactly one end record, last |
| EmfFile.WholeIsFile | docs/architecture/vsdxemf.py:219-235 | an ordered body under a header with the right counts is a file, replays to what the body plays, and states the page's size |
| EmfFile.DepictsOneThing | docs/architecture/vsdxemf.py:349-379 | bytes split into records in only one way, so a file replays to only one picture |
| EmfWriter.GeometryRoundTrips | docs/architecture/vsdxemf.py:185-203 | every rectangle, rounded rectangle, ellipse and polygon is read back as it was drawn |
| EmfWriter.ObjectRoundTrips | docs/architecture/vsdxemf.py:127-166 | every pen and brush is read back as its colour, width and style, every font as its height, weight and face |
| EmfWriter.ShownWholeIffBasic | docs/architecture/vsdxemf.py:205-216 | the text a reader gets is the whole string if and only if every character is in the Basic Multilingual Plane |
| EmfWriter.TextRecordIsWords | docs/architecture/vsdxemf.py:205-216 | the padded text record is the words a reader splits it into |
| EmfWriter.StringReads | docs/architecture/vsdxemf.py:205-216 | a text record's string is found at its offset and its first counted units are read back |
| EmfWriter.Least | docs/architecture/vsdxemf.py:96-99 | the least coordinate of a non-empty list |
| EmfWriter.Greatest | docs/architecture/vsdxemf.py:96-99 | the greatest coordinate of a non-empty list |
| EmfWriter.Emf.constructor | docs/architecture/vsdxemf.py:103-111 | an empty body that plays to nothing |
| EmfWriter.Emf.Handle | docs/architecture/vsdxemf.py:118-166 | the handle stands for the object of the key, made once; every earlier handle stands for what it did; a font's height is the first asked for under its key |
| EmfWriter.Emf.SelectTool | docs/architecture/vsdxemf.py:168-172 | after it a consumer has this tool selected in the slot, whether a record was written or skipped |
| EmfWriter.Emf.SetText | docs/architecture/vsdxemf.py:175-182 | after it a consumer has this colour and alignment, whether records were written or skipped |
| EmfWriter.Emf.DrawShape | docs/architecture/vsdxemf.py:185-203 | a consumer draws exactly this shape with the pen and brush in force |
| EmfWriter.Emf.DrawText | docs/architecture/vsdxemf.py:205-216 | a consumer draws exactly this text with the font, colour and alignment in force |
| EmfWriter.Emf.Bytes | docs/architecture/vsdxemf.py:219-235 | the bytes are accepted, replay to every call asked for and state the page's size; packing raises exactly for too many objects or too long a file |
| EmfPage.DrawArrow | docs/architecture/vsdxemf.py:262-277 | a line with its pen and no fill, then each head with that pen and the line's colour as fill |
| EmfPage.DrawBox | docs/architecture/vsdxemf.py:279-303 | an outline or its paths, each with the shape's pen and brush or none, and nothing for a shape without both |
| EmfPage.DrawRuns | docs/architecture/vsdxemf.py:305-308 | each run in its font, colour and alignment |
| EmfPage.PageEmf | docs/architecture/vsdxemf.py:250-310 | for every list of shapes the bytes are accepted and replay to the page, call by call, under the tools each shape asks for; bytes come out unless the page needs 65535 objects or four gigabytes |
| Census.SoundIffNotBlind | lean/formal/view-census.py:4-18 | an accepted module meets the rule of the script's header if and only if it has none of the three blind spots |
| Census.Bisimulation | lean/formal/view-census.py:4-7 | under that rule view-equal states enable the same actions and have view-equal successors |
| Census.SearchIsComplete | lean/formal/view-census.py:4-7 | every reachable state looks like one a search by view kept |
| Census.ViewSearchDecides | lean/formal/view-census.py:4-18 | such a search meets exactly the views of the reachable states and decides every checked invariant |
| Census.DirtyIndexIsAccepted | lean/formal/view-census.py:113-146 | an accepted action and two view-equal states whose successors differ in the view: the index reads a dropped field |
| Census.NestedIndexIsAccepted | lean/formal/view-census.py:140-143 | the same through a target whose index has a bracket of its own |
| Census.PrimedReadIsAccepted | lean/formal/view-census.py:238-252 | an accepted action enabled in one of two view-equal states: a dropped field is read primed |
| CensusScan.UpdateTarget | lean/formal/view-census.py:121-145 | the scan over the text of an update returns the last assignment recognised at depth 0 |
| CensusScan.RhsIsAttributed | lean/formal/view-census.py:113-146 | for every update, a position in a right-hand side is attributed to its own target if that is recognised and else to the last one before |
| CensusScan.IndexIsAttributed | lean/formal/view-census.py:113-146 | a position in an index is attributed to the last target recognised before it |
| CensusScan.HeadMatches | lean/formal/view-census.py:141-143 | the pattern finds an assignment's field exactly when its index has no bracket of its own |
| StripComments.StripText | lean/formal/view-census.py:27-55 | the in-place loop computes `Strip` |
| StripComments.StripKeepsShape | lean/formal/view-census.py:27-55 | the length and every newline are kept, every other character is itself or a space |
| StripComments.NoOpenerLeft | lean/formal/view-census.py:27-55 | nothing that starts a comment is left |
| StripComments.StripIsIdempotent | lean/formal/view-census.py:27-55 | stripping twice is stripping once |
| StripComments.BlockIsBlanked | lean/formal/view-census.py:32-46 | after code, a block comment nested to any depth becomes spaces and newlines, and the code stays |
| StripComments.LineIsBlanked | lean/formal/view-census.py:47-53 | after code, a line comment becomes spaces up to its newline, and the code stays |
| Layout.TextIsWellWrapped | docs/architecture/vsdxkit.py:53-75 | every hard line is wrapped without loss, its lines fit or are one word, and no way of breaking at spaces whose lines fit or are one word uses fewer |
| Layout.Wrap | docs/architecture/vsdxkit.py:59-75 | the two loops give the wrapped hard lines in order |
| Layout.WrapWords | docs/architecture/vsdxkit.py:66-74 | the word loop is the greedy layout |
| Layout.FewestLines | docs/architecture/vsdxkit.py:66-74 | greedy breaking needs no more lines than any breaking whose lines fit or are one word |
| Layout.LayIsLossless | docs/architecture/vsdxkit.py:66-74 | joining the lines of any breaking by spaces gives the words back |
| Layout.SegHitsRect | docs/architecture/vsdxkit.py:78-97 | true if and only if some point of the segment lies in the rectangle, degenerate segments and empty rectangles included |
| Layout.Clip | docs/architecture/vsdxkit.py:82-97 | the edge loop finds a parameter inside every edge exactly when there is one |
| Reap.OneOwner | spdk-csi-driver/src/controller_reap.rs:70-76 | a namespace bdev has at most one owning controller |
| Reap.Reaper.PlanReap | spdk-csi-driver/src/controller_reap.rs:78-120 | after any cycles a strike count is the length of the current unbroken run of condemned cycles; a name is returned exactly when that run reaches the threshold, and never owns a raid base |
| Reap.Reaper.Strike | spdk-csi-driver/src/controller_reap.rs:111-118 | every candidate counts one more and exactly those at the threshold are collected |
| BlockBind.Mount.BindDevice | spdk-csi-driver/src/block_bind.rs:74-115 | succeeds only with the wanted device on top; with every call succeeding, exactly when six turns are enough, and otherwise six turns nearer; a target that holds it is left alone |
| BlockBind.Mount.UnbindDevice | spdk-csi-driver/src/block_bind.rs:119-144 | succeeds only with the target gone; with every call succeeding, exactly when fewer than six binds are stacked, and otherwise six fewer are |
| BlockBind.OneCallDepth | spdk-csi-driver/src/block_bind.rs:74-115 | one call is enough for up to four stale binds over a plain file and five over the wanted device, and no more |
| BlockBind.TurnTakesOne | spdk-csi-driver/src/block_bind.rs:61-69 | every step brings any target exactly one turn nearer, and only a target that holds the device is done |
| BlockBind.Mount.BindUntilDone | spdk-csi-driver/src/block_bind.rs:74-115 | retries converge from any target, one call for every six turns |

## Left out

- One scheduler at a time: the leader lease, `run_epoch_scheduler` and `scheduler_tick` are not part of the model.
- An RPC takes effect before its reply or not at all; a request that lands after its caller timed out is not modelled.
- In the epoch machine the sync record is never lost or rewritten by others except for stale, standby and pin marks; readmission and the catch-up copy are not part of it, only the base they would start from. In `ServingLegs` an admission copies a serving leg's head in one step.
- Epoch names that alias a number in another spelling (a leading zero or plus sign) are one `EpochName` in the machine; `EpochNames` models the text.
- Error-string classifiers (already exists, missing, claim blocked) are enumerated outcomes.
- RFC 3339 timestamps are integers, with an unreadable case where the source has one.
- The maintenance drain marks a leg stale while it still serves; here stale and standby marks fall only on legs outside the serving set, and a hot-rejoin mark counts as stale.
- Unmeasured legs are kept by the partition, as in the source, but `DeviceFloor` runs over measured legs only.
- LegSizeGuard.AppliedDecodes: uuids are non-empty and hold no comma, as every lvol uuid does; an annotation written by hand is not covered.
- Coordinates, widths and font sizes arrive as rounded logical units: rounding from inches and `_arrow_head` are left out, a colour is its three channels, so two spellings of one colour share a key here and make two objects in the source.
- EmfPage.PageEmf: a font's height is the first asked for under its size rounded to 0.01 pt, as in the source; map mode, window and viewport records are written but draw nothing.
- `describe_emf`, `save_emf` and the file system are left out.
- The census works on an expression syntax instead of TLA+ text, without a comparison for equality inside an index; reading `StrictGh`, `StrictSc` and the view tuple, and the checks for whole-record reads, are left out because they only add easy cases.
- Reap.Reaper.PlanReap: controller names are distinct within a cycle, as SPDK guarantees; counts are not bounded to 32 bits.
- Layout.Wrap: the budget is a parameter; its computation from font metrics in floating point is left out.
- Layout.SegHitsRect: over exact reals, not floating point.
- BlockBind.Mount.BindDevice: a directory target has no mounts of its own, and the device node itself is always found.
- Kubernetes, mount, HTTP and RPC transport, the dashboards, the NFS and pNFS servers, the operators and the benchmark scripts are not modelled.
