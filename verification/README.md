# Fornax: verified models of the delivery, state and device protocols

Fornax runs Kubernetes workloads on edge nodes and edge clusters. Its hard core is
a set of small protocols that keep two copies of something in agreement over links,
API servers and databases that fail: resource messages and their success points,
mission state through a tree of clusters, device attributes in memory and in a
table, device profiles in config maps, tunnel ports, tunnel streams, mission lists
and pod status. This project models those protocols in Dafny and proves what they
keep over every input, every order of map iteration and every run. Everything is
checked by `dafny verify dfyconfig.toml`; nothing is executed.

Code that changes fields, maps or arrays step by step is a class or a method with
loops, proved against a function; the laws are then proved about that function.
Protocols between several processes are transition systems: events carry the
outcome of every call that can fail, and theorems range over all runs. Go's ranging
over maps is modelled by taking the keys in any order.

## The models

- `Strings`, `Names`: splitting and joining, resource paths, store keys, ObjectSync names.
- `Delivery`, `DeliverySafety`, `DeliveryRuns`, `DeliveryVersions`, `DeliveryProgress`, `CloudHub`: CloudHub's
  store, queue and write loop, the lossy link, the edge's MetaManager and the ObjectSync
  records, as one transition system, with the code beside it as classes.
- `MissionState`, `MissionTree`, `Pruner`: reporting, aggregating and pruning mission state.
- `DeviceAttr`, `DeviceStore`, `DeviceContext`: device attributes, their transactions,
  reloads and membership snapshots.
- `DeviceProfile`, `DeviceConfig`, `DeviceHistory`: the device profile of a node and its
  config map.
- `PodMerge`, `PodPhase`, `InitSort`: pod events, pod phases, the order of init statuses.
- `TunnelPort`, `TunnelMessage`, `StreamSession`: port negotiation, framing, streams.
- `MissionAlign`: anti-entropy of mission lists.

## What the code does not do

Where the code and its documents or evident intent disagree, the models follow the
code. For each of these there is a lemma with the inputs that show it, and a theorem
with the exact condition under which the code does what was meant.

- "Save first, then acknowledge" (docs/proposals/reliable-message-delivery.md) fails of
  inserts: a violated unique constraint counts as success, so an insert over an older row
  of a resource that is not clusterd's is acknowledged and recorded without being written
  (`AckedMeansCommitted`, `ShadowedInsertIsRecorded`).
- Recorded versions can go down in two ways: an update with a deletion timestamp skips the
  version check, and a message of another UID is compared with the stored message only.
  A message that is behind is accepted exactly through these gaps, and while no message of
  an object's own UID is, that object's record never goes down (`BehindAcceptedIff`,
  `RecordedVersionNeverDecreases`, `LaggingLowersRecord`, `LaggingUnderWayLowersRecord`,
  `MarkedUpdateLowersRecord`, `CrossedUidLowersRecord`).
- The same document says five resends, after which the sync controller takes over. The code
  resends four times; the stored message then stays unsent, and a resync with the same
  version is discarded. A delete given up on blocks even newer messages of that name
  (`GiveUpSticks`, `GivenUpStaysStuck`, `RevivedIff`).
- A cluster that reports between two ticks on which it is dead escapes pruning: the early
  return is equivalent to pruning exactly when the missions are pruned anyway for the dead
  clusters that have reported since. A mission whose write-back failed is not tried again
  (`CacheIsTransparentIff`, `FlappingEscapes`, `FailedWriteIsNotRetried`).
- An attribute added without "optional" brings the process down with the next message that
  removes it or carries an "optional" for it (`AddedWithoutOptionalCrashes`, exactly:
  `DealMsgAttr`).
- When adding a device to the table fails for good, a lock that nobody holds is released,
  which ends the process. A removal that fails leaves its device in the table but not in
  memory, and every later snapshot with that device is fatal (`AddDevice`, `FailsIffDistinct`,
  `StrandedCrashes`, `StrandedRun`).
- Entries of clusters that are not there are never removed by aggregation; a round is exact
  if and only if no cluster holds one (`RoundIsExact`, `OrphanArrives`).
- Devices without a supported protocol get a nameless one; deleting or updating can then
  take the wrong one (`NamelessTakesWrong`, `RemovedSound`, `ChangedSound`,
  `RemovedUndoesAdded`).
- Merging pod events also drops changes of status alone (`StatusAloneIsDropped`).
- A noted mission that the cluster does not hold is reported forever, and a failed deletion
  is forgotten although the mission remains (`StaleStaysNoted`, `ForgottenLeftover`).
- Sorting init statuses is meant to make comparisons independent of order; it does so
  exactly when at most one status is not named in the spec (`CanonicalIff`).

## Model

| member | source | states |
|---|---|---|
| Names.PathParts | cloud/pkg/edgecontroller/messagelayer/util.go:15-26 | a built resource path splits into "node", node, namespace, type and name |
| Names.BuiltIff | cloud/pkg/edgecontroller/messagelayer/util.go:15-26 | a path is built exactly when node, namespace and type are given |
| Names.NodeFoundIff | cloud/pkg/cloudhub/channelq/channelq.go:205-216 | a node is found exactly when a component "node" is followed by one that is not empty |
| Names.TrimmedIff | cloud/pkg/cloudhub/handler/messagehandler.go:220-230 | the node is cut off exactly from paths that begin with one and go on |
| Names.ResourceNames | cloud/pkg/cloudhub/channelq/channelq.go:137-148 | the node, the store key and the trimmed path read off a built path are those of its object |
| Names.SameKeyIffSameRow | cloud/pkg/cloudhub/handler/messagehandler.go:220-230 | two objects share a store key, and a meta row, exactly when they are the same object |
| Names.SyncNameRoundTrip | cloud/pkg/synccontroller/synccontroller.go:168-180 | node and UID are read back from an ObjectSync name exactly when the UID has no dot |
| Delivery.ProcessFrame | edge/pkg/metamanager/process.go:131-249 | processing a message touches no row but its own |
| Delivery.AckedMeansCommitted | edge/pkg/metamanager/dao/meta.go:23-41 | an acknowledged insert or update is in the row exactly when no older row shadowed the insert |
| Delivery.LandsIff | edge/pkg/metamanager/process.go:131-249 | the guards that decide, before an insert or update is processed, whether the row holds its content afterwards |
| DeliverySafety.AnswersProcessed | edge/pkg/metamanager/process.go:131-316 | a message answered now or before leaves its row as it asked when it is the newest seen |
| DeliverySafety.AnswersKept | edge/pkg/metamanager/process.go:131-316 | answers to other messages stay true |
| DeliverySafety.EdgeKeeps | edge/pkg/metamanager/process.go:131-316 | the edge processing the next message keeps the whole invariant |
| DeliverySafety.DispatchKeeps | cloud/pkg/cloudhub/channelq/channelq.go:89-135 | dispatching keeps it, accepted or not |
| DeliverySafety.TakeKeeps | cloud/pkg/cloudhub/handler/messagehandler.go:424-477 | the write loop taking a key keeps it |
| DeliverySafety.AckKeeps | cloud/pkg/cloudhub/handler/messagehandler.go:138-144 | late, repeated and stray acknowledgements keep it |
| DeliverySafety.SaveKeeps | cloud/pkg/cloudhub/handler/messagehandler.go:524-592 | saving a success point keeps it, whatever API calls fail |
| DeliverySafety.SendKeeps | cloud/pkg/cloudhub/handler/messagehandler.go:480-514 | sending and resending keep the per-object order of the link between seen, sent and stored |
| DeliverySafety.StepKeeps | cloud/pkg/cloudhub/handler/messagehandler.go:420-592 | every event of the delivery system keeps the whole invariant |
| DeliverySafety.StepReplies | cloud/pkg/cloudhub/handler/messagehandler.go:138-144 | answers and commits arise only when the edge processes the message |
| DeliveryRuns.RunKeeps | cloud/pkg/cloudhub/handler/messagehandler.go:420-592 | the invariant holds in every state of every run |
| DeliveryRuns.RepliedWasAnswered | edge/pkg/metamanager/process.go:168-179 | every answered message was processed with answer OK at an earlier step of the run |
| DeliveryRuns.CommittedLanded | edge/pkg/metamanager/process.go:131-249 | a committed message, of whatever source, was processed at some earlier step after which the row held its content |
| DeliveryRuns.SeenGrows | cloud/pkg/cloudhub/handler/messagehandler.go:424-513 | over every run the edge sees the messages of an object in dispatch order |
| DeliveryRuns.LandedStays | edge/pkg/metamanager/process.go:131-249 | a row that once held a message's content still does while that message is the newest seen of its object |
| DeliveryRuns.AcknowledgedStays | cloud/pkg/cloudhub/handler/messagehandler.go:494-498 | in every state after an acknowledgement the edge has not gone back behind that message, and while it is the newest seen its row is as it left it |
| DeliveryRuns.SuccessPointMeansStored | cloud/pkg/cloudhub/handler/messagehandler.go:480-592 | whenever a success point is written or deleted, the edge had answered that message and its row is what the message asked for; for inserts, exactly when at some processing it was written or found its content there |
| DeliveryVersions.AcceptedSupersedes | cloud/pkg/cloudhub/channelq/channelq.go:89-135 | what enters the store is a delete or strictly newer than a stored non-delete |
| DeliveryVersions.StoreOrderStep | cloud/pkg/cloudhub/channelq/channelq.go:103-134 | every event keeps the loop's message stored or superseded |
| DeliveryVersions.StoreStep | cloud/pkg/cloudhub/channelq/channelq.go:103-134 | one event replaces a stored message only by what supersedes it |
| DeliveryVersions.StoredOnlySuperseded | cloud/pkg/cloudhub/channelq/channelq.go:103-134 | over any stretch of a run: deletes are followed by deletes, others by strictly newer messages |
| DeliveryVersions.DroppedIsDelete | cloud/pkg/cloudhub/handler/messagehandler.go:537-544 | an entry leaves the store only with an acknowledged delete, and then it is a delete |
| DeliveryVersions.BehindAcceptedIff | cloud/pkg/cloudhub/channelq/channelq.go:106-129 | a message that is behind its record, or behind what is about to be recorded, is accepted exactly when deletion-marked or a newer replacement of another UID's |
| DeliveryVersions.ForeignKeyDiffers | cloud/pkg/synccontroller/synccontroller.go:168-170 | records of two nodes never share a name |
| DeliveryVersions.InStepStep | cloud/pkg/cloudhub/channelq/channelq.go:103-134 | for one object: an event keeps its stored and its sent message at or above its record unless a message of its UID comes through a gap while behind |
| DeliveryVersions.OrderedStep | cloud/pkg/cloudhub/channelq/channelq.go:103-134 | ... together with everything that rests on, whatever other objects do |
| DeliveryVersions.RecordStep | cloud/pkg/cloudhub/handler/messagehandler.go:546-579 | one event never lowers the record of an object that is in step |
| DeliveryVersions.RecordedVersionNeverDecreases | cloud/pkg/cloudhub/handler/messagehandler.go:524-586 | while an object's record exists its version never decreases, in every run in which no message of its own UID is accepted through a gap while behind |
| DeliveryVersions.RecordOrigin | cloud/pkg/cloudhub/handler/messagehandler.go:546-579 | every recorded version was there at the start or was saved for a message of that version |
| DeliveryVersions.RecordIsBacked | cloud/pkg/cloudhub/handler/messagehandler.go:524-586 | in every later state, a version the run recorded was saved for an answered message, the edge has seen nothing older since, and while nothing newer the row is that message's |
| DeliveryVersions.DeliverRun | cloud/pkg/cloudhub/handler/messagehandler.go:420-592 | from any idle state an accepted message can be carried through to its success point |
| DeliveryVersions.LaggingLowersRecord | cloud/pkg/cloudhub/handler/messagehandler.go:546-579 | from every idle state an accepted message that lags its record can be carried through to lowering it |
| DeliveryVersions.LaggingUnderWayLowersRecord | cloud/pkg/cloudhub/handler/messagehandler.go:546-579 | likewise for a message that lags what is about to be recorded |
| DeliveryVersions.MarkedUpdateLowersRecord | cloud/pkg/cloudhub/channelq/channelq.go:189-202 | a run in which an update with deletion timestamp lowers any higher record |
| DeliveryVersions.CrossedUidLowersRecord | cloud/pkg/cloudhub/channelq/channelq.go:108-129 | a run in which replacing another UID's message lowers a record |
| DeliveryVersions.ShadowedInsertIsRecorded | edge/pkg/metamanager/dao/meta.go:24-31 | a run in which an insert's version is recorded while the old content stays |
| DeliveryVersions.StuckWasReleased | cloud/pkg/cloudhub/handler/messagehandler.go:420-514 | in every run a stored message that nobody is to send was given up, skipped when taken, or answered; failed writes and newer messages never strand it |
| DeliveryVersions.GiveUpSticks | cloud/pkg/cloudhub/handler/messagehandler.go:501-504 | after the last retry the message is stored, but neither queued nor being sent |
| DeliveryVersions.GivenUpStaysStuck | cloud/pkg/cloudhub/handler/messagehandler.go:496-513 | it stays so in every run until a delete arrives or, unless it is itself a delete, a strictly newer message |
| DeliveryVersions.RevivedIff | cloud/pkg/cloudhub/channelq/channelq.go:122-134 | exactly those messages put it back into the queue |
| DeliveryProgress.RefusedChangesNothing | cloud/pkg/cloudhub/channelq/channelq.go:89-135 | a message that is not let in leaves store and queue alone |
| DeliveryProgress.DeleteIsLetIn | cloud/pkg/cloudhub/channelq/channelq.go:189-202 | deletes and deletion-marked updates are let in whatever is stored and recorded |
| DeliveryProgress.FirstIsLetInIff | cloud/pkg/cloudhub/channelq/channelq.go:106-119 | with nothing stored, an insert or update is stored and queued exactly when it has version and UID and every recorded version of the UID is strictly lower |
| DeliveryProgress.NextIsLetInIff | cloud/pkg/cloudhub/channelq/channelq.go:121-127 | with a message stored, exactly when that one is no delete, unmarked and strictly older |
| DeliveryProgress.DeleteAnsweredIff | edge/pkg/metamanager/process.go:291-316 | a delete is answered exactly when it could be made, unless it is edged's own of a pod |
| DeliveryProgress.UpdateAnsweredIff | edge/pkg/metamanager/process.go:182-249 | an update is answered exactly when a controller's and written, unless an unchanged pod status |
| DeliveryProgress.InsertAnsweredIff | edge/pkg/metamanager/process.go:131-180 | an insert is answered exactly when saved, or, as an update of a clusterd resource, when a controller's |
| DeliveryProgress.AllOkAnsweredIff | edge/pkg/metamanager/process.go:131-316 | which messages are answered when every call succeeds, by operation, kind and source |
| DeliveryProgress.DeleteSaved | cloud/pkg/cloudhub/handler/messagehandler.go:537-544 | an acknowledged delete takes entry and record away and nothing else |
| DeliveryProgress.VersionSaved | cloud/pkg/cloudhub/handler/messagehandler.go:546-579 | the version reaches its record exactly when it can be read, is there or can be created, and its status can be written |
| DeliveryProgress.UnidentifiedSaved | cloud/pkg/cloudhub/handler/messagehandler.go:529-533 | what carries no UID leaves store and records alone |
| DeliveryProgress.NewerRaisesRecord | cloud/pkg/cloudhub/handler/messagehandler.go:420-592 | from every idle state a controller's newer update comes to be written and raises the record to its version |
| DeliveryProgress.DeleteClears | cloud/pkg/cloudhub/handler/messagehandler.go:420-592 | from every idle state a controller's delete comes to clear row, entry and record |
| CloudHub.NodeHub.AddMessageToQueue | cloud/pkg/cloudhub/channelq/channelq.go:89-135 | takes the dispatch step of the transition system |
| CloudHub.NodeHub.HandleAck | cloud/pkg/cloudhub/handler/messagehandler.go:138-144 | closes the channel waiting for this message, once, and no other |
| CloudHub.NodeHub.SendMsg | cloud/pkg/cloudhub/handler/messagehandler.go:480-514 | sends between one and five copies; acknowledged exactly when the channel closes before a write fails and before the fifth timeout |
| CloudHub.SendRun | cloud/pkg/cloudhub/handler/messagehandler.go:480-514 | the transition system sends the same copies and may resend or give up exactly when the loop does |
| CloudHub.NodeHub.SaveSuccessPoint | cloud/pkg/cloudhub/handler/messagehandler.go:524-592 | takes the save step of the transition system |
| CloudHub.MetaManager.SaveMeta | edge/pkg/metamanager/dao/meta.go:24-31 | an existing row is neither an error nor changed |
| CloudHub.MetaManager.InsertOrUpdate | edge/pkg/metamanager/dao/meta.go:58-62 | the row is replaced |
| CloudHub.MetaManager.ProcessUpdate | edge/pkg/metamanager/process.go:182-249 | takes the update step of the transition system |
| CloudHub.MetaManager.ProcessInsert | edge/pkg/metamanager/process.go:131-180 | takes the insert step |
| CloudHub.MetaManager.ProcessDelete | edge/pkg/metamanager/process.go:291-316 | takes the delete step |
| CloudHub.MetaManager.Process | edge/pkg/metamanager/process.go:131-316 | the dispatch on the operation takes the step of the transition system |
| MissionState.OwnsIsHead | cloud/pkg/edgecontroller/controller/upstream.go:689-705 | the prefix test selects exactly the keys whose first component is the cluster |
| MissionState.ReportKeyInjective | edge/pkg/clusterd/mission_state_reporter.go:205-219 | reporting never merges two keys |
| MissionState.ReportMissionState | edge/pkg/clusterd/mission_state_reporter.go:205-219 | for every key order, the report holds each entry under its prefixed key and nothing else |
| MissionState.AggregateState | cloud/pkg/edgecontroller/controller/upstream.go:689-705 | for every key order, editing both maps gives the entries not owned by the cluster plus its report |
| MissionState.CopyInto | cloud/pkg/edgecontroller/controller/upstream.go:702-704 | the copying loop merges what is left of the report |
| MissionState.AggregateCommutes | cloud/pkg/edgecontroller/controller/upstream.go:689-705 | reports of two clusters can be taken in either order |
| MissionState.PruneMission | cloud/pkg/missionstatepruner/pruner.go:118-141 | for every key order, dead clusters read unreachable and nothing below them remains; the state is written back exactly when it changed |
| MissionState.PrunedIffFixed | cloud/pkg/missionstatepruner/pruner.go:118-141 | pruned states are exactly the fixed points of pruning, and pruning reaches one |
| MissionState.PruneMeans | cloud/pkg/missionstatepruner/pruner.go:118-141 | everything below a dead cluster goes, the cluster itself reads unreachable, all else stays |
| MissionState.AggregatePruneCommutes | cloud/pkg/missionstatepruner/pruner.go:118-141 | taking a live cluster's report commutes with pruning dead ones |
| MissionTree.RunRound | edge/pkg/clusterd/mission_state_reporter.go:205-219 | reporting and aggregating bottom-up through a tree computes the round |
| MissionTree.AbsorbOwned | cloud/pkg/edgecontroller/controller/upstream.go:689-705 | among all reports taken, a key is as the one sub-cluster that owns it reported it |
| MissionTree.AbsorbOther | cloud/pkg/edgecontroller/controller/upstream.go:689-705 | a key no sub-cluster owns is untouched |
| MissionTree.NothingLost | cloud/pkg/edgecontroller/controller/upstream.go:689-705 | the local state of every cluster arrives at the root under its path |
| MissionTree.NothingInvented | cloud/pkg/edgecontroller/controller/upstream.go:689-705 | without orphan entries every key at the root is the path of a cluster |
| MissionTree.OrphanArrives | cloud/pkg/edgecontroller/controller/upstream.go:689-705 | an orphan entry anywhere in the tree gives the root a key that is nobody's path |
| MissionTree.KeyInjective | edge/pkg/clusterd/mission_state_reporter.go:205-219 | distinct paths have distinct keys |
| MissionTree.RoundIsExact | edge/pkg/clusterd/mission_state_reporter.go:205-219 | the root has every local state under its own path, and nothing else exactly when no cluster held an entry of a cluster that is not there |
| Pruner.MissionStatePruner.constructor | cloud/pkg/missionstatepruner/pruner.go:40-48 | the cache starts empty |
| Pruner.MissionStatePruner.CollectDead | cloud/pkg/missionstatepruner/pruner.go:78-105 | a listed cluster is dead exactly when stale or not healthy; and whether one is new to the cache |
| Pruner.MissionStatePruner.CheckAndPrune | cloud/pkg/missionstatepruner/pruner.go:71-150 | prunes every mission unless all dead clusters were cached or a call fails, and updates the cache |
| Pruner.EarlyReturnIsPruningIff | cloud/pkg/missionstatepruner/pruner.go:106-110 | an error-free tick leaves what pruning would exactly when it finds a new dead cluster or the missions are pruned for the dead ones that reported since |
| Pruner.StepKeeps | cloud/pkg/missionstatepruner/pruner.go:71-150 | every error-free event keeps all missions pruned for the cached clusters that have not reported since |
| Pruner.RunKeeps | cloud/pkg/missionstatepruner/pruner.go:71-150 | this holds in every state of every error-free run, whatever clusters flap |
| Pruner.CacheIsTransparentIff | cloud/pkg/missionstatepruner/pruner.go:71-150 | in every error-free run a tick leaves what pruning without a cache leaves if and only if that condition holds |
| Pruner.CacheIsTransparent | cloud/pkg/missionstatepruner/pruner.go:71-150 | in particular when no cluster dead on both ticks has reported in between; then all missions are pruned |
| Pruner.FlappingEscapes | cloud/pkg/missionstatepruner/pruner.go:98-110 | a run in which a dead cluster's reported state is not pruned |
| Pruner.FailedWriteIsNotRetried | cloud/pkg/missionstatepruner/pruner.go:142-149 | over every run in which the same clusters stay dead, however many ticks succeed, a mission whose write-back failed stays unpruned |
| DeviceAttr.MergeExisting | edge/pkg/devicetwin/dtmanager/device.go:219-258 | field by field, memory and the changed columns; it crashes exactly on the nil "optional" |
| DeviceAttr.DealOne | edge/pkg/devicetwin/dtmanager/device.go:209-279 | one name is kept, added, removed or set in memory and in one list alike |
| DeviceAttr.DealMsgAttr | edge/pkg/devicetwin/dtmanager/device.go:194-292 | for every order of names, memory is what the message asks for in its own terms, the three lists hold exactly these changes, each once, and it crashes exactly on the nil accesses |
| DeviceAttr.RemembersAsAsked | edge/pkg/devicetwin/dtmanager/device.go:209-290 | a carried attribute ends with the message's value and metadata, "optional" goes from true to false exactly when asked; a name without attribute goes exactly when optional; others stay, or go with a snapshot |
| DeviceAttr.CrashesIff | edge/pkg/devicetwin/dtmanager/device.go:209-279 | the exact messages that bring the process down |
| DeviceAttr.DropUnnamed | edge/pkg/devicetwin/dtmanager/device.go:280-290 | a snapshot removes the attributes it does not name |
| DeviceStore.AttrDb.Save | edge/pkg/devicetwin/dtclient/deviceattr_db.go:22-26 | inserts under a new row id |
| DeviceStore.AttrDb.Delete | edge/pkg/devicetwin/dtclient/deviceattr_db.go:40-48 | deletes all rows of one attribute |
| DeviceStore.AttrDb.UpdateFields | edge/pkg/devicetwin/dtclient/deviceattr_db.go:58-62 | sets the given columns of all rows of one attribute |
| DeviceStore.AttrDb.DeviceAttrTrans | edge/pkg/devicetwin/dtclient/deviceattr_db.go:100-129 | all statements take effect, or, at the first failure, none |
| DeviceStore.CommittedAt | edge/pkg/devicetwin/dtclient/deviceattr_db.go:100-129 | row by row, what a committed transaction leaves |
| DeviceStore.ChangeMeaning | edge/pkg/devicetwin/dttype/types_helper.go:101-114 | each change means the same to a row and to memory |
| DeviceStore.OldRowAfter | edge/pkg/devicetwin/dtclient/deviceattr_db.go:100-129 | an existing row is deleted, updated or kept as its name's change says |
| DeviceStore.NewRowAfter | edge/pkg/devicetwin/dtclient/deviceattr_db.go:100-129 | an added row survives the deletes and updates of its own transaction |
| DeviceStore.OtherRowsAfter | edge/pkg/devicetwin/dtclient/deviceattr_db.go:100-129 | other devices' rows stay and none appears |
| DeviceStore.CommitAgrees | edge/pkg/devicetwin/dtmanager/device.go:150-292 | after a committed transaction memory and table agree again |
| DeviceStore.CommitCarries | edge/pkg/devicetwin/dtmanager/device.go:150-292 | after a commit the rows carry the message's values, types and metadata, and names that are gone have none |
| DeviceStore.CommitFrame | edge/pkg/devicetwin/dtclient/deviceattr_db.go:100-129 | other devices agree as before and no attribute gets two rows |
| DeviceContext.ReadBackAgrees | edge/pkg/devicetwin/dttype/types_helper.go:42-52 | memory read back from the rows agrees with them |
| DeviceContext.ReadBackIsReloaded | edge/pkg/devicetwin/dttype/types_helper.go:42-52 | a reload gives back what memory meant before, with nothing absent |
| DeviceContext.AgreeIffSameMeaning | edge/pkg/devicetwin/dttype/types_helper.go:42-52 | two memories agree with one table exactly when they mean the same |
| DeviceContext.AddedWithoutOptionalCrashes | edge/pkg/devicetwin/dtmanager/device.go:212-246 | an attribute added without "optional" crashes the next message that removes it or sets "optional" |
| DeviceContext.Context.AttrsFromRows | edge/pkg/devicetwin/dttype/types_helper.go:42-52 | the attributes are what the device's rows say |
| DeviceContext.Context.SyncDeviceFromSqlite | edge/pkg/devicetwin/dtmanager/membership.go:357-397 | memory of the device is read back from its rows, nothing else changes |
| DeviceContext.Context.UpdateDeviceAttr | edge/pkg/devicetwin/dtmanager/device.go:150-191 | memory and table agree when the transaction is stored or memory reloaded; otherwise exactly when the message changed no meaning |
| DeviceContext.Context.Attempt | edge/pkg/devicetwin/dtmanager/device.go:163-171 | the retry loop stores the whole change or nothing, and stores it if any attempt works |
| DeviceContext.Context.AddDevice | edge/pkg/devicetwin/dtmanager/membership.go:166-254 | crashes exactly on a nil access or on a new device that the table has or refuses; otherwise the device has the snapshot's attributes, or, when they cannot be stored, its own read back |
| DeviceContext.Context.AddNew | edge/pkg/devicetwin/dtmanager/membership.go:192-236 | a new device is added unless the table has or refuses it, which is fatal |
| DeviceContext.Context.TakeOver | edge/pkg/devicetwin/dtmanager/device.go:150-191 | a snapshot's attributes are taken over when stored, read back when not |
| DeviceContext.Context.RemoveDevice | edge/pkg/devicetwin/dtmanager/membership.go:257-307 | the device leaves memory even when the database keeps it |
| DeviceContext.Context.GetRemoveList | edge/pkg/devicetwin/dtmanager/membership.go:69-85 | exactly the devices in memory that the snapshot lacks |
| DeviceContext.Context.AddDevices | edge/pkg/devicetwin/dtmanager/membership.go:166-254 | whatever calls fail: crashes exactly when some device does at its turn; otherwise all devices have joined |
| DeviceContext.Context.RemoveDevices | edge/pkg/devicetwin/dtmanager/membership.go:257-307 | exactly the listed devices leave memory, and the table unless it refuses |
| DeviceContext.Context.DealMembershipDetail | edge/pkg/devicetwin/dtmanager/membership.go:86-117 | whatever calls fail: crashes exactly when some device does at its turn; otherwise memory has exactly the snapshot's devices, with exactly its attribute names where stored, and the table these and what it refused or had stranded |
| DeviceContext.FailsIff | edge/pkg/devicetwin/dtmanager/membership.go:212-226 | a snapshot crashes exactly when one of its devices does at its turn |
| DeviceContext.FailsIffDistinct | edge/pkg/devicetwin/dtmanager/membership.go:212-226 | when no device is listed twice, exactly when one is in the table only, is refused, or makes a nil access on its attributes before |
| DeviceContext.StrandedCrashes | edge/pkg/devicetwin/dtmanager/membership.go:212-226 | every snapshot naming a device that only the table has is fatal |
| DeviceContext.StrandedRun | edge/pkg/devicetwin/dtmanager/membership.go:257-287 | a failed removal followed by any snapshot with that device ends in the crash |
| DeviceContext.JoinedTakes | edge/pkg/devicetwin/dtmanager/membership.go:166-254 | after a snapshot that does not crash, each device has exactly the attribute names of its last entry, with its values, if stored |
| DeviceProfile.ProtocolNamesDevice | cloud/pkg/devicecontroller/controller/downstream.go:590-599 | a protocol name determines its device |
| DeviceProfile.EntriesOf | cloud/pkg/devicecontroller/controller/downstream.go:341-387 | the first protocol a device has, in the code's order, gives name, kind and configuration of its entry |
| DeviceProfile.RemovedModels | cloud/pkg/devicecontroller/controller/downstream.go:768-806 | the model list is right after a deletion exactly when the model looked at is the instance's own or still referred to |
| DeviceProfile.ChangedRefs | cloud/pkg/devicecontroller/controller/downstream.go:525-573 | protocols match references after an update exactly when the device is there or one nameless protocol replaces another |
| DeviceProfile.AddedSound | cloud/pkg/devicecontroller/controller/downstream.go:218-259 | adding keeps the profile's integrity exactly when the name is new |
| DeviceProfile.RemovedSound | cloud/pkg/devicecontroller/controller/downstream.go:768-841 | deleting keeps it exactly when the device is there and its model reference is right or still used, or it is absent and no protocol is nameless |
| DeviceProfile.ChangedSound | cloud/pkg/devicecontroller/controller/downstream.go:525-573 | updating keeps it exactly when the device is there or one nameless protocol replaces another |
| DeviceProfile.RemovedUndoesAdded | cloud/pkg/devicecontroller/controller/downstream.go:768-806 | deleting a device just added restores the profile up to order, exactly when its protocol is named or the first nameless one is the same |
| DeviceProfile.NamelessTakesWrong | cloud/pkg/devicecontroller/controller/downstream.go:809-829 | two devices without a supported protocol: adding and deleting the second leaves its protocol and takes the first's |
| DeviceConfig.Editor.AddDeviceInstanceAndProtocol | cloud/pkg/devicecontroller/controller/downstream.go:341-387 | appends the instance and its protocol |
| DeviceConfig.Editor.Add | cloud/pkg/devicecontroller/controller/downstream.go:218-259 | edits the profile as `Added` says |
| DeviceConfig.Editor.DeleteDeviceInstanceAndProtocol | cloud/pkg/devicecontroller/controller/downstream.go:809-829 | swap-removes the instance and the first protocol of its name |
| DeviceConfig.Editor.DeleteProtocol | cloud/pkg/devicecontroller/controller/downstream.go:821-828 | swap-removes the first protocol of the name |
| DeviceConfig.Editor.DeleteDeviceModelAndVisitors | cloud/pkg/devicecontroller/controller/downstream.go:832-841 | swap-removes the model |
| DeviceConfig.Editor.Delete | cloud/pkg/devicecontroller/controller/downstream.go:768-806 | edits the profile as `Removed` says |
| DeviceConfig.Editor.Update | cloud/pkg/devicecontroller/controller/downstream.go:525-573 | edits the profile as `Changed` says |
| DeviceConfig.NewProtocol | cloud/pkg/devicecontroller/controller/downstream.go:525-573 | the first protocol present gives the entry, none gives a nameless one |
| DeviceConfig.NodeConfig.AddToConfigMap | cloud/pkg/devicecontroller/controller/downstream.go:177-215 | creates or extends the config map |
| DeviceConfig.NodeConfig.UpdateConfigMap | cloud/pkg/devicecontroller/controller/downstream.go:500-588 | edits an existing profile only |
| DeviceConfig.NodeConfig.DeleteFromConfigMap | cloud/pkg/devicecontroller/controller/downstream.go:729-765 | edits the profile and deletes the config map when it is empty |
| DeviceConfig.StepSound | cloud/pkg/devicecontroller/controller/downstream.go:218-259 | every orderly event keeps the profile's integrity |
| DeviceConfig.RunSound | cloud/pkg/devicecontroller/controller/downstream.go:218-259 | over every orderly run: unique instances, protocols and models exactly those referred to |
| DeviceHistory.AddedCurrent | cloud/pkg/devicecontroller/controller/downstream.go:218-259 | adding a device with a protocol keeps the entries exactly those of the devices there are |
| DeviceHistory.RemovedCurrent | cloud/pkg/devicecontroller/controller/downstream.go:768-841 | so does deleting one |
| DeviceHistory.ChangedCurrent | cloud/pkg/devicecontroller/controller/downstream.go:525-573 | so does updating one; its model reference stays |
| DeviceHistory.StepCurrent | cloud/pkg/devicecontroller/controller/downstream.go:177-215 | so does every orderly event on the config map |
| DeviceHistory.RunCurrent | cloud/pkg/devicecontroller/controller/downstream.go:218-259 | in every orderly run of devices with a supported protocol, instances and protocols are exactly those of each device's latest add or update |
| DeviceHistory.RunInstances | cloud/pkg/devicecontroller/controller/downstream.go:218-259 | for devices of any protocol or none, the instances are exactly those of each device's latest add or update |
| DeviceHistory.RunModels | cloud/pkg/devicecontroller/controller/downstream.go:262-306 | in every run each listed model is one that was cached, properties and all, when a device was added |
| DeviceHistory.RunModelsCached | cloud/pkg/devicecontroller/controller/downstream.go:262-306 | with an unchanging cache the listed models are exactly the cached ones the instances refer to |
| DeviceConfig.DroppedWhenLastLeaves | cloud/pkg/devicecontroller/controller/downstream.go:743-756 | in every orderly run a deletion drops the config map exactly when no instance remains |
| DeviceConfig.EmptyIffNoInstance | cloud/pkg/devicecontroller/controller/downstream.go:743-756 | a sound profile is empty exactly when it has no instance |
| PodMerge.PodManager.MergeOne | cloud/pkg/edgecontroller/manager/pod.go:43-73 | one event updates the cache and emits at most one event |
| PodMerge.PodManager.Merge | cloud/pkg/edgecontroller/manager/pod.go:43-73 | the loop sends on the merged stream and keeps the cache |
| PodMerge.MergedMeansSame | cloud/pkg/edgecontroller/manager/pod.go:43-73 | after every prefix of every stream, replaying what was sent on gives the same pods up to resource version, generation and status, and nothing sent on is taken back |
| PodMerge.DroppedIffUnchanged | cloud/pkg/edgecontroller/manager/pod.go:34-41 | a modification is dropped exactly when nothing but those changed |
| PodMerge.SentAs | cloud/pkg/edgecontroller/manager/pod.go:43-73 | an added pod goes out as added, or as modified exactly when marked for deletion; others as they are or not at all |
| PodMerge.MergeStep | cloud/pkg/edgecontroller/manager/pod.go:43-73 | one event keeps raw and merged stream in step |
| PodMerge.StatusAloneIsDropped | cloud/pkg/edgecontroller/manager/pod.go:34-41 | a change of status alone is dropped although it changes the pod |
| PodPhase.GetContainerStatus | vendor/k8s.io/kubernetes/pkg/api/v1/pod/util.go:265-272 | the first status of the name |
| PodPhase.CountInit | edge/pkg/edged/edged_pods.go:1058-1090 | the counters tell whether an init container is pending or failed |
| PodPhase.CountContainers | edge/pkg/edged/edged_pods.go:1092-1124 | the counters tell which outcomes occur and whether all exited well |
| PodPhase.InitIff | edge/pkg/edged/edged_pods.go:1061-1090 | what a status says of an init container, by its states and exit codes |
| PodPhase.OutcomeIff | edge/pkg/edged/edged_pods.go:1098-1124 | what a status says of a container, by its states and exit codes |
| PodPhase.GetPhase | edge/pkg/edged/edged_pods.go:1057-1164 | the counting computation refines the quantified phase |
| PodPhase.SucceededIff | edge/pkg/edged/edged_pods.go:1130-1150 | Succeeded exactly when the policy is not Always, there are containers, all exited with 0 and initialisation is through |
| PodPhase.FailedIff | edge/pkg/edged/edged_pods.go:1126-1155 | Failed exactly under Never with a failed init container or all containers stopped and not all cleanly |
| PodPhase.RunningIff | edge/pkg/edged/edged_pods.go:1130-1160 | Running exactly when there are containers, nothing holds the pod back, and one runs or all are to be restarted |
| PodPhase.PendingIff | edge/pkg/edged/edged_pods.go:1126-1164 | Pending exactly when there are no containers or something holds the pod back, but for a failed init container under Never |
| PodPhase.AlwaysNeverEnds | edge/pkg/edged/edged_pods.go:1137-1146 | under Always the phase is Pending or Running |
| PodPhase.PhaseIgnoresOrder | edge/pkg/edged/edged_pods.go:1057-1164 | the order of containers and of distinctly named statuses does not matter |
| InitSort.SortInitContainerStatuses | cloud/pkg/edgecontroller/controller/upstream.go:74-86 | the in-place swaps compute `Place` |
| InitSort.PlacePermutes | cloud/pkg/edgecontroller/controller/upstream.go:74-86 | always a permutation |
| InitSort.PlacedInOrder | cloud/pkg/edgecontroller/controller/upstream.go:74-86 | with distinct status names, those named in the spec come first in spec order |
| InitSort.RestUnnamed | cloud/pkg/edgecontroller/controller/upstream.go:74-86 | all others are not named in the spec |
| InitSort.SortIsIdempotent | cloud/pkg/edgecontroller/controller/upstream.go:74-86 | sorting again changes nothing |
| InitSort.TwoUnnamedDiffer | cloud/pkg/edgecontroller/controller/upstream.go:74-86 | two statuses the spec does not name keep whatever order they had |
| InitSort.CanonicalIff | cloud/pkg/edgecontroller/controller/upstream.go:1192-1201 | the result is independent of the given order exactly when at most one status is not named in the spec |
| InitSort.SortKeepsPhase | edge/pkg/edged/edged_pods.go:993-995 | ordering the init statuses leaves the phase as it was |
| TunnelPort.NegotiatePort | cloud/cmd/cloudcore/app/server.go:220-227 | the unbounded loop ends with the least free port, at most 10350 plus the number of ports in use |
| TunnelPort.PlanPort | cloud/cmd/cloudcore/app/server.go:133-218 | an address on record uses its port, another writes back the record extended by the least free port |
| TunnelPort.PlanOk | cloud/cmd/cloudcore/app/server.go:161-218 | what is written back is injective and extends what was read |
| TunnelPort.StepKeeps | cloud/cmd/cloudcore/app/server.go:133-218 | every event keeps the record injective and every recorded port |
| TunnelPort.RunKeeps | cloud/cmd/cloudcore/app/server.go:133-218 | over every run records only extend and stay injective |
| TunnelPort.PortsIdentifyAddresses | cloud/cmd/cloudcore/app/server.go:133-218 | in every interleaving two instances run on one port, at whatever times, exactly when they have one address |
| TunnelPort.StartRuns | cloud/cmd/cloudcore/app/server.go:133-218 | from every state a starting instance can come to run, on its recorded port or else on the least free one from 10350 on, then recorded |
| TunnelMessage.VarintLength | pkg/stream/message.go:70-76 | a number takes at most k bytes exactly when it is below 128^k |
| TunnelMessage.PutUvarint | pkg/stream/message.go:70-76 | writes the varint at the offset, or overflows exactly when it does not fit |
| TunnelMessage.Bytes | pkg/stream/message.go:70-76 | encodes, and panics exactly when the header does not fit 16 bytes |
| TunnelMessage.SmallHeader | pkg/stream/message.go:70-76 | the layout: id, type, data |
| TunnelMessage.VarintExample | pkg/stream/message.go:70-76 | 150 is written 96 01, as in the encoding specification |
| TunnelMessage.FitsIff | pkg/stream/message.go:70-76 | which ids and types fit together |
| TunnelMessage.SmallTypesFit | pkg/stream/message.go:70-76 | every 64-bit id fits with every type below 2^42 |
| TunnelMessage.ReadIsWritten | pkg/stream/message.go:82-103 | a number that was read is written the same way exactly when it was minimal |
| TunnelMessage.MinimalIff | pkg/stream/message.go:70-76 | an encoding is what would be written for its value exactly when it is minimal |
| TunnelMessage.ReadVarint | pkg/stream/message.go:82-103 | reading a written 64-bit number gives it and what follows |
| TunnelMessage.DecodeEncode | pkg/stream/message.go:82-103 | decoding an encoded message returns it, for all 64-bit ids and types and all data |
| TunnelMessage.EncodeDecode | pkg/stream/message.go:82-103 | a frame that decodes is its message's encoding exactly when both numbers are minimal |
| StreamSession.Connection.WriteToAPIServer | cloud/pkg/cloudstream/session.go:99-109 | a write accepts a prefix, of at least one byte unless it fails |
| StreamSession.Session.AddAPIServerConnection | cloud/pkg/cloudstream/session.go:116-127 | registers under a fresh id unless the tunnel is closed; the key is the connection's id |
| StreamSession.Session.DeleteAPIServerConnection | cloud/pkg/cloudstream/session.go:129-134 | removes the connection's own key |
| StreamSession.Session.ProxyTunnelMessageToApiserver | cloud/pkg/cloudstream/session.go:88-110 | takes the step `Delivered`: data reaches the connection of its id, whole unless a write fails, and no other |
| StreamSession.Session.Close | cloud/pkg/cloudstream/session.go:51-59 | closes the tunnel and leaves what was written |
| StreamSession.Session.ServeFrame | cloud/pkg/cloudstream/session.go:62-86 | one turn of the loop takes the step of the runs: a frame is delivered, or, if it does not decode, closes the session |
| StreamSession.FramedPayload | pkg/stream/message.go:82-103 | a framed message carries its data to its own connection only |
| StreamSession.RegisteredIff | cloud/pkg/cloudstream/session.go:116-134 | exactly who is registered after a step, with nothing written at first |
| StreamSession.ClosedIff | cloud/pkg/cloudstream/session.go:51-86 | a tunnel is closed exactly by closing or by a frame that does not decode |
| StreamSession.StepDelivers | cloud/pkg/cloudstream/session.go:62-110 | one event adds exactly its payload to a registered connection |
| StreamSession.IdsAreFresh | cloud/pkg/cloudstream/session.go:116-127 | ids are never used twice, in any session |
| StreamSession.DeliveredInOrder | cloud/pkg/cloudstream/session.go:62-134 | in every interleaving a connection has received the in-order concatenation of its data since registration |
| MissionAlign.MissionDeployer.IsMatchingMission | edge/pkg/clusterd/mission_deployer.go:182-206 | matches exactly when unplaced, placed by cluster name or by a shared label |
| MissionAlign.MissionDeployer.ApplyMission | edge/pkg/clusterd/mission_deployer.go:109-141 | the match is noted even when the command fails |
| MissionAlign.MissionDeployer.DeleteMission | edge/pkg/clusterd/mission_deployer.go:143-171 | the match is forgotten even when the command fails |
| MissionAlign.MissionDeployer.DeleteMissionByName | edge/pkg/clusterd/mission_deployer.go:173-180 | a mission that cannot be read is not forgotten |
| MissionAlign.MissionDeployer.AlignMissionList | edge/pkg/clusterd/mission_deployer.go:208-235 | both loops take the step `Align`; the error covers failed deletions only |
| MissionAlign.MissionDeployer.DeleteUnlisted | edge/pkg/clusterd/mission_deployer.go:219-228 | for every order of the listing, forgets the readable unlisted missions and deletes the deletable ones |
| MissionAlign.MissionDeployer.ReportMissions | edge/pkg/clusterd/edgecluster_state_reporter.go:137-171 | all noted missions once, and the matching ones; nothing from an unhealthy cluster |
| MissionAlign.NeedsMissionList | cloud/pkg/edgecontroller/controller/downstream.go:405-430 | the list is sent exactly when the sets of names differ |
| MissionAlign.ApplyAllContents | edge/pkg/clusterd/mission_deployer.go:208-217 | each mission whose command succeeds is held as it is last listed, all others stay, and the noted match is the last occurrence's |
| MissionAlign.AlignContents | edge/pkg/clusterd/mission_deployer.go:208-235 | after aligning, listed missions have the listed content and every other one still held is unchanged |
| MissionAlign.FailedListing | edge/pkg/clusterd/mission_deployer.go:219-228 | a listing that fails forgets and deletes nothing and is reported as an error |
| MissionAlign.AlignKeys | edge/pkg/clusterd/mission_deployer.go:208-235 | what aligning does to the noted and the held missions, with any commands failing |
| MissionAlign.ReportAgreesIff | edge/pkg/clusterd/mission_deployer.go:208-235 | the report agrees after one round exactly when every stale noted mission can be listed and read |
| MissionAlign.ClusterAgreesIff | edge/pkg/clusterd/mission_deployer.go:208-235 | the cluster agrees exactly when missing missions can be applied and surplus ones removed |
| MissionAlign.Round | cloud/pkg/edgecontroller/controller/downstream.go:405-430 | align, report, compare: the cloud sends again exactly when a stale noted mission could not be listed and read |
| MissionAlign.StepKeeps | edge/pkg/clusterd/mission_deployer.go:109-235 | events without failed applies keep the noted missions in the cluster, whatever deletions, reads or listings fail |
| MissionAlign.RunKeeps | edge/pkg/clusterd/mission_deployer.go:109-235 | over every run without failed applies, the noted missions are in the cluster |
| MissionAlign.OneRoundConverges | edge/pkg/clusterd/mission_deployer.go:208-235 | after every such run one successful alignment makes the cluster hold exactly the cloud's missions, content and all, and the report name exactly these with their matches |
| MissionAlign.StaleStaysNoted | edge/pkg/clusterd/mission_deployer.go:173-180 | a noted mission the cluster does not hold stays reported through every run that does not name it |
| MissionAlign.ForgottenLeftover | edge/pkg/clusterd/mission_deployer.go:143-171 | the report can agree with the cloud while the cluster does not |

## Left out

- Kubernetes clients, informers, beehive channels, websocket, QUIC, TLS and HTTP: their calls are outcomes in events and parameters.
- JSON, YAML, logging, configuration and wall-clock time: contents are opaque strings, timers are events.
- Eventual delivery: the code does not provide it after the last retry.
- MessageWriteLoop itself: its turns are the events of the transition system; one loop per node is assumed, and waiting in vain for a connection and skipping a message not meant for the edge are one outcome.
- Atomicity inside one dispatch and one save: the ObjectSync lister is taken to be current while a message is accepted.
- Other writers of the meta table on the edge, remote queries and their responses, and the list queue of CloudHub.
- UIDs with dots: Kubernetes issues none; ObjectSync names are only unambiguous without them.
- The sync controller's reconciliation, beyond its names and the fate of what it resends.
- UpdateState, mission contents and the shell commands behind them: a command succeeds or fails per mission.
- Hand-made changes to an edge cluster's missions: only the deployer's own commands are events.
- AddDevices and DealMembershipDetail: assume that what cannot be stored can be read back; AddDevice and UpdateDeviceAttr say what holds of one device otherwise.
- Device twins: their comparison, storage and deltas.
- Node-selector moves of devices: edits of one node's profile only.
- The `result` map that DealMsgAttr returns for publishing.
- An error from committing a transaction, as opposed to from its statements.
- Close-once of the peers of a stream, the edge side of the tunnel, and wrap-around of connection ids at 2^64.
- The guard against leaving a terminal pod phase, volumes and the rest of edged.
- Router, CSI driver, admission webhooks, inter-cluster gateway, keadm and the installers: thin wrappers.
