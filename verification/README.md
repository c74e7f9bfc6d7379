# Replication protocol: models and proofs

This project models the replication protocol of a game networking engine in Dafny and proves what the engine relies on.
Two engines share it: a server with predicting clients (`source/sync/tick_sync_core.cpp`) and a mesh of nodes that own
objects (`source/sync/tick_mesh_core.cpp`). Below them are the clock, the bit array, the data buffer and the net ids.

`dafny verify dfyconfig.toml` checks everything.

## How it is organised

| modules | what they are about |
|---|---|
| `Frames` | 32-bit frames and serials that wrap around, against unbounded counters; the slots of the rings |
| `Snapshots`, `SyncServer`, `SyncClient` | the snapshot codec, the splitting into parts, the two engines' rings |
| `Sending`, `Receiving` | what the messages say: which snapshots are full, what each entry carries, which parts are taken; a request for everything, from the client to its ring |
| `DeltaChain`, `DeltaSteps`, `DeltaRuns`, `Rebuild`, `FrameJump` | server, client and network over whole runs; a frame rebuilt from its parts; which jumps of the frames are safe |
| `Prediction`, `PredictionClient`, `PredictionTruth`, `PredictionLimits` | prediction, reconciliation and replay at a client, against what the game makes of the player's inputs; and where they stop being the same |
| `Inputs` | inputs on their way from a client to the server's ticks |
| `Ownership`, `MeshProtocol`, `MeshRuns`, `Transfers` | the rules of one object's ownership; registry, nodes and queues over whole runs; who gets an object, from the node that asks to every replica |
| `Registrar`, `Reports`, `Merging`, `MeshRegistry`, `Replicas`, `Views` | the maps of all the objects, at the registry and at a node; takeover, reports and announcements |
| `Roles`, `RolesTaken`, `LeftBehind`, `Quorum` | how the roles travel from node to node, and past whom; who may take a lost role, and who does |
| `NetIds` | ids in quarantine and the search of a free one |
| `Clock`, `ClockTruth` | the estimate of the master's time, against that time |
| `BitArray`, `Words`, `DataBuffer`, `Utf8` | bits, clamped integers, the cursor with its nested buffers, the recognizer of text |

Code that works by changing fields is a class (`SyncServer.SyncServer`, `SyncClient.SyncClient`, `PredictionClient.Client`,
`Inputs.InputBuffer`, `MeshRegistry.Registry`, `Replicas.MeshNode`, `NetIds.Allocator`, `Clock.TickClock`,
`BitArray.TickBitArray`, `DataBuffer.TickDataBuffer`). Each method is proved against a function from the old state to the
new one; the lemmas, and the systems whose runs are studied, are about those functions.

## What the theorems assume

- Delta chain: the frames of the server only increase, and it jumps ahead only when `IsSafeJump` holds (`FrameJump` shows
  what happens otherwise); a snapshot arrives before the ids' quarantine passes (twice the history), and an id is
  registered again only after the reliable messages about its old object arrived. The network may lose, repeat, reorder
  and truncate snapshots, and the client may acknowledge anything.
- Frames and versions are counted without wrapping around. `Frames` shows when that is the same as what the engines do:
  frames less than 2^31 apart and a history that divides 2^32; serials within a window one narrower than 2^20.
  The frame that stands for "none" (2^32 - 1) is an option here.
- Mesh: `MeshProtocol` is about one object and one registry process. Links are reliable and in order. Nodes may leave at any
  moment and don't come back; new ones may join once the registry settled. Reports may arrive while it settles and after,
  within one serial window.
- Roles: all the assignments are in one serial window, and the nodes are configured with the same first roles.
- Quorum: links are symmetric, and linked nodes have taken each other's current status.
- The game is a function: of the states and the input of an object, to its next state. A codec gives back what the engine
  quantized.

## What was found

- `FrameJump.GuardIsExact`: a server that follows another engine's timeline jumps without looking at its ring. A jump is
  safe while the ring keeps no record more than twice the history older than the frame jumped to
  (`DeltaSteps.StepKeeps`). One frame further, and for every size of the history, a run leaks: an id is used again while a
  base still has its old object, and the client takes that object's state for the new one's.
- `PredictionLimits.ReplayIsTickingExactly`: a tick stops at 255 objects, a rewind doesn't. Replays are what ticking would
  have done, in every game, if and only if there are at most 255 objects. `PredictionLimits.RewindTicksTheRest` is a run
  in which a rewind ticks one more.
- `Prediction.RewindStartsAtTheFrame`, `PredictionLimits.MissingObjectIsNotRestored`: a rewind is a replay of the frame
  exactly when the objects the snapshot lacks are as they were predicted there. Nothing puts the others back.
- `LeftBehind.HelloLeavesBehind`: roles learned from a hello aren't sent on. It says exactly which neighbours are left
  behind, from what is under way before the hello. One stays behind, ignoring the newer roles in a status, until it says
  what it knows or one of the two takes or makes an announcement (`LeftBehind.StaysBehindForARun`,
  `LeftBehind.StatusCatchesUp`); `LeftBehind.HelloCanLeaveBehind` is a run that does it.
- `Merging.OrderMattersExactly`: reports that give one path to different ids merge in any order, if each id names one path,
  to the newest of each path. The order matters if and only if, for some path, its newest reports are newer than what the
  registry had and name different ids or owners. With an id that names two paths it can matter otherwise
  (`Merging.MergeOfConflictsDependsOnOrder`).
- `Clock.HoldingSlewIsUnbounded`: while a clock holds its old timeline and has a new master's first samples, its estimate
  may be any distance from the applied offset; `Clock.SlewIsBounded` says exactly when that is more than the step. The
  inverse of the master's time (`Clock.InverseIsCloseExactly`) is within 13 microseconds exactly when the offset is at most
  104000 behind the estimate.
- `Frames.SerialWindowIsTight`: at a distance of exactly 2^20, a serial is newer if and only if it didn't cross the wrap;
  one that did is apart.
- `Quorum.QuorumIsExact`: nobody acts with a role while another node takes it, in every mesh of n nodes, if and only if the
  quorum is more than half of n (or there's one node). Below that a mesh that split has both.
- `Quorum.UniqueIsExact`: linked nodes have the same successor (`Quorum.LinkedTakersAreOne`), but not every node does: two
  that aren't linked may take a role at once, unless the quorum is all the nodes (or there's one). They announce the
  same term, and the comparison of roles orders them (`Roles.BeatsIsStrictOrder`).
- `Views.AnnouncementIsWritten`: an object bound to its entry stays bound when the registry corrects the entry's schema to
  another one than the object's; a new binding needs the same.
- `Snapshots.DropStaleNeedsDistinct`: the client compares counts to skip the removal of stale objects; that is right only
  because the entries of a snapshot name distinct objects.

## Model

| member | source | states |
|---|---|---|
| `Frames.FrameAfterIsOrder` | source/sync/tick_protocol.h:79-83 | on frames less than 2^31 apart, the wrapped comparison is the order of the unbounded frames |
| `Frames.SlotIsRemainder` | source/sync/tick_sync_core.h:286-287 | the ring slot used in the proofs is the remainder of the frame by the size |
| `Frames.SlotsOfARing` | source/sync/tick_sync_core.h:286-287 | within a ring's length two frames share a slot only if equal or exactly one length apart |
| `Frames.SlotsSurviveWrap` | source/sync/tick_sync_core.h:286-287 | wrapped frames use the same slots as unbounded ones if and only if the history divides 2^32 |
| `Frames.SerialIsRemainder` | source/sync/tick_mesh_core.cpp:33-36 | the k-th serial, starting over at 1 after 2^32 - 1, in closed form |
| `Frames.SerialNewerIsOrder` | source/sync/tick_mesh_core.cpp:41-56 | inside the window "newer" on the wire is the order of the counters, equal serials are equal counters, and none look apart |
| `Frames.SerialWindowIsTight` | source/sync/tick_mesh_core.cpp:41-56 | at the largest jump itself a serial is newer exactly when it didn't cross the wrap, and apart when it did |
| `Frames.SerialsCrossTheWrap` | source/sync/tick_mesh_core.cpp:41-56 | both happen |
| `Snapshots.DecodeEncode` | source/sync/tick_sync_core.cpp:1046-1059 | decoding gives the values back over the server's base, and over no base gives either nothing or the values; exactly when |
| `Snapshots.DropStaleKeys` | source/sync/tick_sync_core.cpp:1660-1672 | after the stale objects are dropped, the record has exactly the objects that were written |
| `Snapshots.DropStaleNeedsDistinct` | source/sync/tick_sync_core.cpp:1660-1672 | the shortcut on equal counts would keep a stale object if ids could repeat |
| `Snapshots.SplitComplete` | source/sync/tick_sync_core.cpp:1096-1168 | the parts in order are the entries in order; at most 64, one if full, and each but the last of 64 fits or has one entry |
| `Snapshots.SplitPartitions` | source/sync/tick_sync_core.cpp:1096-1168 | the parts share no object and together name every one |
| `Snapshots.PartsAreDisjoint` | source/sync/tick_sync_core.cpp:1096-1168 | two parts of a snapshot share no object |
| `SyncServer.EntriesAreRelevant` | source/sync/tick_sync_core.cpp:1096-1168 | the entries name each relevant object once and nothing else, each written over the chosen base |
| `SyncServer.SendIsComplete` | source/sync/tick_sync_core.cpp:1064-1183 | every relevant object is in exactly one of at most 64 numbered parts |
| `Sending.WhatIsSent` | source/sync/tick_sync_core.cpp:1064-1092 | by the messages: a request for a full snapshot is served; without one, over which frame the snapshot is, when it's full, and when nothing is sent |
| `Sending.WhatIsRemembered` | source/sync/tick_sync_core.cpp:1170-1183 | a full snapshot answers the request and is remembered; exactly the objects the client has since they became relevant are confirmed |
| `Sending.EntriesCarryChanges` | source/sync/tick_sync_core.cpp:1046-1059 | each entry of each message carries exactly the variables that changed since the message's base, or everything if the client may lack the object there |
| `Sending.PartsAreFew` | source/sync/tick_sync_core.cpp:1104-1154 | a part ends only where the next entry doesn't fit |
| `Sending.ObjectsAreAsAsked` | source/sync/tick_sync_core.cpp:1235-1259 | in every run the client is sent the objects the game said last it should be, and its own |
| `Sending.NewlyRelevantIsWhole` | source/sync/tick_sync_core.cpp:1187-1202 | in every run what became relevant after the base is written whole until the client has a frame since |
| `Sending.IdsAreGiven` | source/sync/tick_sync_core.cpp:260-282 | an id may be given to an object exactly when the allocator may give it |
| `Sending.AckedIsNewest` | source/sync/tick_sync_core.cpp:790-798 | in every run what the server takes for the client's newest frame is the newest it was told, in any order |
| `Sending.RequestIsKept` | source/sync/tick_sync_core.cpp:790-798 | in every run a request for a full snapshot stays until one is sent |
| `Sending.RequestIsHeard` | source/sync/tick_sync_core.cpp:790-798 | so does one the client makes; an acknowledgement without one asks for nothing |
| `Sending.RequestRestoresEverything` | source/sync/tick_sync_core.cpp:1067-1075 | what is sent next gives the client, in whatever order it arrives, the server's state of every relevant object it bound, and it has nothing left to ask for |
| `SyncServer.SyncServer.constructor` | source/sync/tick_sync_core.h:286-287 | an empty history, no object, a peer that needs a full snapshot |
| `SyncServer.SyncServer.ServerTick` | source/sync/tick_sync_core.cpp:914-1012 | the slot of the frame gets exactly the state of every object, the other slots stay, and the frame advances |
| `SyncServer.SyncServer.UnregisterObject` | source/sync/tick_sync_core.cpp:303-344 | the object leaves the live ones, every record of the history and the peer's maps, and its id goes into quarantine |
| `SyncServer.SyncServer.HandleAck` | source/sync/tick_sync_core.cpp:790-798 | the acknowledged frame only goes forward; a request for a full snapshot is kept |
| `SyncServer.SyncServer.SetPeerRelevant` | source/sync/tick_sync_core.cpp:1235-1259 | relevance of one object changes, and since when it must be confirmed; an object the client controls stays relevant |
| `SyncServer.SyncServer.WriteObjectState` | source/sync/tick_sync_core.cpp:1046-1059 | the loop writes what the codec says of the whole object |
| `SyncServer.SyncServer.WriteEntry` | source/sync/tick_sync_core.cpp:1187-1202 | same, changed, or new, by the base |
| `SyncServer.SyncServer.PickBase` | source/sync/tick_sync_core.cpp:1067-1088 | full, over an acknowledged frame still in the history, or nothing to send |
| `SyncServer.SyncServer.WriteParts` | source/sync/tick_sync_core.cpp:1104-1154 | the loop over the objects makes the split of the entries, and confirms what the acknowledged base has |
| `SyncServer.SyncServer.SendSnapshot` | source/sync/tick_sync_core.cpp:1064-1183 | the messages and the peer afterwards are those the whole-run proofs use |
| `SyncClient.SyncClient.HandleSnapshot` | source/sync/tick_sync_core.cpp:1595-1678 | the ring updated in place is what the value-level client has after the message, for every message |
| `SyncClient.SyncClient.StartSnapshot` | source/sync/tick_sync_core.cpp:1595-1649 | dropped or ready: a slot is only taken when its base is in another slot and has the base's frame |
| `SyncClient.SyncClient.ReadObjects` | source/sync/tick_sync_core.cpp:1682-1739 | the record being decoded in place, what was written and what is missing, over the base's record |
| `SyncClient.SyncClient.FinishPart` | source/sync/tick_sync_core.cpp:1650-1678 | a whole snapshot makes its record valid without stale objects; a truncated one is given up |
| `Receiving.OthersAreDropped` | source/sync/tick_sync_core.cpp:1595-1649 | what isn't taken changes nothing; a base in the frame's slot makes the client ask for everything |
| `Receiving.TakenPart` | source/sync/tick_sync_core.cpp:1631-1678 | a part begins its snapshot or goes on with it; the last one makes its frame the newest; a truncated one gives it up; no other record changes |
| `Receiving.AsksForFull` | source/sync/tick_sync_core.cpp:1660-1678 | a finished snapshot asks for a full one exactly when something is missing; a full one without is what was asked |
| `Receiving.EntryIsWritten` | source/sync/tick_sync_core.cpp:1682-1739 | an entry writes its object's state, or the object is missing if it's bound; no other object changes |
| `Receiving.DecodedOrMissing` | source/sync/tick_sync_core.cpp:1682-1739 | a value is one that travelled or its base's; without either the object can't be decoded |
| `DeltaSteps.StepKeeps` | source/sync/tick_sync_core.cpp:1064-1202 | every action of server, network, client and game, safe jumps included, keeps the invariant of the two rings, the messages and the log |
| `DeltaSteps.LeapKeeps` | source/sync/tick_sync_core.cpp:451-468 | a frame simulated after a jump keeps it, if no record the ring keeps is more than twice the history older |
| `DeltaRuns.OwnObjectsStayRelevant` | source/sync/tick_sync_core.cpp:1235-1259 | in every run the client's own objects are relevant to it, whatever the game says |
| `DeltaRuns.LogOnlyGrows` | source/sync/tick_sync_core.cpp:924-990 | the states logged at a frame never change in a run, so the log is a fixed reference |
| `DeltaRuns.ReceivedStatesAreTheServers` | source/sync/tick_sync_core.cpp:1595-1739 | in every run, with safe jumps, every state in a valid record of the client's ring is the one the server recorded for that object at that frame |
| `Rebuild.AnyOrder` | source/sync/tick_sync_core.cpp:1631-1677 | what a client has of a frame depends only on which parts arrived, not on order or repeats |
| `Rebuild.PartsRebuildTheFrame` | source/sync/tick_sync_core.cpp:1631-1677 | with every part in, the client has exactly the server's state of every relevant object it can recover, and finds nothing missing exactly when it can recover every one it bound |
| `Rebuild.MissingIsUnrecoverable` | source/sync/tick_sync_core.cpp:1682-1739 | an object is missing from the parts if and only if the base has what the client lacks |
| `FrameJump.BeforeIsReached` | source/sync/tick_sync_core.cpp:451-468 | the state before the jump is reached by a run from the start, for every size of the history |
| `FrameJump.UnsafeJumpLeaks` | source/sync/tick_sync_core.cpp:451-468 | past the guard a run leaks another object's state under a reused id, for every size of the history and every such jump |
| `FrameJump.GuardIsExact` | source/sync/tick_sync_core.cpp:451-468 | every run after the jump is sound if and only if the guard holds, for every size of the history and every jump |
| `Prediction.RewindEqualsReplay` | source/sync/tick_sync_core.cpp:1889-1996 | after a divergence with every object in the snapshot, each later record is the replay of the recorded inputs from the server's state, and the objects are as the last record |
| `Prediction.RewindReplays` | source/sync/tick_sync_core.cpp:1936-1989 | the same whatever the snapshot lacks, from the objects as they are overlaid by it |
| `Prediction.RewindStartsAtTheFrame` | source/sync/tick_sync_core.cpp:1939-1950 | the start of the rewind is the frame's state if and only if the objects the snapshot lacks are unchanged since |
| `PredictionLimits.MissingObjectIsNotRestored` | source/sync/tick_sync_core.cpp:1943-1945 | a run to a rewind that ticks a missing object from its later state |
| `Prediction.RecordsAreContiguous` | source/sync/tick_sync_core.cpp:2001-2048 | in every run the valid records are of consecutive frames ending with the last predicted one, and the objects are as it says |
| `Prediction.ReconcileKeeps` | source/sync/tick_sync_core.cpp:1889-1996 | a reconciliation keeps that, whichever objects the snapshot has |
| `Prediction.ReplayIsTicking` | source/sync/tick_sync_core.cpp:1952-1989 | with at most 255 objects a replay is what ticking from that state would have done |
| `Prediction.UntickedStays` | source/sync/tick_sync_core.cpp:2016-2018 | an object past the 255th isn't ticked nor recorded |
| `PredictionLimits.ReplayIsTickingExactly` | source/sync/tick_sync_core.cpp:2016-2018 | simulating a tick again gives what it gave, in every game with any input, if and only if there are at most 255 objects |
| `PredictionLimits.RewindTicksTheRest` | source/sync/tick_sync_core.cpp:1952-1989 | a run to a rewind that ticks an object no tick reaches, so it ends where ticking from the same state wouldn't |
| `Prediction.OneRewindIsEnough` | source/sync/tick_sync_core.cpp:1889-1996 | if the server ticks with the recorded inputs, no later snapshot differs after one rewind |
| `PredictionTruth.TickPlaysTheFirst` | source/sync/tick_sync_core.cpp:2012-2040 | each of the first 255 objects in turn becomes what the game makes of it with the input it gave, which is recorded; a frame simulated again plays what was recorded |
| `PredictionTruth.InputsReachTheGame` | source/sync/tick_sync_core.cpp:2001-2048 | after any frames the objects are what the game makes of the inputs given in each, and the last records say so |
| `PredictionTruth.CorrectionReplaysInputs` | source/sync/tick_sync_core.cpp:1889-1996 | a snapshot of any frame the client still has makes its records, and its objects, what the game makes of the server's state with the inputs given later; to compare first is the same as to rewind every time |
| `PredictionTruth.SnapshotsAreComparedOnce` | source/sync/tick_sync_core.cpp:1889-1909 | a snapshot is ignored exactly when there's nothing to compare, or one as new was compared |
| `PredictionTruth.StartsOver` | source/sync/tick_sync_core.cpp:1825-1875 | a prediction that starts or jumps has no record; one that starts takes what the latest snapshot says of its objects |
| `PredictionTruth.NewObjectsAsFound` | source/sync/tick_sync_core.cpp:1431-1453 | new objects start as found, the others go on |
| `PredictionClient.Client.StartPrediction` | source/sync/tick_sync_core.cpp:1825-1856 | every record forgotten, the latest snapshot taken over the objects, the start frame |
| `PredictionClient.Client.JumpTo` | source/sync/tick_sync_core.cpp:1861-1884 | a jump forgets every record |
| `PredictionClient.Client.ClientTick` | source/sync/tick_sync_core.cpp:2001-2048 | objects ticked in order, and the slot of the frame with exactly their inputs and states |
| `PredictionClient.Client.HasDiverged` | source/sync/tick_sync_core.cpp:1910-1934 | whether some predicted object the snapshot has differs from its prediction |
| `PredictionClient.Client.ClientReconcile` | source/sync/tick_sync_core.cpp:1889-1996 | objects and ring after a snapshot, for every snapshot and every state |
| `PredictionClient.Client.SimulateAgain` | source/sync/tick_sync_core.cpp:1952-1989 | the loop over the later frames is the replay one frame after the other |
| `PredictionClient.TickIntoIs` | source/sync/tick_sync_core.cpp:2015-2040 | ticking and recording object by object is ticking them all and recording the result |
| `Inputs.ExpandGroups` | source/sync/tick_sync_core.cpp:415-432 | expanding the groups gives the frames back |
| `Inputs.GroupsAreShortest` | source/sync/tick_sync_core.cpp:415-432 | no groups that expand to the same frames, with counts that fit a byte, are fewer |
| `Inputs.WriteGroups` | source/sync/tick_sync_core.cpp:415-432 | the loop writes the fewest groups that expand to the frames |
| `Inputs.UsableIsAll` | source/sync/tick_sync_core.cpp:799-811 | what the server takes of a message is a prefix of what it describes, at most 64 frames, all of it if well formed |
| `Inputs.AcceptAllIsMapUpdate` | source/sync/tick_sync_core.cpp:811-837 | the ring is a map of the frames to simulate: it gains those in reach that it lacks, and replaces none |
| `Inputs.ResolveIsMapRemove` | source/sync/tick_sync_core.cpp:879-909 | the input used is the frame's own, else the last one; the frame leaves the map |
| `Inputs.ServerUsesOwnInputs` | source/sync/tick_sync_core.cpp:771-909 | in every run the server uses the client's own input of a frame if a message with it came in time, else the input of the frame before |
| `Inputs.OwnMessageIsWhole` | source/sync/tick_sync_core.cpp:415-432 | what a client writes is taken whole |
| `Inputs.OwnInputIsUsed` | source/sync/tick_sync_core.cpp:771-909 | an input that comes in time for the next frame is used in it, from any start |
| `Inputs.NewestIsKnown` | source/sync/tick_sync_core.cpp:811-836 | the newest frame received is the newest described that isn't too early, late ones included |
| `Inputs.InputBuffer.HandleInputs` | source/sync/tick_sync_core.cpp:771-838 | the ring after a message of groups, malformed ones included |
| `Inputs.InputBuffer.AcceptFrame` | source/sync/tick_sync_core.cpp:812-836 | too late, too early, known, or kept in its slot |
| `Inputs.InputBuffer.ResolveInput` | source/sync/tick_sync_core.cpp:879-909 | the input used and the ring after it |
| `Ownership.ReleaseIsAnswered` | source/sync/tick_mesh_core.cpp:1437-1482 | every release of a ready node gets a denial or an announcement of another owner |
| `MeshProtocol.HandleOk` | source/sync/tick_mesh_core.cpp:746-790 | whatever the registry answers to any message, each announcement to everyone is the next version, and the record stays in step |
| `MeshProtocol.SendAllKeepsChains` | source/sync/tick_mesh_core.cpp:1350-1365 | every queue to a node keeps going through the versions one by one, from its own to the last |
| `MeshRuns.StepKeeps` | source/sync/tick_mesh_core.cpp:574-798 | every step of nodes, registry, network and game keeps the invariant; nodes leave and join |
| `MeshRuns.NoReleaseIsLost` | source/sync/tick_mesh_core.cpp:1667-1747 | in every run a frozen object is the node's own and its release is under way or deferred, or what ends it is on its way back |
| `MeshRuns.QuietMeansThawed` | source/sync/tick_mesh_core.cpp:1667-1747 | with no message left between a node and the registry, nothing of the node's is frozen |
| `MeshRuns.ReplicasConverge` | source/sync/tick_mesh_core.cpp:1532-1662 | a node that took everything, even one that joined late, has the registry's owner and version, or no entry if the object was dropped |
| `MeshRuns.ReplicasAreRecorded` | source/sync/tick_mesh_core.cpp:1532-1609 | what a node believes is an owner and version the registry recorded together |
| `MeshRuns.RunsGoForward` | source/sync/tick_mesh_core.cpp:1350-1365 | no node goes back to an older version, and what was recorded stays recorded |
| `MeshRuns.VersionNamesOneOwner` | source/sync/tick_mesh_core.cpp:1350-1365 | a version on the wire names one owner, while fewer versions than there are were announced |
| `MeshRuns.VersionsFenceStates` | source/sync/tick_mesh_core.cpp:1091-1134 | a node takes a state sample if and only if it was sent under the version the node is at; then it is that version's owner's |
| `Transfers.OwnerIsAnswered` | source/sync/tick_mesh_core.cpp:1350-1482 | the owner after any message to a registry that acts: who asks for an object whose owner isn't ready, or who its owner releases it to; announced to everyone with the next version, or nothing is |
| `Transfers.OwnerIsAsked` | source/sync/tick_mesh_core.cpp:1369-1432 | a ready owner is asked for the node that wants the object, once; it may refuse a request, not an assignment |
| `Transfers.WhatIsDenied` | source/sync/tick_mesh_core.cpp:1369-1482 | what is denied, and to whom; and nothing else is |
| `Transfers.SameOwnerIsIgnored` | source/sync/tick_mesh_core.cpp:1369-1432 | asking for what is so already does nothing |
| `Transfers.RefusalEnds` | source/sync/tick_mesh_core.cpp:1437-1455 | a refusal by the owner ends the transfer and is told to who asked |
| `Transfers.LoserIsDenied` | source/sync/tick_mesh_core.cpp:1350-1365 | a transfer that ends otherwise than it was asked for is denied |
| `Transfers.FirstOwner` | source/sync/tick_mesh_core.cpp:1191-1246 | the first owner of a path: who is named, or who claims it, or nobody if it left |
| `Transfers.ReleaseCrossesCorrection` | source/sync/tick_mesh_core.cpp:1350-1365 | a release that crosses a correction of the schema still counts |
| `Transfers.LeaverLetsGo` | source/sync/tick_mesh_core.cpp:1486-1511 | what a node that left takes with it, and who is told |
| `Transfers.LateTransferEnds` | source/sync/tick_mesh_core.cpp:1515-1525 | a transfer not answered in time ends, and who asked is told |
| `Transfers.NewerReportCounts` | source/sync/tick_mesh_core.cpp:2467-2496 | a report replaces an older record only, by the order of the versions |
| `Transfers.OldNewsIsIgnored` | source/sync/tick_mesh_core.cpp:1551-1555 | a node takes the announcements that aren't older than what it has, by the order of the versions |
| `Transfers.AsksExactly` | source/sync/tick_mesh_core.cpp:1752-1811 | what each call of the game sends, and what it leaves of the node's view |
| `Transfers.OwnerFollows` | source/sync/tick_mesh_core.cpp:574-798 | the owner after any step of nodes, registry, network and game |
| `Transfers.EveryoneLearns` | source/sync/tick_mesh_core.cpp:1532-1609 | in every run in which the record stays, a replica that took everything names its owner |
| `Transfers.RequestIsPassedOn` | source/sync/tick_mesh_core.cpp:1369-1399 | a request of a node reaches the owner |
| `Transfers.AssignmentIsPassedOn` | source/sync/tick_mesh_core.cpp:1403-1432 | so does an assignment by a third node |
| `Transfers.TransferIsDone` | source/sync/tick_mesh_core.cpp:1437-1482 | granted, or not to be refused, it ends with the node it was asked for as the owner, announced to everyone |
| `Transfers.RequestIsRefused` | source/sync/tick_mesh_core.cpp:1691-1718 | refused, the owner keeps the object and who asked is told |
| `Transfers.ReleaseIsDone` | source/sync/tick_mesh_core.cpp:1437-1482 | what the game releases ends with the node it was released to |
| `Transfers.DropIsDone` | source/sync/tick_mesh_core.cpp:1250-1263 | what its owner drops is gone for everyone |
| `Transfers.ClaimIsDone` | source/sync/tick_mesh_core.cpp:1191-1246 | what is claimed first is owned by who is named, or who claims it, announced to everyone |
| `Transfers.WhatWaits` | source/sync/tick_mesh_core.cpp:2284-2294 | what waits for a registry that can't act, in order, and what is refused |
| `Transfers.ReporterIsTold` | source/sync/tick_mesh_core.cpp:2497-2560 | who reports late gets the registry's record after its last message |
| `Transfers.OwnersSendStates` | source/sync/tick_mesh_core.cpp:1031-1045 | which states are sent, and under which version |
| `Transfers.TransfersNameReadyNodes` | source/sync/tick_mesh_core.cpp:1486-1511 | in every run a registry that acts has transfers between nodes that are there only |
| `Transfers.WaitEnds` | source/sync/tick_mesh_core.cpp:1723-1747 | a node waits no more once it's denied, or told of another owner |
| `Replicas.BoundOnce` | source/sync/tick_mesh_core.cpp:380-393 | a local object is bound to at most one entry |
| `Replicas.AnnouncementKeeps` | source/sync/tick_mesh_core.cpp:1532-1647 | ids and paths stay inverse maps whatever an announcement says |
| `Replicas.UnregisterKeeps` | source/sync/tick_mesh_core.cpp:1651-1662 | and when an entry is removed |
| `Replicas.AddObjectKeeps` | source/sync/tick_mesh_core.cpp:400-416 | and when the game adds an object |
| `Replicas.RemoveObjectKeeps` | source/sync/tick_mesh_core.cpp:421-443 | and when it removes one |
| `Replicas.AnnouncementWins` | source/sync/tick_mesh_core.cpp:1556-1609 | an announcement that isn't old leaves its path, id, owner and version together |
| `Replicas.OthersAreSpared` | source/sync/tick_mesh_core.cpp:1556-1601 | another entry is forgotten exactly when it had the path, and changes in no other way |
| `Replicas.AnnouncementIsOwnerships` | source/sync/tick_mesh_core.cpp:1603-1609 | on one object it does what the protocol's model says, and nothing to the others |
| `Replicas.DenialIsOwnerships` | source/sync/tick_mesh_core.cpp:1723-1747 | a denial does what the protocol's model says to one object, and nothing to the others |
| `Replicas.TransferIsOwnerships` | source/sync/tick_mesh_core.cpp:1691-1718 | so does a transfer, with the message it sends |
| `Replicas.CancelKeeps` | source/sync/tick_mesh_core.cpp:2244-2256 | after the releases are given up nothing is frozen and the maps stay inverse |
| `Views.AnnouncementIsWritten` | source/sync/tick_mesh_core.cpp:1532-1647 | the entry an announcement leaves, its binding and its release included, whatever it names; of the others only who had its path is gone; when it's ignored |
| `Views.RequestsAreAnswered` | source/sync/tick_mesh_core.cpp:1585-1600 | exactly the requests of the id whose owner changes, and of the id that loses the path, aren't pending anymore |
| `Views.RenamedIsClaimed` | source/sync/tick_mesh_core.cpp:1571-1584 | a local object whose id is given to another path is claimed again |
| `Views.RemovalIsWritten` | source/sync/tick_mesh_core.cpp:1651-1662 | what the registry removed is forgotten with its path, and nothing else |
| `Views.ReleasesAreGivenUp` | source/sync/tick_mesh_core.cpp:2244-2256 | the frozen entries thaw and the others stay |
| `Views.ObjectsAreBound` | source/sync/tick_mesh_core.cpp:380-443 | an object added is bound to the entry of its path with its schema, and claimed; one removed is bound to none |
| `Views.ViewsStayWhole` | source/sync/tick_mesh_core.cpp:1532-1747 | over any messages and objects added and removed: ids and paths inverse, every local object claimed, the highest id above every entry |
| `Replicas.MeshNode.constructor` | source/sync/tick_mesh_core.h:74-94 | a node without entries |
| `Replicas.MeshNode.HandleAnnounce` | source/sync/tick_mesh_core.cpp:1532-1647 | the maps updated in place, for every announcement |
| `Replicas.MeshNode.HandleUnregister` | source/sync/tick_mesh_core.cpp:1651-1662 | entry and path removed together |
| `Replicas.MeshNode.HandleDenied` | source/sync/tick_mesh_core.cpp:1723-1747 | the object thaws if it is the node's own, and no request is pending |
| `Replicas.MeshNode.HandleTransfer` | source/sync/tick_mesh_core.cpp:1691-1718 | ignored, refused, or frozen and released; with the message |
| `Replicas.MeshNode.GiveUpReleases` | source/sync/tick_mesh_core.cpp:2244-2256 | the loop thaws every entry |
| `Registrar.ApplyKeeps` | source/sync/tick_mesh_core.cpp:1350-1365 | an answer about one object keeps the maps inverse and no other record changes |
| `Registrar.MergeKeeps` | source/sync/tick_mesh_core.cpp:2467-2496 | the maps stay inverse whatever a report says, conflicting ids and paths included |
| `Merging.MergeIsByPath` | source/sync/tick_mesh_core.cpp:2467-2496 | when each id names one path and each path's versions are in a window of its own, a report changes who has its path only, and only if it is newer |
| `Merging.MergedIsNewest` | source/sync/tick_mesh_core.cpp:2433-2496 | each path ends with what its newest report says, or what the registry had if that is no older |
| `Merging.MergeInAnyOrder` | source/sync/tick_mesh_core.cpp:2433-2496 | any order, and any repeats, give the same names, owners and versions, when the newest reports of each path say the same |
| `Merging.OrderMattersExactly` | source/sync/tick_mesh_core.cpp:2433-2496 | every order of the reports gives the same books if and only if they do |
| `Merging.MergeOfConflictsDependsOnOrder` | source/sync/tick_mesh_core.cpp:2467-2496 | with an id that names two paths, two orders with different results |
| `Registrar.LateReportIsAnnounced` | source/sync/tick_mesh_core.cpp:2497-2504 | after the takeover, a newer report is announced with a version newer than its own, under its owner or nobody, and no other path changes |
| `Registrar.TakeOverKeeps` | source/sync/tick_mesh_core.cpp:2564-2589 | the books copied from a node's view have inverse maps |
| `Merging.TakeOverLosesNothing` | source/sync/tick_mesh_core.cpp:2594-2620 | every path any node reported ends with a version newer than any reporter had of it, under the newest one's owner, or nobody if it left |
| `Registrar.NextIdIsNew` | source/sync/tick_mesh_core.cpp:2594-2620 | the next id is after every id any node heard of, below the last one |
| `Registrar.FinishKeeps` | source/sync/tick_mesh_core.cpp:2594-2620 | finishing keeps the maps inverse and announces every record again |
| `Reports.ReportIsWritten` | source/sync/tick_mesh_core.cpp:2455-2496 | the record a report leaves, its schema included; of the others only who had its path is gone; when it's ignored |
| `Reports.InterruptedAreDenied` | source/sync/tick_mesh_core.cpp:2467-2490 | exactly the askers of the transfers it interrupts are told |
| `Reports.LateReportIsWritten` | source/sync/tick_mesh_core.cpp:2497-2504 | the record, the messages and the next id after a late report |
| `Reports.LateHeaderIsWritten` | source/sync/tick_mesh_core.cpp:2433-2454 | the next id goes past the highest a late report heard of |
| `Reports.TakeOverIsWritten` | source/sync/tick_mesh_core.cpp:2564-2589 | the record of each entry of the node that takes over |
| `Reports.ReportsAreMerged` | source/sync/tick_mesh_core.cpp:2433-2560 | the reports of all the nodes are merged as one list of their objects, each up to its first malformed one |
| `Reports.ReportsCountInTurn` | source/sync/tick_mesh_core.cpp:2455-2505 | the objects of a late report count one after the other |
| `Reports.FinishIsWritten` | source/sync/tick_mesh_core.cpp:2594-2620 | each record with a new version, and no owner that isn't there |
| `Reports.TakeOverKeepsReference` | source/sync/tick_mesh_core.cpp:2564-2620 | whatever the nodes report, the registry's own objects give the schemas |
| `MeshRegistry.Registry.constructor` | source/sync/tick_mesh_core.h:97-112 | empty books |
| `MeshRegistry.Registry.SendDenial` | source/sync/tick_mesh_core.cpp:1316-1325 | one denial, only to a ready node |
| `MeshRegistry.Registry.SetOwner` | source/sync/tick_mesh_core.cpp:1350-1365 | record and messages of a change of owner, and nothing else in the books |
| `MeshRegistry.Registry.TakeRequest` | source/sync/tick_mesh_core.cpp:1369-1399 | every branch of a request: denied, ignored, given at once, or asked of the owner |
| `MeshRegistry.Registry.TakeAssign` | source/sync/tick_mesh_core.cpp:1403-1432 | every branch of an assignment, a negative target included |
| `MeshRegistry.Registry.TakeRelease` | source/sync/tick_mesh_core.cpp:1437-1482 | every branch of a release and of a refusal |
| `MeshRegistry.Registry.TakeDrop` | source/sync/tick_mesh_core.cpp:1250-1263 | the owner's object leaves both maps and its id goes into quarantine |
| `MeshRegistry.Registry.OnPeerLeft` | source/sync/tick_mesh_core.cpp:1486-1511 | every record the node took part in changes as the protocol's model says, with its messages; the others stay |
| `MeshRegistry.Registry.CheckTimeouts` | source/sync/tick_mesh_core.cpp:1515-1525 | exactly the late transfers are cancelled, with their denials |
| `MeshRegistry.Registry.TakeClaim` | source/sync/tick_mesh_core.cpp:1191-1246 | known path, too many objects, or the first free id out of quarantine, announced to everyone |
| `MeshRegistry.Registry.FreeId` | source/sync/tick_mesh_core.cpp:1209-1229 | none exactly when too many are taken; else the first free one, and the search goes on after it |
| `MeshRegistry.Registry.ClaimAgain` | source/sync/tick_mesh_core.cpp:1191-1208 | the known object goes to the claimant, or to everyone when its schema is corrected |
| `MeshRegistry.Registry.StartTakeOver` | source/sync/tick_mesh_core.cpp:2564-2589 | the loop copies every entry of the node, and the highest id is the largest of them or the one heard of before |
| `MeshRegistry.Registry.TakeTold` | source/sync/tick_mesh_core.cpp:2455-2496 | one reported object: skipped, malformed, or merged, with the denials of the transfers it ends |
| `MeshRegistry.Registry.TakeLateTold` | source/sync/tick_mesh_core.cpp:2455-2504 | one object of a report after the takeover: announced at once, its id never given again |
| `MeshRegistry.Registry.TakeLateReport` | source/sync/tick_mesh_core.cpp:2433-2560 | a whole late report, up to its first malformed object, with the answer to its sender |
| `MeshRegistry.Registry.TakeReport` | source/sync/tick_mesh_core.cpp:2433-2505 | a whole report, up to its first malformed object |
| `MeshRegistry.Registry.FinishTakeOver` | source/sync/tick_mesh_core.cpp:2594-2620 | every record announced again exactly once, departed owners gone, the next id set |
| `NetIds.FreshIsRecent` | source/sync/tick_net_ids.h:14-24 | a wrapped difference below the quarantine means the id was released fewer frames ago |
| `NetIds.PruneQuarantine` | source/sync/tick_net_ids.h:14-24 | exactly the expired ids are forgotten |
| `NetIds.AttemptsAreDistinct` | source/sync/tick_sync_core.cpp:260-282 | the search tries a different id at every attempt |
| `NetIds.SomeAttemptSucceeds` | source/sync/tick_sync_core.cpp:260-282 | below the limit one of the 65535 attempts finds an id that is free |
| `NetIds.FoundIsNearest` | source/sync/tick_sync_core.cpp:260-282 | the id found is free, and the nearest free one going up and around |
| `NetIds.NoIdComesBackEarly` | source/sync/tick_net_ids.h:14-24 | in every run of ids given and released, none is given while an object has it, nor less than a quarantine after it was released |
| `NetIds.FindFree` | source/sync/tick_sync_core.cpp:260-282 | the loop ends on the first free id: not 0, not live, not in quarantine |
| `NetIds.Allocator.Allocate` | source/sync/tick_sync_core.cpp:260-282 | none exactly when live and quarantined ids reach the limit even once pruned; else the first free one |
| `NetIds.Allocator.Release` | source/sync/tick_sync_core.cpp:303-344 | the id goes from the live ones into quarantine, since this frame |
| `Roles.BeatsIsLater` | source/sync/tick_mesh_core.cpp:1835-1844 | in one window the comparison on the wire is the order of unbounded terms, then of registry and clock |
| `Roles.BeatsIsStrictOrder` | source/sync/tick_mesh_core.cpp:1835-1844 | irreflexive, transitive and total on one window |
| `Roles.BeatsNeedsWindow` | source/sync/tick_mesh_core.cpp:1835-1844 | over more than a window it isn't transitive |
| `Roles.StepKeeps` | source/sync/tick_mesh_core.cpp:1814-1890 | every step but a hello that teaches keeps: a neighbour knows at least as much, or is being told, or will be asked |
| `Roles.NeighboursAreTold` | source/sync/tick_mesh_core.cpp:1848-1890 | in every run that holds for every ready link |
| `Roles.LinkedNodesAgree` | source/sync/tick_mesh_core.cpp:1867-1890 | nodes linked by a path without messages under way have the same term, registry and clock master |
| `Roles.RolesGoForward` | source/sync/tick_mesh_core.cpp:2128-2239 | every step leaves each node with roles at least as late, unless it restarts |
| `RolesTaken.NodesKnowTheLatest` | source/sync/tick_mesh_core.cpp:1814-1890 | what every node knows after a step: the roles it was given with the next term, or the latest of what it took and had |
| `RolesTaken.ChangesAreAnnounced` | source/sync/tick_mesh_core.cpp:1814-1830 | a change is announced to every ready neighbour and nobody else; so is a status told |
| `RolesTaken.NewsIsPassedOn` | source/sync/tick_mesh_core.cpp:1867-1890 | newer roles are passed on to every ready neighbour, older ones answered, others neither |
| `RolesTaken.OldStatusIsAnswered` | source/sync/tick_mesh_core.cpp:2080-2084 | an older status is answered, and no other |
| `RolesTaken.HelloIsAnswered` | source/sync/tick_mesh_core.cpp:520-569 | which hellos make a node ready, and the answer |
| `RolesTaken.MalformedIsIgnored` | source/sync/tick_mesh_core.cpp:1875-1880 | what names nobody for a role or is out of the window is ignored |
| `LeftBehind.HelloLeavesBehind` | source/sync/tick_mesh_core.cpp:520-569 | a hello leaves a neighbour behind if and only if, before it, that one is ready, doesn't know the roles and has no older status under way |
| `LeftBehind.BehindIsUncovered` | source/sync/tick_mesh_core.cpp:520-569 | being behind is exactly what the invariant of the other runs excludes |
| `LeftBehind.StaysBehindForARun` | source/sync/tick_mesh_core.cpp:2056-2088 | in every run, hellos that teach included, it stays behind until one of the steps that may tell it |
| `LeftBehind.StatusCatchesUp` | source/sync/tick_mesh_core.cpp:2056-2088 | once it says what it knows, it will be told |
| `LeftBehind.StatusBringsAgreement` | source/sync/tick_mesh_core.cpp:2056-2088 | a run in which it does and both end with the same roles |
| `LeftBehind.HelloCanLeaveBehind` | source/sync/tick_mesh_core.cpp:520-569 | a run from the start to such a hello |
| `Quorum.QuorumsMeet` | source/sync/tick_mesh_core.cpp:239-241 | two quorums of more than half the nodes share one |
| `Quorum.NeighboursSeeIt` | source/sync/tick_mesh_core.cpp:2013-2023 | every node linked to the process with a role, the registry or the clock, reports that it sees it |
| `Quorum.SharedNeighbourObjects` | source/sync/tick_mesh_core.cpp:1925-1971 | a node that shares a neighbour with that process doesn't take the role |
| `Quorum.TakenRoleCantAct` | source/sync/tick_mesh_core.cpp:1925-1971 | when a node takes a vacant role, no process that had it has its quorum |
| `Quorum.QuorumIsExact` | source/sync/tick_mesh_core.cpp:239-241 | for either role and whatever the candidates, no node takes it while another acts with it, in every mesh of n nodes, if and only if the quorum is more than half of them or n < 2 |
| `Quorum.LinkedTakersAreOne` | source/sync/tick_mesh_core.cpp:1894-1920 | two linked nodes never both take what is vacant |
| `Quorum.UniqueIsExact` | source/sync/tick_mesh_core.cpp:1938-1971 | at most one node takes a role, in every mesh of n nodes, if and only if the quorum is at least n or n < 2 |
| `Quorum.TakesExactly` | source/sync/tick_mesh_core.cpp:1894-1971 | where every node is linked to every other: a node takes the roles exactly when one is gone, it's the successor, and there's a quorum |
| `Quorum.LostRoleIsTaken` | source/sync/tick_mesh_core.cpp:1934-1971 | there, a role that any node finds gone is taken by some node, which has it then |
| `Quorum.FilledHas` | source/sync/tick_mesh_core.cpp:1964-1971 | taking the roles gives this process the vacant ones with the next term, and leaves the others |
| `Quorum.TakesUnlessObjected` | source/sync/tick_mesh_core.cpp:1934-1963 | in any mesh: vacant, successor, quorum, and no ready node that said nothing, speaks of other roles, or sees the process |
| `Quorum.BothLearn` | source/sync/tick_mesh_core.cpp:1975-2009 | what two nodes that knew different processes know after they told each other: the one that isn't there anymore |
| `Clock.WrappedDifference` | source/tick/tick_clock.cpp:40-60 | the 64-bit difference read as signed is the difference of the times |
| `Clock.OffsetStaysBetween` | source/tick/tick_clock.cpp:153-166 | the applied offset never overshoots and arrives within twenty times the difference |
| `Clock.OffsetMovesSlowly` | source/tick/tick_clock.cpp:153-166 | it moves at most a twentieth of the time, so master time never goes back between samples |
| `Clock.SampleIsContinuous` | source/tick/tick_clock.cpp:40-85 | a sample within the step leaves the applied offset as it was at that instant |
| `Clock.HoldEndsWhereItWas` | source/tick/tick_clock.cpp:110-117 | when a hold ends the timeline jumps by nothing within the step, else by exactly the difference |
| `Clock.EventKeepsTimeline` | source/tick/tick_clock.cpp:40-133 | neither a sample, nor a new master, nor the end of a hold moves the timeline at its instant, unless an estimate is a step away |
| `Clock.TimelineNeverGoesBack` | source/tick/tick_clock.cpp:217-219 | over any interleaving of samples, queries, changes of master and of the epoch held back by them, the answers never decrease |
| `Clock.InverseIsClose` | source/tick/tick_clock.cpp:186-204 | for every clock, to local time and back is off by no more than the distance to the estimate divided by twenty three times, rounded up |
| `Clock.InverseIsCloseExactly` | source/tick/tick_clock.cpp:193-204 | behind the estimate, it is within 13 microseconds of every time if and only if the distance is at most 104000 |
| `Clock.SlewIsBounded` | source/tick/tick_clock.cpp:76-84 | after any actions the estimate is within the step of where the offset started, if and only if the clock doesn't hold or the estimate is small |
| `Clock.HoldingSlewIsUnbounded` | source/tick/tick_clock.cpp:110-117 | a run to a holding clock with the estimate any distance away, and when its inverse is still close |
| `Clock.PushKeepsWindow` | source/tick/tick_clock.cpp:60-76 | the ring holds exactly the last samples |
| `Clock.EstimateIsBestOfLast` | source/tick/tick_clock.cpp:137-149 | the estimate is that of a sample with the lowest round trip among the last ones |
| `ClockTruth.SampleIsClose` | source/tick/tick_clock.cpp:53-57 | a round trip says how far the master is ahead to within half of how long it took |
| `ClockTruth.EstimateIsTrue` | source/tick/tick_clock.cpp:40-76 | over any run, with masters that follow one another, the estimate is within half the lowest of the last round trips to the master of the moment |
| `ClockTruth.TimeIsTrue` | source/tick/tick_clock.cpp:153-183 | so is the time the clock says, once it had time to get there |
| `ClockTruth.SynchronizedExactly` | source/tick/tick_clock.cpp:90-118 | after any run: whether the clock is synchronized, the master's, or still holds a timeline; and nothing is left of dropped samples |
| `ClockTruth.RoundTripApplies` | source/tick/tick_clock.cpp:76-85 | a round trip leaves the applied offset at its instant if the clock is synchronized and the estimate within the step, else the estimate applies |
| `ClockTruth.TakesExactly` | source/tick/tick_clock.cpp:20-47 | which round trips and epochs are taken |
| `ClockTruth.MasterIsReference` | source/tick/tick_clock.cpp:187-190 | the master's clock is its own time |
| `ClockTruth.EpochIsLastTold` | source/tick/tick_clock.cpp:110-133 | over any samples, holds and epochs, the epoch that counts is the one told last |
| `ClockTruth.NothingWraps` | source/tick/tick_clock.cpp:20-47 | over any run, every number a clock computes with fits 64 bits |
| `Clock.TickClock.DropSamples` | source/tick/tick_clock.cpp:90-98 | the estimate starts over |
| `Clock.TickClock.HoldTimeline` | source/tick/tick_clock.cpp:110-117 | the old timeline is kept until there are samples |
| `Clock.TickClock.SetMasterEpoch` | source/tick/tick_clock.cpp:123-133 | an implausible epoch is refused |
| `Clock.TickClock.AppliedOffset` | source/tick/tick_clock.cpp:153-166 | the branches on both directions give the offset at an instant |
| `Clock.TickClock.UpdateEstimate` | source/tick/tick_clock.cpp:137-149 | the loop ends on the first sample with the lowest round trip |
| `Clock.TickClock.AddPong` | source/tick/tick_clock.cpp:40-85 | the clock after a sample, implausible ones refused |
| `Clock.TickClock.LocalOf` | source/tick/tick_clock.cpp:193-204 | the loop takes three steps of the inverse; how far off it may be, and within 13 microseconds up to a distance of 104000 |
| `BitArray.MaskIsArithmetic` | source/common/tick_bit_array.h:34-37 | the mask of n bits is 2^n - 1, 64 included |
| `BitArray.ToNatIsInjective` | source/common/tick_bit_array.h:17-23 | two words of a width are the same number only if they have the same bits |
| `BitArray.BitsAreTheBytes` | source/common/tick_bit_array.h:13-14 | arrays with the same bits have the same bytes |
| `BitArray.WindowIsInRange` | source/common/tick_bit_array.h:40-43 | the fast path takes no offset or count that the slow one refuses |
| `BitArray.TickBitArray.constructor` | source/common/tick_bit_array.cpp:12-14 | rounded up to bytes, all bits 0 |
| `BitArray.TickBitArray.LoadLe64` | source/common/tick_bit_array.h:17-23 | the loop reads the 64 bits from a byte on |
| `BitArray.TickBitArray.StoreLe64` | source/common/tick_bit_array.h:27-31 | the loop writes them, and no other bit |
| `BitArray.TickBitArray.StoreBits` | source/common/tick_bit_array.h:94-103 | false exactly out of range; else the low bits of the value are stored and no other bit changes |
| `BitArray.TickBitArray.StoreWindow` | source/common/tick_bit_array.h:94-101 | the masked window does that |
| `BitArray.TickBitArray.StoreBitsSlow` | source/common/tick_bit_array.cpp:47-72 | the byte loop does that |
| `BitArray.TickBitArray.ReadBits` | source/common/tick_bit_array.h:107-113 | false exactly out of range; else the bits, with zeros above |
| `BitArray.TickBitArray.ReadBitsSlow` | source/common/tick_bit_array.cpp:76-102 | the byte loop reads the same |
| `BitArray.TickBitArray.ResizeInBits` | source/common/tick_bit_array.cpp:38-43 | refuses negative sizes, rounds up to bytes, keeps what fits |
| `BitArray.PathsAgree` | source/common/tick_bit_array.h:94-103 | the fast path and the slow one leave the same bytes |
| `BitArray.ReadsBack` | source/common/tick_bit_array.cpp:47-102 | what was stored reads back as its low bits |
| `BitArray.OthersStay` | source/common/tick_bit_array.cpp:47-102 | any other run of bits reads as before |
| `Words.ClampUnsignedIsMin` | source/common/tick_data_buffer.cpp:256-265 | what is written is the smaller of the value and the largest that fits |
| `Words.UnsignedRoundTrip` | source/common/tick_data_buffer.cpp:256-275 | the written bits read back as what writing returned |
| `Words.ClampSignedIsClamp` | source/common/tick_data_buffer.cpp:279-294 | what is written is the value, or the end of the n-bit range on its side |
| `Words.SignedRoundTrip` | source/common/tick_data_buffer.cpp:279-311 | sign extension gives back what writing returned |
| `Words.ExtensionIsValue` | source/common/tick_data_buffer.cpp:298-311 | the extended word has the value of the n bits |
| `DataBuffer.ReadsBack` | source/common/tick_data_buffer.cpp:256-311 | any item that is there reads back as what writing it returned, and the cursor ends after it |
| `DataBuffer.AllReadBack` | source/common/tick_data_buffer.cpp:157-311 | any list of bools, integers, runs and nested buffers reads back in order |
| `DataBuffer.ReadsAreSafe` | source/common/tick_data_buffer.cpp:118-147 | over any bytes and any reads, seeks and skips the cursor stays inside, nothing is written, failure is sticky |
| `DataBuffer.FailedReadsNothing` | source/common/tick_data_buffer.cpp:892-903 | a failed buffer reads as nothing and its cursor stays |
| `DataBuffer.LaidStays` | source/common/tick_data_buffer.cpp:118-124 | writing before or after items leaves them readable |
| `DataBuffer.PutAppends` | source/common/tick_data_buffer.cpp:907-913 | an item written at the cursor follows the ones before it, which stay |
| `DataBuffer.PatchedCountReadsBack` | source/common/tick_data_buffer.cpp:118-124 | a count patched by going back reads back, with the items after it |
| `DataBuffer.NestedIsPut` | source/common/tick_data_buffer.cpp:594-609 | a length, a padding and the bits make one nested item |
| `DataBuffer.TickDataBuffer.BeginWrite` | source/common/tick_data_buffer.cpp:92-100 | cursor, size and failure are reset |
| `DataBuffer.TickDataBuffer.BeginRead` | source/common/tick_data_buffer.cpp:104-108 | the data stays, the cursor goes to its start |
| `DataBuffer.TickDataBuffer.SeekTo` | source/common/tick_data_buffer.cpp:118-124 | moves inside the data only |
| `DataBuffer.TickDataBuffer.SkipBits` | source/common/tick_data_buffer.cpp:141-147 | moves forward, or fails past the data |
| `DataBuffer.TickDataBuffer.ShrinkTo` | source/common/tick_data_buffer.cpp:128-137 | sets the size, or fails past the storage |
| `DataBuffer.TickDataBuffer.MakeRoom` | source/common/tick_data_buffer.cpp:928-938 | room for the bits, and none of the old ones changes |
| `DataBuffer.TickDataBuffer.CheckWriting` | source/common/tick_data_buffer.cpp:881-887 | writing while reading fails |
| `DataBuffer.TickDataBuffer.CheckReading` | source/common/tick_data_buffer.cpp:892-903 | reading while writing, after a failure or past the data fails |
| `DataBuffer.TickDataBuffer.WriteBits` | source/common/tick_data_buffer.cpp:907-913 | the low bits at the cursor, and no other bit |
| `DataBuffer.TickDataBuffer.FetchBits` | source/common/tick_data_buffer.cpp:917-924 | the bits at the cursor, which moves past them |
| `DataBuffer.TickDataBuffer.AddBool` | source/common/tick_data_buffer.cpp:157-163 | puts the item at the cursor |
| `DataBuffer.TickDataBuffer.AddUintBits` | source/common/tick_data_buffer.cpp:256-265 | puts the clamped integer and returns what will be read |
| `DataBuffer.TickDataBuffer.AddIntBits` | source/common/tick_data_buffer.cpp:279-294 | puts the clamped integer and returns what will be read |
| `DataBuffer.TickDataBuffer.AddBits` | source/common/tick_data_buffer.cpp:631-643 | the loop puts a run of bits |
| `DataBuffer.TickDataBuffer.ReadBool` | source/common/tick_data_buffer.cpp:167-172 | the bit at the cursor, or false and failure |
| `DataBuffer.TickDataBuffer.ReadUintBits` | source/common/tick_data_buffer.cpp:269-275 | the integer at the cursor, or 0 and failure |
| `DataBuffer.TickDataBuffer.ReadIntBits` | source/common/tick_data_buffer.cpp:298-311 | the signed integer at the cursor, or 0 and failure |
| `DataBuffer.TickDataBuffer.ReadBytes` | source/common/tick_data_buffer.cpp:647-658 | the loop reads a run of bits into bytes, or fails |
| `DataBuffer.TickDataBuffer.Slice` | source/common/tick_data_buffer.cpp:75-87 | the loop appends exactly the bits asked for, or nothing |
| `DataBuffer.TickDataBuffer.AddDataBuffer` | source/common/tick_data_buffer.cpp:594-609 | puts the other buffer as a nested item, or fails when it's too long |
| `DataBuffer.TickDataBuffer.ReadDataBuffer` | source/common/tick_data_buffer.cpp:614-627 | the nested bits, ready to be read, or an empty buffer and failure |
| `DataBuffer.TickDataBuffer.PadToNextByte` | source/common/tick_data_buffer.cpp:942-946 | the cursor on the next whole byte, with room, and no bit changed |
| `Utf8.IsValidUtf8` | source/common/tick_data_buffer.cpp:828-877 | true if and only if the bytes are the encoding of nonzero Unicode scalar values, never reading past the end |
| `Utf8.RecognizesExactly` | source/common/tick_data_buffer.cpp:828-877 | character by character, the table of lead and second bytes accepts exactly such encodings |
| `Utf8.DecodeEncodes` | source/common/tick_data_buffer.cpp:828-877 | what is accepted as one character is the encoding of one scalar value |
| `Utf8.EncodeDecodes` | source/common/tick_data_buffer.cpp:828-877 | a scalar value's encoding is accepted and decodes to it |
| `Utf8.EncodingIsUnique` | source/common/tick_data_buffer.cpp:828-877 | two texts with the same bytes are the same text |

## Left out

- Transport (ENet, DTLS, relays), nodes, scripts, scenes, listeners and signals: links are queues and bags of messages here.
- Real numbers, strings, vectors and quaternions in the buffer: a codec that gives back what it quantized is assumed.
- Buffer metadata and the compressed integers: the engines write no metadata; the others are integers of a chosen width.
- Sizes that overflow a 32-bit integer: sizes and offsets are unbounded here.
- Interpolation, the dolls of other clients, host migration and the control of the time scale.
- Handshake checks, rate limits, statistics and events.
- The round trip spread and the master frames of the clock: they only read the estimate.
- SyncServer: one client. The peers of a server don't share state, but their number isn't modelled.
- Inputs: which frames a client chooses to send again; and what a client that starts its frames over has sent before.
- MeshProtocol: several registry processes at once, nodes that come back, nodes that join while the registry settles, and an
  object registered again under the same id.
- MeshProtocol: two nodes may simulate an object at once for a while; nothing here says they don't. A denial of an earlier
  request thaws an object whose release is under way. What the code gives, and is proved, is the fence of the versions.
- Merging: an id that names two paths in the reports. What is shared then is that the maps stay inverse
  (`Registrar.MergeKeeps`).
- DataBuffer.TickDataBuffer.BeginWrite: without the metadata size.
- DataBuffer.TickDataBuffer.ShrinkTo: without the metadata size.
- MeshRegistry: the states and frames that go with an announcement, the spawns in a report, and the order in which hash maps
  are walked where the source doesn't sort them.
- Roles: the processes of the nodes (their boots), which `Quorum` has.
- Quorum: how long a loss has to last before a node counts as lost.
- Clock.TimelineNeverGoesBack: with an estimate a step away, or another epoch while no timeline is held, the timeline jumps:
  that is what the source means it to do.
