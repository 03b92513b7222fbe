# DroneEngage common library: verified core

Dafny models of the logic at the heart of the DroneEngage common library, with proofs that hold for
every input and every run.

- **Assignment and tracking** (`Assignment`, `HungarianSpec`, `Hungarian`, `GatedAssignment`,
  `Association`, `BoxOverlap`, `ClassFilter`, `TrackStep`, `TrackMotion`, `FrameAssociation`, `TrackManagement`,
  `ClassIndependence`, `TrackLifecycle`, `TrackSurvival`). The primal-dual assignment works in place on arrays
  and is proved equal to a functional twin, which is proved optimal by complementary slackness. The tracker is a
  class whose `Update` is proved equal to a function on states; optimal association, independence of classes and
  the life of ids are theorems about runs of that function.
- **SHA-256** (`Bytes`, `Sha256Standard`, `Sha256`, `Sha256Example`). `Sha256Standard` is FIPS 180-2 as the
  standard writes it; the streaming context refines it, and the standard's own example is followed to its digest.
- **Capability invokes** (`InvokeTables`, `InvokeProtocol`). Each critical section under `m_cap_lock` is
  one atomic step; theorems range over all interleavings. Erasing from the inflight set and caching the
  result are two steps, as in the code, and the documented "never run the handler twice" does not hold
  of it: how often an id is accepted is stated exactly, for every run.
- **Chunked datagrams** (`ChunkProtocol`): splitting, reassembly, and reassembly per sender.
- **Capability schemas** (`Json`, `CapSchema`, `SchemaKinds`): validation, checking and filling of parameters, and
  what each type means by the kind of value.
- **CPU load** (`CpuAggregation`, `CpuHysteresis`): the pruned map of reports against the full log, and
  the busy/free machine.
- **Configuration, memory trend, wire format** (`ConfigLayers`, `DottedKeys`, `MemoryTrend`, `Observations`,
  `ObsWire`, `TrackWire`).

Doubles are reals. Byte and word arithmetic, the 16-bit chunk number, 64-bit counters and the conversions
of JSON numbers to `int` and `int64_t` have their machine widths. Run
`dafny verify dfyconfig.toml --resource-limit 2000000 --verification-time-limit 0`.

Where code and documentation differ, the code is modelled:

- A receipt between the two critical sections of a finished invoke starts its handler again
  (`GapAdmits`, `GapEscapes`), although the comments promise a replay.
- A capability's reply is replayed only until 64 newer ids have been cached (`ReplayedIff`).
- A message that fits in one chunk carries only the end marker, so what an aborted message left at the
  receiver is delivered in front of it (`MessageArrives`).
- The unit's CPU state follows the report log only while three report intervals fit into the minute after
  which silent boards are dropped (`AgreesIff`).
- Overrides never leak into the saved file, but they can keep an update out of it (`OverrideBlocksUpdate`):
  exactly when its path crosses a plain value of the overrides (`UpdateReachesBaseIff`).

## Model

| member | source | states |
|---|---|---|
| Hungarian.Hungarian | helpers/track_manager.hpp:70-125 | for n <= m and any finite costs: every row gets a column of its own, no such assignment is cheaper, and the result is that of the functional twin `Solve` |
| Hungarian.SolveInPlace | helpers/track_manager.hpp:76-124 | the six arrays, changed in place through the four nested loops, end as the twin's state |
| Hungarian.Relax | helpers/track_manager.hpp:94-100 | one scan: slack and predecessor of every unused column after a look from the new tree row, and the first least one |
| Hungarian.MovePotentials | helpers/track_manager.hpp:102-106 | rows of the tree rise and its columns fall by delta, each exactly once although several columns are visited; the slack of the others falls by delta |
| Hungarian.MoveColumn | helpers/track_manager.hpp:104-105 | one column's turn in that loop |
| Hungarian.Round | helpers/track_manager.hpp:89-108 | one round of the search takes the arrays from tree t to the grown tree |
| Hungarian.SearchRow | helpers/track_manager.hpp:82-109 | the search ends (unused columns shrink) in a free column, with the twin's tree in the arrays |
| Hungarian.WalkBack | helpers/track_manager.hpp:111-116 | the back-walk ends (each step goes to a column reached earlier) with the rows shifted along the tree path |
| Hungarian.AddRowInPlace | helpers/track_manager.hpp:80-117 | one more row: potentials and matching become those of the twin |
| Hungarian.RowToColumn | helpers/track_manager.hpp:119-124 | the matching read row by row |
| Assignment.SlacknessOptimal | helpers/track_manager.hpp:70-73 | feasible potentials, tight matched pairs, no positive column potential and none on free columns: the assignment is cheapest of all |
| Assignment.Pigeonhole | helpers/track_manager.hpp:71-72 | k + 1 rows cannot be held by k columns: why n <= m always leaves a free column |
| HungarianSpec.FreeColumn | helpers/track_manager.hpp:87-109 | while a row is missing some column is free, so the search cannot run dry |
| HungarianSpec.ScanKeeps | helpers/track_manager.hpp:94-100 | after the scan the slack of every unused column is the least reduced cost over the enlarged tree |
| HungarianSpec.ShiftFeasible | helpers/track_manager.hpp:102-106 | moving the potentials keeps u[i] + v[j] <= cost on all processed rows |
| HungarianSpec.ShiftSlackness | helpers/track_manager.hpp:102-106 | moving the potentials keeps matched pairs tight, v <= 0, and v = 0 on free columns |
| HungarianSpec.ShiftPath | helpers/track_manager.hpp:102-108 | the edge into the next column becomes tight and the tree path stays tight |
| HungarianSpec.ShiftKeeps | helpers/track_manager.hpp:102-109 | the whole search invariant survives a round |
| HungarianSpec.WalkStep | helpers/track_manager.hpp:113-115 | one step of the back-walk keeps every other column matched on a tight edge and every row held once |
| HungarianSpec.Search | helpers/track_manager.hpp:87-109 | the search reaches a free column along tight edges |
| HungarianSpec.AddRow | helpers/track_manager.hpp:80-117 | one more row keeps the invariant between rows: k rows matched, duals certify it |
| HungarianSpec.SolveOptimal | helpers/track_manager.hpp:74-125 | `Solve` assigns every row to a column of its own and no other assignment is cheaper |
| Association.IouInUnit | helpers/track_manager.hpp:55-68 | IoU is between 0 and 1 for all boxes, also those of zero or negative size |
| BoxOverlap.IouIsSharedOverCovered | helpers/track_manager.hpp:55-68 | for boxes of positive size: IoU times the area the two boxes cover together is the area they share, both measured from the boxes' corners |
| BoxOverlap.IouIsSymmetric | helpers/track_manager.hpp:55-68 | IoU does not depend on the order of the boxes |
| BoxOverlap.IouPositiveIff | helpers/track_manager.hpp:55-68 | IoU is positive exactly when some point lies inside both boxes |
| BoxOverlap.IouOneIff | helpers/track_manager.hpp:55-68 | IoU is 1 exactly for equal boxes |
| TrackMotion.PredictionMoves | helpers/track_manager.hpp:294-299 | the predicted box keeps its size and moves by the velocity at once and again with every missed frame |
| TrackMotion.DetectionCorrectsVelocity | helpers/track_manager.hpp:301-312 | a match corrects the velocity by how far the detection's centre is from the predicted one, spread over the frames since the last match: by half of it in a streak, in full after misses |
| TrackMotion.SteadyMotion | helpers/track_manager.hpp:294-316 | a detection at the predicted place leaves the velocity, so a steady motion is followed without error |
| TrackMotion.MatchTakesBox | helpers/track_manager.hpp:313-315 | a match takes the detection's box, counts a hit and clears the misses; identity and confirmation stay |
| TrackMotion.NewbornStands | helpers/track_manager.hpp:228-239 | a newborn track stands still on its detection with one hit |
| TrackMotion.TouchConfirms | helpers/track_manager.hpp:212-226 | a match confirms exactly when it completes confirm_hits in a row, and nothing takes it back |
| TrackMotion.ConfidentIs | helpers/track_manager.hpp:158-161 | detections of confidence min_conf or more take part, in their order, and no others |
| TrackMotion.SanitizeIsNearest | helpers/track_manager.hpp:332-340 | each setting becomes the nearest one in its range |
| Association.PairCostRange | helpers/track_manager.hpp:188-196 | a pair costs BIG or between 0 and 1 |
| Association.CostMatrixAt | helpers/track_manager.hpp:180-197 | entry (row, col) of the flat matrix is the cost of that track and detection, also with the roles swapped |
| Association.CostMatrixGated | helpers/track_manager.hpp:188-197 | every cost matrix built is gated: BIG, or between 0 and 1 |
| GatedAssignment.KeptBest | helpers/track_manager.hpp:199-209 | the admissible cells of a cheapest assignment form a matching of greatest size and, among those, of least cost, while the smaller side is below BIG |
| GatedAssignment.TotalOfKept | helpers/track_manager.hpp:188-202 | an assignment costs what its admissible cells cost plus BIG for every other row |
| GatedAssignment.Complete | helpers/track_manager.hpp:180-202 | any matching extends to a full assignment that costs no more than leaving its rows open |
| Association.LocalAssocBest | helpers/track_manager.hpp:180-209 | for one class: no matching of pairs with IoU >= iou_min has more pairs than the association, none with as many has a smaller total 1 - IoU |
| Association.LocalAssocIsKept | helpers/track_manager.hpp:203-208 | the class's table lists exactly the pairs that survive the gate |
| FrameAssociation.AssocBest | helpers/track_manager.hpp:163-210 | the same for the table of the whole frame, class by class, in the frame's own indices |
| FrameAssociation.AssocIsKept | helpers/track_manager.hpp:199-209 | a detection's entry in the frame's table is t exactly when (t, d) is a kept pair |
| FrameAssociation.AssocOverlapsMost | helpers/track_manager.hpp:163-210 | among the admissible matchings of a class with as many pairs, the frame's has the greatest total IoU |
| TrackStep.AssocIsTable | helpers/track_manager.hpp:163-210 | no track is matched twice in a frame |
| TrackStep.Sanitize | helpers/track_manager.hpp:332-340 | confirm_hits >= 1, max_misses >= 0, thresholds in [0,1]; each value that is sound already is kept |
| TrackManagement.TrackManager.Update | helpers/track_manager.hpp:149-281 | the loops of `update` on m_tracks and m_next_id compute exactly the specified next state and output frame |
| TrackManagement.TrackManager.Reset | helpers/track_manager.hpp:138-139 | forgets the tracks, keeps the id counter |
| TrackManagement.TrackManager.SetConfig | helpers/track_manager.hpp:135-135 | takes the sanitized configuration, keeps tracks and counter |
| TrackManagement.TrackManager.constructor | helpers/track_manager.hpp:132-133 | no tracks, ids start at 1, configuration sanitized |
| TrackManagement.Costs | helpers/track_manager.hpp:180-197 | the nested loops fill the cost matrix that the specification names |
| TrackManagement.ReadAssignment | helpers/track_manager.hpp:199-209 | the assignment is read into the two tables, other classes untouched |
| TrackManagement.AssociateClass | helpers/track_manager.hpp:173-210 | one class's turn writes that class's entries and no others |
| TrackManagement.Associate | helpers/track_manager.hpp:163-210 | all classes in turn: the tables are those of the specification, whatever the order of the classes |
| TrackManagement.AdvanceTracks | helpers/track_manager.hpp:212-226 | matched tracks take their detection and may confirm, the others miss |
| TrackManagement.BearTracks | helpers/track_manager.hpp:228-239 | one new track per unmatched detection, consecutive ids |
| TrackManagement.Publish | helpers/track_manager.hpp:241-268 | publications in detection order, then those of tracks confirmed at birth |
| TrackManagement.DropDead | helpers/track_manager.hpp:270-276 | dead tracks go, the others keep their order |
| ClassIndependence.ClassesAreIndependent | helpers/track_manager.hpp:166-278 | over every run of frames, resets and configurations: tracks and publications of a class are those of the run on frames filtered to that class, up to one strictly increasing renaming of ids |
| ClassIndependence.UpdateOfClass | helpers/track_manager.hpp:149-281 | one frame keeps that correspondence, extending the renaming at its end only |
| ClassIndependence.IdsDoNotMatter | helpers/track_manager.hpp:173-210 | the association does not look at ids |
| ClassIndependence.AssocLinked | helpers/track_manager.hpp:173-210 | the frame's table restricted to a class is the table of the class alone |
| ClassIndependence.AdvanceOfClass | helpers/track_manager.hpp:212-226 | tracks of a class move the same way in both runs |
| ClassIndependence.BornOfClass | helpers/track_manager.hpp:228-239 | tracks of a class are born in the same order in both runs |
| ClassIndependence.PublishedOfClass | helpers/track_manager.hpp:241-252 | matched publications of a class are the same in both runs, renamed |
| ClassIndependence.PublishedBornOfClass | helpers/track_manager.hpp:254-268 | publications at birth are the same in both runs, renamed |
| ClassIndependence.SurvivorsOfClass | helpers/track_manager.hpp:270-276 | dropping dead tracks commutes with filtering by class |
| TrackLifecycle.LogHolds | helpers/track_manager.hpp:284-330 | between frames: unconfirmed tracks have misses = 0, hits < confirm_hits and matched every frame since birth; confirmed ones have misses <= max_misses |
| TrackSurvival.HeldExactly | helpers/track_manager.hpp:18-24 | after any run with a fixed configuration an id is held if and only if it was matched since the last reset and has since missed at most max_misses frames in a row if it was ever confirmed, none if it was not |
| TrackSurvival.SurvivalHolds | helpers/track_manager.hpp:212-226 | the misses of every held track are the frames since its id was last seen |
| TrackSurvival.FrameSurvival | helpers/track_manager.hpp:270-276 | one frame keeps that, and drops or keeps each track as its misses say |
| TrackLifecycle.PublishedWhenConfirmed | helpers/track_manager.hpp:212-268 | an id is published in a frame exactly when it is matched there and had confirm_hits matched frames in a row from its first one on |
| TrackLifecycle.FirstPublication | helpers/track_manager.hpp:212-268 | the first publication of an id is in its confirm_hits-th frame |
| TrackLifecycle.IdsAreNeverReused | helpers/track_manager.hpp:228-239 | an issued id that no track holds never comes back as a track or in a publication, across resets and configurations |
| TrackLifecycle.ReachableIds | helpers/track_manager.hpp:138-139 | ids in hand are positive, below the counter, strictly increasing |
| TrackLifecycle.UpdateIds | helpers/track_manager.hpp:149-281 | a frame keeps that, and its new ids are those from the old counter on |
| TrackLifecycle.PublishedKnown | helpers/track_manager.hpp:241-268 | a frame publishes only ids of tracks at hand and ids it has just issued |
| TrackLifecycle.PublishedAreRaw | helpers/track_manager.hpp:241-268 | each publication is a raw detection that passes min_conf, under an id no other publication of the frame has |
| TrackLifecycle.PublicationSources | helpers/track_manager.hpp:241-268 | exactly the detections whose track is confirmed are published, each once |
| Sha256.StreamingIsStandard | helpers/sha256.hpp:90-138 | below 2^61 bytes and however the message is cut into updates, the final state is the hash of FIPS 180-2, sections 5.1.1, 5.2.1 and 6.2.2 |
| Sha256.FinishIsHash | helpers/sha256.hpp:114-138 | both padding cases yield the hash of everything consumed |
| Sha256.AbsorbStandsFor | helpers/sha256.hpp:100-112 | after any bytes the context holds the hash of the whole blocks, the rest in the buffer, and the exact bit count |
| Sha256.ExactBits | helpers/sha256.hpp:116-116 | bitlen + 8 * block_len is the number of bits consumed |
| Sha256.FinishShort | helpers/sha256.hpp:118-129 | one final block when the 0x80 byte leaves room for the count |
| Sha256.FinishLong | helpers/sha256.hpp:118-129 | two final blocks when it does not |
| Sha256Standard.LengthField | helpers/sha256.hpp:127-128 | the last eight bytes of the padding denote the length in bits |
| Sha256Standard.ZeroCountLeast | helpers/sha256.hpp:121-125 | the padding uses the smallest number of zero bytes that fills a block |
| Sha256.Schedule | helpers/sha256.hpp:55-68 | the array w is the message schedule of section 6.2.2 |
| Sha256.RunRounds | helpers/sha256.hpp:70-84 | the rolling registers are those after 64 rounds of section 6.2.2 |
| Sha256.Transform | helpers/sha256.hpp:42-88 | the state becomes the compression of the old state and the block |
| Sha256.Sha256Ctx.Init | helpers/sha256.hpp:90-98 | initial hash value, nothing consumed |
| Sha256.Sha256Ctx.Update | helpers/sha256.hpp:100-112 | the context becomes that of the bytes absorbed |
| Sha256.Sha256Ctx.Final | helpers/sha256.hpp:114-138 | the digest bytes of the final hash |
| Sha256.ToHex | helpers/sha256.hpp:156-163 | two lowercase hexadecimal digits for every byte, the one for its high half first: value(out[2i]) * 16 + value(out[2i+1]) is byte i |
| Sha256.HexInjective | helpers/sha256.hpp:156-163 | different digests have different hexadecimal forms |
| Sha256.Sha256Hex | helpers/sha256.hpp:145-164 | 64 lowercase hexadecimal digits that show, byte by byte and high half first, the digest of the standard |
| Sha256.HexOfShows | helpers/sha256.hpp:156-163 | every hexadecimal form shows its bytes |
| Sha256Example.AbcDigest | helpers/sha256.hpp:42-143 | the only digest of "abc" is the published one of FIPS 180-2, appendix B.1, followed through all 64 words and rounds: constants, rotations, padding and byte order are those of the standard |
| Sha256Example.AbcText | helpers/sha256.hpp:145-164 | a text that shows the digest of "abc" is ba7816bf 8f01cfea 414140de 5dae2223 b00361a3 96177a9c b410ff61 f20015ad |
| InvokeTables.InvokeTable.CacheInvokeResult | de_databus/de_module.cpp:742-752 | the eviction loop stores the reply as specified and keeps the table invariant |
| InvokeTables.InvokeTable.Receive | de_databus/de_module.cpp:855-872 | one receipt under the lock: replay, ignore or accept |
| InvokeTables.InvokeTable.Erase | de_databus/de_module.cpp:808-811 | the id leaves the inflight set, the cache is untouched |
| InvokeTables.StoreMeaning | de_databus/de_module.cpp:742-752 | storing a new id appends it and drops at most the oldest one, only when 64 are held; storing a known id replaces its reply |
| InvokeTables.StoredInv | de_databus/de_module.cpp:742-752 | order without duplicates, its elements exactly the cached ids, at most 64 |
| InvokeProtocol.ReachableInv | de_databus/de_module.cpp:742-934 | the invariant of tables, threads and counts holds in every state reachable by any interleaving of critical sections |
| InvokeProtocol.AtMostOnce | de_databus/de_module.cpp:771-831 | in every run an id is accepted exactly once, plus once for each acceptance in a gap of it, plus once for each acceptance after an eviction, of which there are no more than evictions; so without evictions at most once if and only if no receipt of it, accepted or not, falls between the two critical sections. Handler starts never exceed acceptances |
| InvokeProtocol.GapReceiptDoubles | de_databus/de_module.cpp:855-872 | whatever a receipt in the gap meets, its id has been accepted twice after it |
| InvokeProtocol.ReachableAccounted | de_databus/de_module.cpp:855-872 | every acceptance but the first is one of these two kinds |
| InvokeProtocol.AcceptedAgain | de_databus/de_module.cpp:855-872 | a known id is accepted again exactly when it is neither in flight nor cached, and then it is in that gap or was evicted |
| InvokeProtocol.GapAdmits | de_databus/de_module.cpp:808-812 | a receipt in the gap is accepted and its handler can be started again |
| InvokeProtocol.GapEscapes | de_databus/de_module.cpp:817-822 | a concrete run in which one id's handler runs twice without any eviction |
| InvokeProtocol.FusedAtMostOnce | de_databus/de_module.cpp:808-812 | were erasing and caching one critical section, only evictions could start a handler again |
| InvokeProtocol.NeverBack | de_databus/de_module.cpp:771-831 | no step of any thread moves an invoke back or changes its id |
| InvokeProtocol.AlwaysAble | de_databus/de_module.cpp:803-830 | an accepted invoke that has not answered can take a step of its own, whatever the others do |
| InvokeProtocol.EveryPathAnswers | de_databus/de_module.cpp:803-823 | reject, handler result and timeout alike: the id leaves the inflight set, then every receipt of it meets the cached reply, then the reply has been sent |
| InvokeProtocol.StepLowersWork | de_databus/de_module.cpp:771-831 | every step that does something for an invoke leaves strictly less to do; a receipt adds at most one invoke's worth |
| InvokeProtocol.FourStepsEach | de_databus/de_module.cpp:771-831 | no run makes more than four such steps for each accepted invoke |
| InvokeProtocol.QuietMeansAnswered | de_databus/de_module.cpp:803-830 | when no such step is left, every accepted invoke has been sent a reply under its own id and nothing is in flight |
| InvokeProtocol.AllAnswered | de_databus/de_module.cpp:808-814 | once every invoke has answered nothing is in flight, and the replies are under their own ids |
| InvokeProtocol.CachedIsReplayed | de_databus/de_module.cpp:858-864 | a receipt of a cached id replays the reply an invoke of that id produced and changes nothing else |
| InvokeProtocol.CacheIsFifo | de_databus/de_module.cpp:742-752 | in every reachable state the cache holds exactly the last 64 ids that entered it, or all of them while they are fewer, each once, and those before them left in order of entry |
| InvokeProtocol.ReplayedIff | de_databus/de_module.cpp:858-864 | a receipt is answered from the cache if and only if its id is among those last 64 |
| ChunkProtocol.SendMessage | de_databus/unixDgramClient.cpp:155-228 | the split loop sends a prefix of the specified datagrams, all of them unless a send fails or the client stops; an invalid chunk size sends nothing |
| ChunkProtocol.HeaderParsed | de_databus/chunk_protocol.hpp:27-44 | a header parses to the chunk number modulo 2^16, or to the end marker on the last chunk |
| ChunkProtocol.DatagramAt | de_databus/unixDgramClient.cpp:155-228 | datagram i of a message is two bytes, the lower one first, that hold i modulo 2^16 and 65535 in the last one, and then bytes i * size up to (i + 1) * size of the message; there are as many as cover the message |
| ChunkProtocol.Receiver.Handle | de_databus/udpClient.cpp:229-271 | the receive loop's body: reset on chunk 0, deliver on the end marker, drop what has no header |
| ChunkProtocol.Reassemble | de_databus/chunk_protocol.hpp:60-66 | the chunks one after the other |
| ChunkProtocol.MessageArrives | de_databus/udpClient.cpp:341-398 | what a receiver in any state makes of a whole message: a multi-chunk one drops the leftover, a single-chunk one is appended to it, nothing is held back |
| ChunkProtocol.RoundTripIff | de_databus/udpClient.cpp:237-271 | for a receiver in any state: exactly the message plus one 0 byte arrives if and only if it needs at most 65536 chunks, a message of several chunks has each fit the receive buffer, and a single chunk, as far as it fits, completes the leftover to the message |
| ChunkProtocol.RoundTripInBytes | de_databus/udpClient.cpp:237-271 | in bytes, for an empty receiver: exactly the message and its 0 byte arrive if and only if it has at most 65536 * size bytes and no chunk needs more than 65505 |
| ChunkProtocol.TooManyEnds | de_databus/udpClient.cpp:361-372 | beyond 65536 chunks, chunk 65535 carries the end marker too, so at least two messages are delivered |
| ChunkProtocol.DeliveriesAreEnds | de_databus/udpClient.cpp:249-271 | deliveries are counted by end markers, whatever the datagrams |
| ChunkProtocol.MessagesArrive | de_databus/udpClient.cpp:341-398 | sequences of whole messages arrive one for one and in order, from an empty receiver, or from any state when the first message has several chunks |
| ChunkProtocol.DemuxReceiver.Handle | de_databus/unixDgramClient.cpp:262-293 | the same with one chunk list per sender path |
| ChunkProtocol.OneSenderSteps | de_databus/unixDgramClient.cpp:271-291 | a datagram moves its sender's own view as a single receiver would, and no other view |
| ChunkProtocol.SendersAreIndependent | de_databus/unixDgramClient.cpp:249-293 | over any interleaving each sender's view is that of a receiver of its own, fed its datagrams alone |
| ChunkProtocol.EverySenderIsServed | de_databus/unixDgramClient.cpp:249-293 | whatever other senders do, one sender's messages are delivered exactly and in order |
| CapSchema.GuardHidesNothing | de_databus/cap_schema.cpp:544-567 | for a parameter the validator accepts, the depth-limited check rejects a value exactly when an unlimited one does |
| CapSchema.GuardHidesBelow | de_databus/cap_schema.cpp:48-52 | one level deeper, which the validator refuses, a violation would go unseen |
| CapSchema.ValidHigher | de_databus/cap_schema.cpp:45-52 | a schema valid at some depth is valid at any lesser one |
| CapSchema.DefaultIsValue | de_databus/cap_schema.cpp:137-150 | the default of an accepted parameter, however nested, is a value of it at every depth |
| CapSchema.RefillIff | de_databus/cap_schema.cpp:571-619 | for any schema: filling twice is filling once, and what was filled stays clean if and only if every injected default fits its own parameter |
| CapSchema.FillingIsIdempotent | de_databus/cap_schema.cpp:159-178 | for an accepted schema: clean parameters stay clean when filled, filling again changes nothing, all names are known, all values satisfy their schemas, only optional names are missing |
| CapSchema.CheckValue | de_databus/cap_schema.cpp:500-568 | the recursive check, loops and all, returns exactly the errors of the value, nested ones above the depth guard included; which values have none, by kind, is in the `SchemaKinds` rows |
| CapSchema.CheckItems | de_databus/cap_schema.cpp:544-549 | every element of an array value is checked against the item schema |
| CapSchema.CheckFields | de_databus/cap_schema.cpp:551-567 | every field of the schema is checked where present, reported where it is missing and must not be |
| CapSchema.NoErrorsIffConforms | de_databus/cap_schema.cpp:500-568 | a value has no error exactly when it conforms to its schema above the depth guard |
| CapSchema.CheckParams | de_databus/cap_schema.cpp:571-619 | returns exactly the errors of the parameters, unknown and missing names included, none exactly when they are clean, and writes exactly the given values and missing defaults into `filled`; which values are clean, by kind, is in the `SchemaKinds` rows |
| CapSchema.NoErrorsIffClean | de_databus/cap_schema.cpp:571-619 | no error exactly when every name is known, every value conforms and every absent name may be absent |
| CapSchema.Matched | de_databus/cap_schema.cpp:513-517 | the first declared type the value matches, if any |
| CapSchema.FindAction | de_databus/cap_schema.cpp:622-637 | the action the name resolves to, by name first, else by the first deprecated alias in the library's order |
| CapSchema.CanonicalAction | de_databus/cap_schema.cpp:640-654 | the name of that same action, or the empty string |
| CapSchema.ResolvedIsCurrent | de_databus/cap_schema.cpp:622-654 | resolving is idempotent, succeeds exactly when some action is or was called so, and yields a current name |
| SchemaKinds.TypesTake | de_databus/cap_schema.cpp:473-494 | which kinds of JSON value the check takes under bool, int, number, string, array and object, null under none: a number is refused by int exactly when it is a fraction |
| SchemaKinds.OneTypeEach | de_databus/cap_schema.cpp:473-494 | every value but null is taken by exactly one of bool, number, string, array and object |
| SchemaKinds.GeoTakes | de_databus/cap_schema.cpp:479-485 | a geo is an array of exactly three numbers |
| SchemaKinds.UnknownTypeTakesNothing | de_databus/cap_schema.cpp:493-493 | a name that is none of the eight types takes nothing |
| SchemaKinds.ListTakes | de_databus/cap_schema.cpp:511-524 | a list of types takes what one of them takes |
| SchemaKinds.LimitsTake | de_databus/cap_schema.cpp:526-534 | a number is taken exactly when it lies between the numeric limits, both included, compared by value across the two kinds of number |
| SchemaKinds.EnumTakes | de_databus/cap_schema.cpp:536-542 | an enum takes exactly the texts, numbers and truth values it lists, numbers by value |
| SchemaKinds.OtherEnumsTake | de_databus/cap_schema.cpp:539-540 | over an object its fields' values are listed, over a plain value that value, over null nothing |
| SchemaKinds.ArrayTakes | de_databus/cap_schema.cpp:544-549 | an array is taken exactly when each element is, for an accepted element schema |
| SchemaKinds.ObjectTakes | de_databus/cap_schema.cpp:551-567 | an object is taken exactly when each declared field is or may be missing; other fields are not looked at |
| SchemaKinds.LimitsReport | de_databus/cap_schema.cpp:526-534 | below min is reported as too small and above max as too large, nothing else |
| SchemaKinds.TypesReport | de_databus/cap_schema.cpp:504-524 | no type, or a value of another type, is reported as that alone |
| SchemaKinds.EnumReports | de_databus/cap_schema.cpp:536-542 | a scalar that is not listed is reported as not allowed, and nothing else |
| SchemaKinds.TypesAccepted | de_databus/cap_schema.cpp:45-96 | a bare type is accepted exactly when it is one of the seven that need no values, at most four levels deep |
| SchemaKinds.LimitsAccepted | de_databus/cap_schema.cpp:120-136 | limits are accepted exactly when both are numbers and in order, by value |
| SchemaKinds.ListsAccepted | de_databus/cap_schema.cpp:74-85 | a list of several types is accepted exactly when all are bool, int, number or string |
| SchemaKinds.MissingTakes | de_databus/cap_schema.cpp:606-613 | a name may be missing exactly when its parameter is marked optional or has a default |
| SchemaKinds.NamesGrow | de_databus/cap_schema.cpp:193-203 | names are a small letter and then small letters, digits and underscores, 32 in all at most |
| SchemaKinds.OldNames | de_databus/cap_schema.cpp:622-637 | where an advert keeps its actions and an action its old name |
| SchemaKinds.DecimalReads | de_databus/cap_schema.cpp:548-548 | the index in an element's path is its decimal numeral without leading zeros |
| SchemaKinds.ItemPathsDiffer | de_databus/cap_schema.cpp:548-548 | errors of different elements have different paths |
| CpuAggregation.CpuAggregator.OnReport | de_databus/de_cpu_aggregator.cpp:23-49 | a malformed report changes nothing, another replaces the latest one of its board and module |
| CpuAggregation.ReportFields | de_databus/de_cpu_aggregator.cpp:27-46 | bd, u, s and pu of a report feed board, usage, state and process usage; without a board, a usage or a state it is refused |
| CpuAggregation.CpuAggregator.ComputeBoardStats | de_databus/de_cpu_aggregator.cpp:68-97 | greatest usage over the fresh reports or, on a stale board, over all; busy iff a fresh report says so; newest time decides removal |
| CpuAggregation.CpuAggregator.FoldBoards | de_databus/de_cpu_aggregator.cpp:108-127 | exactly the boards silent for over a minute are erased, the rest give the unit figures |
| CpuAggregation.CpuAggregator.Tick | de_databus/de_cpu_aggregator.cpp:100-151 | the whole next state, the edge bits and the summary bit |
| CpuAggregation.CpuAggregator.Configure | de_databus/de_cpu_aggregator.cpp:15-20 | keeps reports and unit state, restarts the summary timer |
| CpuAggregation.UnitFollowsLog | de_databus/de_cpu_aggregator.cpp:108-140 | after every tick of every run with a non-decreasing clock, while the stale window is at most a minute, the unit is busy iff the full report log has a latest report that is busy and fresh |
| CpuAggregation.UnitBusyInSeconds | de_databus/de_cpu_aggregator.cpp:108-140 | for report_s up to 20: busy iff the latest report of some module about some board says 1 and is at most 3 * report_s seconds old |
| CpuAggregation.SummaryDueIff | de_databus/de_cpu_aggregator.cpp:142-148 | a summary is due exactly when summary_s is positive and has passed since the last one, or since the first tick |
| CpuAggregation.AgreesIff | de_databus/de_cpu_aggregator.cpp:118-122 | that holds for all runs of a configuration if and only if its stale window is at most the minute after which boards are dropped |
| CpuAggregation.TwentySeconds | de_databus/de_cpu_aggregator.hpp:128-129 | the window is at most a minute exactly when report_s <= 20 |
| CpuAggregation.StepAgrees | de_databus/de_cpu_aggregator.cpp:23-151 | each command keeps the pruned map in agreement with the log |
| CpuAggregation.EdgesAlternate | de_databus/de_cpu_aggregator.cpp:129-140 | over any run the unit's edges alternate, the first one into SUPER_BUSY |
| CpuHysteresis.UsagePercent | de_databus/de_cpu_monitor.cpp:43-52 | -1 exactly when the total did not advance, else within [0,100] although differences wrap; the busy share when the idle counter behaves |
| CpuHysteresis.CpuMonitor.Usage | de_databus/de_cpu_monitor.cpp:256-292 | the machine's step on one usage |
| CpuHysteresis.CpuMonitor.UpdateFromTimes | de_databus/de_cpu_monitor.cpp:236-253 | baseline on the first sample, no step when the counter did not advance |
| CpuHysteresis.CpuMonitor.Configure | de_databus/de_cpu_monitor.cpp:218-223 | keeps the state, drops a pending window |
| CpuHysteresis.TransitionsExactly | de_databus/de_cpu_monitor.cpp:236-292 | over every run with a non-decreasing clock and any reconfigurations, a sample makes a transition iff it ends a contiguous suffix of samples, all on the triggering side under one configuration, spanning at least the sustain time |
| CpuHysteresis.TransitionsInSeconds | de_databus/de_cpu_monitor.cpp:256-292 | in the configured percent and seconds: free becomes SUPER_BUSY exactly at a usage >= super_busy_percent after an unbroken series of such samples over at least sustain_s seconds, and back exactly at a usage <= free_percent after as long |
| CpuHysteresis.TransitionsAlternate | de_databus/de_cpu_monitor.cpp:283-291 | two transitions with none between them are of different kinds |
| CpuHysteresis.FirstIsBusy | de_databus/de_cpu_monitor.cpp:259-262 | the first transition is into SUPER_BUSY |
| CpuHysteresis.TransitionsAreApart | de_databus/de_cpu_monitor.cpp:273-284 | any two transitions are at least 1000 * sustain_s milliseconds apart, also across reconfigurations |
| CpuHysteresis.SustainInSeconds | de_databus/de_cpu_monitor.cpp:281-281 | the sustain time is 1000 ms a second; a negative one wraps beyond any run |
| CpuHysteresis.SampleOutcome | de_databus/de_cpu_monitor.cpp:264-281 | the pending window is the longest triggering suffix, and one more sample keeps that |
| CpuHysteresis.ParseConfig | de_databus/de_cpu_monitor.cpp:95-123 | the parsed thresholds are always in range with a proper dead band: a sound object is taken whole, any other dropped whole |
| CpuHysteresis.ProposedFields | de_databus/de_cpu_monitor.cpp:104-109 | each key feeds its own setting and no other |
| CpuHysteresis.OthersIgnored | de_databus/de_cpu_monitor.cpp:104-109 | a value of another kind counts as absent, other keys count for nothing |
| CpuHysteresis.NothingProposed | de_databus/de_cpu_monitor.cpp:97-97 | the defaults: enabled, 90, 70, 5 s, 10 s, 60 s |
| Json.WrapMeans | de_databus/de_cpu_monitor.cpp:105-109 | an integer read as `int` keeps its value in range, and its lowest 32 bits otherwise |
| Json.CutMeans | de_databus/de_cpu_monitor.cpp:105-109 | a fraction read as `int` is cut off toward zero |
| CpuHysteresis.DeadBand | de_databus/de_cpu_monitor.cpp:115-121 | with such thresholds no usage triggers in both states |
| ConfigLayers.DeepMerge | de_databus/configFile.cpp:225-242 | the key-by-key loop computes the merge |
| ConfigLayers.MergeAtPath | de_databus/configFile.cpp:223-242 | path by path: where the overrides decide their value holds, elsewhere the base shows through |
| ConfigLayers.MergeIdempotent | de_databus/configFile.cpp:225-242 | deepMerge(deepMerge(b, o), o) = deepMerge(b, o) |
| ConfigLayers.ApplyUpdates | de_databus/configFile.cpp:160-200 | dotted updates in order, each at the path its key names (the `DottedKeys` rows), up to the first one whose path crosses a value that is no object |
| DottedKeys.PathOfJoined | de_databus/configFile.cpp:164-173 | two or more non-empty texts without dots are the path of the key that joins them by dots |
| DottedKeys.PartsOfBoth | de_databus/configFile.cpp:166-173 | every dot separates: what stands before it and after it is split on its own |
| DottedKeys.ExtraDots | de_databus/configFile.cpp:170-172 | dots before, after and next to a dot change nothing |
| DottedKeys.PathIsDotFree | de_databus/configFile.cpp:164-197 | no part of a dotted key has a dot or is empty; a key without dots is its own path |
| DottedKeys.PathIsNormal | de_databus/configFile.cpp:164-173 | every dotted key has the parts of the key that joins its parts by single dots |
| DottedKeys.UpdateLands | de_databus/configFile.cpp:160-196 | an update under a joined key that goes through leaves its value at that place and every unrelated place as it was |
| ConfigLayers.PutFailsIff | de_databus/configFile.cpp:183-192 | an update fails exactly when its path crosses a value that is neither an object nor null |
| ConfigLayers.PutAtPath | de_databus/configFile.cpp:182-196 | an update puts its value at its path and changes no path apart from those leading to it or beyond it |
| ConfigLayers.ConfigFile.InitConfigFile | de_databus/configFile.cpp:21-26 | runtime and base become the loaded file |
| ConfigLayers.ConfigFile.ReloadFile | de_databus/configFile.cpp:39-50 | base becomes the file, non-null overrides are layered again |
| ConfigLayers.ConfigFile.UpdateJSON | de_databus/configFile.cpp:202-221 | runtime first, then base, then the file; an exception stops the rest |
| ConfigLayers.ConfigFile.ApplyLocalOverrides | de_databus/configFile.cpp:244-253 | runtime becomes base with the overrides on top; empty ones are only recorded |
| ConfigLayers.OverridesTakeHold | de_databus/configFile.cpp:244-253 | all overrides but null and empty ones are layered over the base at once, those leave the configuration |
| ConfigLayers.ConfigFile.FileUpdated | de_databus/configFile.cpp:63-96 | reports an update once and every other change of the file's write time once, never a file that is missing or unreadable |
| ConfigLayers.MergeCrosses | de_databus/configFile.cpp:225-242 | where the base lets a dotted path through, the layered configuration does if and only if the overrides do |
| ConfigLayers.PutCrosses | de_databus/configFile.cpp:182-196 | what an update does to the paths of later ones: those through its place have its value to cross, the others what they had |
| ConfigLayers.ApplyOkIff | de_databus/configFile.cpp:160-200 | a document goes through if and only if none of its paths crosses a plain value, in the target or put there by its own earlier items |
| ConfigLayers.DocumentAcceptedIff | de_databus/configFile.cpp:212-213 | a document the base takes goes through at run time if and only if none of its paths crosses a plain value of the overrides, as changed by the updates since they were layered |
| ConfigLayers.UpdateReachesBaseIff | de_databus/configFile.cpp:202-214 | an update the base can take is folded into base and file if and only if its path crosses no plain value of the overrides, or the base says already what it says |
| ConfigLayers.AcceptedIffLayersClear | de_databus/configFile.cpp:202-253 | over any run whose updates cross only objects in the base, from a store that fits what is known of its layers, all go through at run time if and only if none crosses a plain value of the overrides in force |
| ConfigLayers.RunTakesUpdatesIff | de_databus/configFile.cpp:202-253 | the same for any run of a fresh store: the updates all go through if and only if none crosses a plain value of the overrides in force |
| ConfigLayers.OverridesNeverLeak | de_databus/configFile.cpp:202-214 | over any run of a fresh store whose dotted paths cross only objects, in the base and in the overrides in force, base and saved file are the loaded file with the updates folded in, whatever was layered |
| ConfigLayers.FittingRunsArePristine | de_databus/configFile.cpp:202-214 | the same from any store that fits what is known of its layers |
| ConfigLayers.BaseIgnoresOverrides | de_databus/configFile.cpp:244-284 | two runs of a fresh store differing only in overrides, with paths that cross only objects, end with the same base and saved file |
| ConfigLayers.FittingRunsIgnoreOverrides | de_databus/configFile.cpp:244-284 | the same from any two stores that fit what is known of them and agree on base and file |
| ConfigLayers.OverrideBlocksUpdate | de_databus/configFile.cpp:183-214 | a number in the overrides can keep an update out of the published file |
| ConfigLayers.PlainRuns | de_databus/configFile.cpp:202-221 | without overrides the runtime configuration stays the base, while updates cross only objects |
| ConfigLayers.LayeringDoesNotStack | de_databus/configFile.cpp:246-251 | layering the same overrides and reloading any number of times leaves deepMerge(base, overrides) |
| ConfigLayers.EditSurvivesReload | de_databus/configFile.cpp:42-50 | after a reload a saved edit is in force where the overrides are silent, theirs where they decide |
| MemoryTrend.LeastSquares | de_databus/de_module_health.cpp:72-93 | no line has a smaller squared error than the one with this slope, and every other line has a larger one when the times differ |
| MemoryTrend.SteadyGrowth | de_databus/de_module_health.cpp:72-93 | readings in microseconds that grow by g MB in every 3600 seconds have slope g |
| MemoryTrend.DenominatorZeroIff | de_databus/de_module_health.cpp:89-90 | the denominator is never negative, and zero exactly when all samples share one time |
| MemoryTrend.GrowingSlope | de_databus/de_module_health.cpp:72-93 | time-ordered samples whose RSS never falls have slope >= 0 |
| MemoryTrend.NeverDown | de_databus/de_module_health.cpp:110-132 | such a process is never reported to trend down, whatever the window |
| MemoryTrend.WindowIsLast | de_databus/de_module_health.cpp:110-111 | the rolling window is the last n of all samples |
| MemoryTrend.ErrorOfMoved | de_databus/de_module_health.cpp:79-92 | how the squared error changes when a line moves, by the two normal equations |
| MemoryTrend.HealthMonitor.CalculateSlope | de_databus/de_module_health.cpp:72-93 | the four accumulated sums give the slope |
| MemoryTrend.HealthMonitor.Push | de_databus/de_module_health.cpp:110-111 | the window after one more sample |
| MemoryTrend.HealthMonitor.Peak | de_databus/de_module_health.cpp:117-119 | the greatest RSS of the window |
| MemoryTrend.HealthMonitor.TakeSample | de_databus/de_module_health.cpp:96-145 | window, slope, peak, trend (up above 1 MB/h, down below -1), status and uptime of one sample, or an invalid one that leaves the window alone |
| ObsWire.Build | helpers/obs.hpp:82-111 | builds the wire object exactly of the frames within the contract |
| ObsWire.Parse | helpers/obs.hpp:118-186 | reads exactly the specified frame or refuses |
| ObsWire.BuiltParses | helpers/obs.hpp:82-186 | a built frame parses back, absent trk and cls_id normalised |
| ObsWire.ParsedBuilds | helpers/obs.hpp:82-186 | every frame the parser accepts can be built and parses back unchanged |
| ObsWire.BuildGateIsExact | helpers/obs.hpp:77-94 | a frame is built if and only if its wire object would be read back as that frame |
| ObsWire.WireKeys | helpers/obs.hpp:96-109 | the keys of the wire object and what stands under each, optional ones exactly when set |
| ObsWire.BoxIsInside | helpers/obs.hpp:64-74 | boxes in the unit square are valid, and valid ones reach at most one millionth beyond its right and lower edge |
| ObsWire.WrapMeans64 | helpers/obs.hpp:118-186 | an integer read as `int64_t` keeps its value in range, and its lowest 64 bits otherwise |
| TrackWire.TrackedFrameTravels | helpers/track_manager.hpp:241-281 | whatever the tracker publishes, in any reachable state, for a parsed frame can be built and parses back unchanged |

## Left out

- Sockets, threads, sleeps, retries and start/stop: datagrams are a sequence, a lock is an atomic step, a send that fails is a cut of the sequence.
- ChunkProtocol.RoundTripIff: a datagram longer than the receive buffer arrives cut off, as on Unix sockets; on UDP such a send fails instead, which is the case of a cut sequence in `SendMessage`. A sender without a bound path is not told apart from the previous one by the code; paths are given here.
- Rounding, NaN and infinities of doubles: prices, boxes, usages, slopes and thresholds are reals, and INF is a value of its own. Exact equality of results with the rounded arithmetic is not claimed.
- TrackManagement.TrackManager.Update: hits, misses and ids do not overflow their 32 and 64 bits.
- HungarianSpec.SolveOptimal: says nothing of n > m, which the source excludes of its callers.
- InvokeProtocol.AlwaysAble: says that a next step is always possible, not that the scheduler takes it.
- InvokeProtocol.AcceptedAgain: the model also lets receipts fall between the two sections of a rejected invoke and while an invoke is being looked up. The code's single receive thread finishes both before it takes the next receipt, so there the gap is that of a handler's result or timeout only.
- capMatchEventPattern and the top-level checks of an advert. In the invoke protocol a nondeterministic reject stands for the lookup and the parameter check.
- CapSchema.CheckParams: the wording and the order of the error messages; a message is its path and its kind, a list of them a set. Exceptions the JSON library throws for an `optional` that is no boolean, a `deprecated_alias` that is no string, or for `fields` that are no object in a schema nobody validated, are not modelled: such entries count as not optional and as absent. Integers beyond 2^53 compare exactly with doubles here.
- CpuAggregation.CpuAggregator.OnReport: the conversion of a double outside the range of `int`, undefined in C++, wraps here.
- The JSON and text built for the CPU detail and warnings, the per-process CPU share, and reading /proc.
- ConfigLayers.ConfigFile.UpdateJSON: files hold documents; comments, parsing, backups and console text are not modelled, nor the order in which the library visits the keys of an update, which is an input.
- Camera geometry and the projector (trigonometry), the camera registry, message constants, the facade, the message parser and the routing in `CModule`: one branch each, or floating-point.
