# net80211 in Dafny

A model of the protocol engines and in-place ciphers of FreeBSD's net80211
stack, with proofs. `dafny verify dfyconfig.toml` checks all of it.

Where the code updates fields or buffers in place, the model is a class or a
method over arrays, proved against a specification function; the laws are then
proved about that function, for all inputs and all runs. Values of fixed width
wrap where the code's do: 12-bit sequence numbers, 8-, 16-, 32- and 64-bit
counters and sums. `ticks` is an unbounded integer, and a handler that holds a
lock is one step.

| Files | What they model |
|---|---|
| `SeqArith`, `ReorderSpec`, `ReorderRuns`, `ReorderDelivery`, `ReorderFates`, `ReorderSorts`, `RxAmpdu` | The A-MPDU receive reorder buffer: a window over sequence numbers lifted to integers, and the class with its 64 slot queues. |
| `HwmpSpec`, `HwmpDuties`, `HwmpLoops`, `HwmpMesh`, `HwmpExact`, `HwmpReach`, `HwmpStation` | HWMP path selection at one station and over a mesh in which every frame sent may be lost, repeated, delayed or reordered. |
| `HwmpCodec`, `HwmpLayout`, `HwmpFrames` | The wire form of path selection elements: printing, length checks, parsing. |
| `TkipMixing`, `TkipStandard`, `TkipCipher`, `TkipTransmit` | TKIP key mixing, its in-place computation, and the transmit counter with the phase 1 cache. |
| `Rc4`, `Crc`, `CrcTrailer`, `WepSpec`, `WepCipher` | RC4, the CRC table, and WEP and TKIP payload encryption and decryption over buffer chains. |
| `MichaelSpec`, `MichaelBlock`, `Michael` | The Michael code over buffer chains. |
| `CcmSpec`, `CcmLaws`, `CcmpChain`, `CcmpEncrypt`, `CcmpDecrypt`, `Ccmp`, `CcmpHeader`, `CcmpCrossing` | CCMP against CCM of RFC 3610, the block cipher being any function from block to block. |
| `VapRef`, `NodeRef` | The interface and node reference counts as interleaved atomic steps. |
| `DfsSpec`, `DfsHistory`, `Dfs` | Radar marks, the non-occupancy timer and the channel availability check. |
| `Defrag` | Reassembly of fragments. |
| `AgeQueue` | The age queue's linked list. |
| `DivMod`, `Octets`, `Bits`, `Widths`, `PacketNumber`, `Pieces`, `Mbufs`, `Tally` | Division, octets and their bits, the 48-bit packet number, strings made of pieces, buffer chains, counting. |

The methods of `HwmpStation.MeshVap` compute, in place on a route table, exactly
what the functions of `HwmpSpec` say of a station; the loop freedom results are
about those functions. In the same way `RxAmpdu.RxAmpdu` is tied to
`ReorderSpec`, and the three classes `VapRef.Vap`, `NodeRef.Node` and
`Dfs.DfsState` to the step functions of their state machines.

## Findings

What the proofs show the code does not do, with the exact condition where there
is one:

- An age flush delivers buffered frames without moving the window to them.
  Delivery stays in order exactly in the runs in which no event hands up a
  number at or below one already handed up, or flushes past a buffered frame
  (`ReorderDelivery.RunInOrder`). While all that was delivered lies before the
  window only an age flush does that (`ReorderDelivery.BehindBreaks`); four
  events deliver frame 1 before frame 0 (`ReorderRuns.SweepSwaps`).
  `freebsd/sys/net80211/ieee80211_ht.c:1376-1405`
- The NOL timer is lost when radar is marked on the very tick it fires and no
  older mark is left (`DfsSpec.TimeoutArmsIff`, `DfsSpec.TimerLost`); such a mark
  stays until the next radar event (`DfsSpec.StuckMark`).
  `freebsd/sys/net80211/ieee80211_dfs.c:244-271`
- CCMP decryption takes only the first part of a block that crosses buffers into
  the MIC. All that was sent is accepted, under every permutation of blocks,
  exactly on chains in which no block crosses (`CcmpCrossing.AgreesIff`). For
  every header and every other chain that decryption is defined on there is a
  frame, under some permutation of blocks, that is rejected
  (`CcmpCrossing.CrossingRejected`).
  `freebsd/sys/net80211/ieee80211_crypto_ccmp.c:652-654`
- The TKIP phase 1 cache is refreshed by the counter alone. A packet is keyed as
  prescribed exactly when its transmitter address is that of the packet that
  last refreshed the cache (`TkipTransmit.KeyRightIff`); whether one key ever
  serves several transmitter addresses is up to its callers.
  `freebsd/sys/net80211/ieee80211_crypto_tkip.c:998-1013`
- With forwarding off, a station discards every path request, one for itself
  included, although the comment says it keeps those: the test asks for a target
  that is both its own address and a group address. A request for the station is
  accepted exactly when it forwards, and then answered unless it is stale
  (`HwmpSpec.AnswersIff`). `freebsd/sys/net80211/ieee80211_hwmp.c:966-989`
- Path metrics wrap at 32 bits, and a route that expires takes the sequence number
  learned with it along. Loops are ruled out exactly when neither happens
  (`HwmpExact.SafeIff`): whichever pair of path and link metric wraps, there is
  a run of frames really sent, in which no other sum wraps, that ends with two
  stations as each other's next hop (`HwmpExact.WrapLoops`), and so there is when
  one route expires (`HwmpExact.ExpiryLoops`).
  `freebsd/sys/net80211/ieee80211_hwmp.c:1003-1018`,
  `freebsd/sys/net80211/ieee80211_mesh.c:424-441`
- A path request without targets passes the length check, although its comment
  promises at least one (`HwmpFrames.EmptyRequestPasses`).
  `freebsd/sys/net80211/ieee80211_hwmp.c:302-334`
- The reference counts are safe exactly up to a number of threads: a detach up
  to 2^31 (`VapRef.DrainedIff`), the underflow assertion and overflow-free
  acquisition below 2^31 (`VapRef.FitsIff`), the last node reference up to 2^32
  (`NodeRef.OneLastIff`). `freebsd/sys/net80211/ieee80211_freebsd.c:362-414`
- A fragmented frame of more than 16 fragments runs on into the next sequence
  number (`Defrag.OneNumberIff`). `freebsd/sys/net80211/ieee80211_input.c:231-235`
- A cleared radar mark is announced once, as the comment says, exactly when radar
  was reported on just one table entry of its frequency since the mark was last
  clear (`DfsSpec.AnnouncedOnceIff`); two reports give two messages
  (`DfsSpec.ToldTwice`). `freebsd/sys/net80211/ieee80211_dfs.c:250-263`
- The length checks of path selection elements look at octets before they know
  that the element has them. They stay within an element exactly when its count
  and flag octets lie in it (`HwmpFrames.StaysWithinIff`); a request with no
  octet of its own is checked by what lies past it (`HwmpFrames.LooksPast`), and
  nothing past an element that is accepted is looked at
  (`HwmpFrames.AcceptedStaysWithin`).
  `freebsd/sys/net80211/ieee80211_hwmp.c:302-395`
- A session that a driver starts is sound exactly when what is stored of its
  arguments is a window of 1 to 64 frames and a start below 4096
  (`RxAmpdu.RxAmpdu.StartExt`); nothing checks that, as a comment notes.
  `freebsd/sys/net80211/ieee80211_ht.c:729-769`

## Model

| member | source | states |
|---|---|---|
| SeqArith.LiftOf | freebsd/sys/net80211/ieee80211.h:240-252 | The integer a 12-bit number stands for, at or after the window start, is recovered from it; modular subtraction gives the distance. |
| SeqArith.BeforeLifts | freebsd/sys/net80211/ieee80211.h:254-256 | For integers less than half the range apart, `SEQ_BA_BEFORE` on their 12-bit remainders decides which is smaller. |
| ReorderSpec.RunOk | freebsd/sys/net80211/ieee80211_ht.c:682-798 | After any run of frames, BARs, age sweeps, starts and stops the window holds frames only strictly inside it, at most 64 wide, and none when stopped or waiting. |
| ReorderDelivery.NextInOrder | freebsd/sys/net80211/ieee80211_ht.c:1001-1219 | One event keeps the numbers delivered in a session strictly increasing exactly when it delivers no number at or below an earlier one and does not flush past a buffered frame, said of the state before it. |
| ReorderDelivery.RunInOrder | freebsd/sys/net80211/ieee80211_ht.c:1001-1299 | Delivery is in order after every event of a run exactly when no event of it does either. |
| ReorderDelivery.BehindBreaks | freebsd/sys/net80211/ieee80211_ht.c:1376-1405 | While all that was delivered lies before the window, only an age flush breaks the order. |
| ReorderDelivery.RunLabels | freebsd/sys/net80211/ieee80211_ht.c:1046-1062 | In every run, flushes included, each frame goes up under a number whose 12 bits it carries. |
| ReorderRuns.NextBehind | freebsd/sys/net80211/ieee80211_ht.c:1001-1219 | One event keeps what was delivered increasing and before the window start exactly when it is not an age flush that delivers a frame at or past the start it leaves. |
| ReorderRuns.RunBehind | freebsd/sys/net80211/ieee80211_ht.c:1001-1299 | The same after every event of a run, exactly when no event of it is such a flush. |
| ReorderRuns.SweepGetsAhead | freebsd/sys/net80211/ieee80211_ht.c:1376-1405 | A sweep that flushes anything delivers a frame at or past the window start. |
| ReorderRuns.SweepSwaps | freebsd/sys/net80211/ieee80211_ht.c:1376-1405 | A run of start, early frame, sweep, missing frame delivers frame 1 before frame 0. |
| ReorderRuns.RunAccounts | freebsd/sys/net80211/ieee80211_ht.c:542-651 | Over any run, age flushes included, each frame is delivered, freed, passed by or buffered exactly as often as it was handed in. |
| ReorderFates.RunFates | freebsd/sys/net80211/ieee80211_ht.c:1001-1110 | In every run a frame passes reordering by exactly as often as it comes without being unicast QoS data of a running session, and is freed exactly as often as it comes as a fragment, too far ahead or a second time, or as a session ends that holds it. |
| ReorderFates.RunAge | freebsd/sys/net80211/ieee80211_ht.c:1163-1169 | In every run the age of the buffer is the time at which some frame was once buffered alone, since when it has never been empty. |
| ReorderFates.SweepIff | freebsd/sys/net80211/ieee80211_ht.c:1375-1405 | A sweep empties the buffer, in order, exactly when that age is past the limit; the window and all else stay. |
| ReorderSorts.Sorts | freebsd/sys/net80211/ieee80211_ht.c:834-986 | Consecutively numbered frames, however many, that arrive in any order in which none comes a window or more ahead of one still missing, and in which nothing is missing at some moment whenever more than the age limit passes, are delivered sorted, each once, and nothing is left. |
| RxAmpdu.RxAmpdu.DispatchSlot | freebsd/sys/net80211/ieee80211_ht.c:812-831 | The slot is emptied, counters and queues agree, and its frame is delivered under its number. |
| RxAmpdu.RxAmpdu.MoveUp | freebsd/sys/net80211/ieee80211_ht.c:833-865 | Every queue moves down by `i` slots, nothing is lost, and the loop has found every frame when it stops. |
| RxAmpdu.RxAmpdu.RxDispatch | freebsd/sys/net80211/ieee80211_ht.c:875-905 | The run of frames behind the window start is delivered in order and the window moves to the first gap. |
| RxAmpdu.RxAmpdu.FlushUpto | freebsd/sys/net80211/ieee80211_ht.c:939-986 | Everything before the new start and the run found there are delivered in order; the window moves to the first gap or its far end. |
| RxAmpdu.RxAmpdu.FlushAll | freebsd/sys/net80211/ieee80211_ht.c:911-931 | Everything buffered is delivered in order, the window stays, and the counters come out at zero. |
| RxAmpdu.RxAmpdu.PurgeAll | freebsd/sys/net80211/ieee80211_ht.c:666-679 | Everything buffered is freed and both counters are zero, as the assertion at its end demands. |
| RxAmpdu.RxAmpdu.AddSlot | freebsd/sys/net80211/ieee80211_ht.c:541-651 | A frame is stored under its number, or freed when one with that number is there. |
| RxAmpdu.RxAmpdu.MoveTowards | freebsd/sys/net80211/ieee80211_ht.c:1073-1110 | One trip round the window-move loop moves the start forward by at least 1 and at most the window, not past the frame. |
| RxAmpdu.RxAmpdu.MoveWindow | freebsd/sys/net80211/ieee80211_ht.c:1073-1199 | The loop ends with the frame inside the window, having delivered what one move to it would. |
| RxAmpdu.RxAmpdu.OutOfOrder | freebsd/sys/net80211/ieee80211_ht.c:1112-1173 | A frame past the window start is buffered, freed as a duplicate, or flushes what waits too long and goes up. |
| RxAmpdu.RxAmpdu.Reorder | freebsd/sys/net80211/ieee80211_ht.c:1000-1219 | Queues, counters and the 12-bit start represent the map from numbers to frames before and after; what is delivered, freed and passed by is as specified. `PROCESS` is returned exactly when the frame bypasses reordering, or is next once the window has moved and nothing is buffered, or is in the window and what is buffered has waited too long; and what the session delivers is what the code dispatched itself, followed by this frame exactly when it is so left to the caller. |
| RxAmpdu.RxAmpdu.RecvBar | freebsd/sys/net80211/ieee80211_ht.c:1226-1299 | The same for a BAR, all of whose deliveries the code dispatches itself; after one within half the range the start is at or past its number. |
| RxAmpdu.RxAmpdu.AgeSweep | freebsd/sys/net80211/ieee80211_ht.c:1375-1405 | The same for the age sweep, all of whose deliveries the code dispatches itself. |
| RxAmpdu.RxAmpdu.Start | freebsd/sys/net80211/ieee80211_ht.c:696-724 | A running session is purged and a new one begins at the given number with the window size cut to 64. |
| RxAmpdu.RxAmpdu.StartExt | freebsd/sys/net80211/ieee80211_ht.c:729-769 | The same for a driver, whose arguments are stored in 16 bits unchecked; -1 lets the first frame decide the start. The record is sound exactly when the stored window is 1 to 64 and the stored start below 4096. |
| RxAmpdu.RxAmpdu.Stop | freebsd/sys/net80211/ieee80211_ht.c:788-798 | Everything buffered is freed and the session ends. |
| HwmpSpec.MetricGrows | freebsd/sys/net80211/ieee80211_hwmp.c:1008-1008 | A positive link metric makes a path longer exactly when the 32-bit sum does not wrap. |
| HwmpSpec.NonForwarderIsDeaf | freebsd/sys/net80211/ieee80211_hwmp.c:966-989 | With forwarding off every path request leaves a station with an individual address as it was, unanswered. |
| HwmpSpec.AnswersIff | freebsd/sys/net80211/ieee80211_hwmp.c:966-1098 | A request for such a station is accepted exactly when the station forwards, and answered, by one reply under a sequence number past its own and the one asked after, exactly when it is also not stale. |
| HwmpDuties.RepliesPassedIff | freebsd/sys/net80211/ieee80211_hwmp.c:1264-1394 | A path reply is passed on, in one frame to the next hop for its originator with hop count, ttl and metric changed and the rest equal, exactly when it is not outdated, the station forwards and is not the originator, ttl and hop count allow it, and the originator is known. |
| HwmpDuties.ReplyTeaches | freebsd/sys/net80211/ieee80211_hwmp.c:1307-1361 | What routes are after it: the path to the target, one to the neighbour it came from, and no other change. |
| HwmpDuties.RequestsPassedIff | freebsd/sys/net80211/ieee80211_hwmp.c:1166-1225 | A request for another station is sent on to all neighbours exactly when it is accepted and news, may go further and names one target; and answered as well, with the path the station has, exactly when the target was known, is reachable and may be answered for. |
| HwmpDuties.RootsHeardIff | freebsd/sys/net80211/ieee80211_hwmp.c:1124-1225 | A root's request is sent on in the same way; the root is answered, under the next sequence number, exactly when it asks for that or there is no valid path to it, and it becomes a gate when it says so. |
| HwmpDuties.RequestTeaches | freebsd/sys/net80211/ieee80211_hwmp.c:992-1045 | After a request that is news the originator's route is the better of the one brought and the one known, and the neighbour is known over this link or a shorter way. |
| HwmpDuties.HeardAgain | freebsd/sys/net80211/ieee80211_hwmp.c:1021-1035 | The same request heard again, from whichever neighbour, over a path no shorter, is dropped. |
| HwmpDuties.DiscoveryAsksIff | freebsd/sys/net80211/ieee80211_hwmp.c:1906-2010 | A discovery sends its request exactly when none is under way, no valid path is known, the last attempt is long enough ago, tries are left and the rate limit allows. |
| HwmpDuties.TriesUsedUp | freebsd/sys/net80211/ieee80211_hwmp.c:1851-1904 | Without an answer the timer sends one request each time until the tries are used up, and no more however often it would fire. |
| HwmpDuties.RootAsks | freebsd/sys/net80211/ieee80211_hwmp.c:844-863 | A root's request, field by field, under its next sequence number and identifier. |
| HwmpLoops.RecvPreqHandled | freebsd/sys/net80211/ieee80211_hwmp.c:942-1224 | A path request from an honest neighbour only improves routes, every new route leads to a neighbour with a strictly better one, and what is sent is honest. |
| HwmpLoops.RecvPrepHandled | freebsd/sys/net80211/ieee80211_hwmp.c:1264-1394 | The same for a path reply. |
| HwmpMesh.ActKeeps | freebsd/sys/net80211/ieee80211_hwmp.c:903-937 | Every reception, discovery, retry and root request keeps: each valid route's next hop is the destination or has a route with a greater sequence number or the same and a smaller metric; every frame ever sent is still backed by its sender. |
| HwmpMesh.LoopFree | freebsd/sys/net80211/ieee80211_hwmp.c:942-1394 | After any run from a fresh mesh, following next hops from a station with a valid route reaches the destination within as many hops as there are stations and never comes back. |
| HwmpReach.Discovers | freebsd/sys/net80211/ieee80211_hwmp.c:942-1394 | Along a chain of forwarding stations of any length within the ttl and hop limits, with any positive link metrics that do not wrap, there is a run from a fresh mesh, of two actions a hop and one to begin with, each frame received by a station it is addressed to, after which following next hops leads from the originator to the target and back along the chain, and the originator's metric is the length of the way. |
| HwmpExact.WrapLoops | freebsd/sys/net80211/ieee80211_hwmp.c:1003-1018 | For every path metric and link metric whose sum wraps there is a run of frames really sent, each received by a station it is addressed to, in which only that sum may wrap, that ends with two stations as each other's next hop. |
| HwmpExact.ExpiryLoops | freebsd/sys/net80211/ieee80211_mesh.c:424-441 | There is such a run in which nothing wraps and one route is deleted by the cleaner. |
| HwmpExact.SafeIff | freebsd/sys/net80211/ieee80211_hwmp.c:942-1394 | All runs are free of loops exactly when no wrapping pair of metrics may be added up and no route may expire. |
| HwmpCodec.AcceptedIffFits | freebsd/sys/net80211/ieee80211_hwmp.c:306-395 | The length checks accept a printed message exactly when its length fits its octet and it names at most 19 destinations. |
| HwmpCodec.DecodeWire | freebsd/sys/net80211/ieee80211_hwmp.c:412-571 | Parsing a printed message that fits gives back every field, and the message is as long as it claims. |
| HwmpCodec.WireDecode | freebsd/sys/net80211/ieee80211_hwmp.c:691-799 | Every accepted element is the print of what is parsed from it. |
| HwmpLayout.DecodeLies | freebsd/sys/net80211/ieee80211_hwmp.c:412-571 | What is parsed from any accepted element is what lies there: every field at its offset, with or without the extra address its flag bit announces, numbers least significant octet first. |
| HwmpLayout.WireLies | freebsd/sys/net80211/ieee80211_hwmp.c:691-799 | Every field of a message that fits is printed at that offset. |
| HwmpCodec.ElementsOfWires | freebsd/sys/net80211/ieee80211_hwmp.c:398-571 | Messages printed one after another are parsed as exactly those messages. |
| HwmpFrames.Printer.AddPreq | freebsd/sys/net80211/ieee80211_hwmp.c:691-724 | The cursor prints exactly the request's octets and changes no others. |
| HwmpFrames.Printer.AddPrep | freebsd/sys/net80211/ieee80211_hwmp.c:726-753 | The same for a reply. |
| HwmpFrames.Printer.AddPerr | freebsd/sys/net80211/ieee80211_hwmp.c:755-784 | The same for an error report, with any mix of extended addresses. |
| HwmpFrames.Printer.AddRann | freebsd/sys/net80211/ieee80211_hwmp.c:786-799 | The same for a root announcement. |
| HwmpFrames.PreqLength | freebsd/sys/net80211/ieee80211_hwmp.c:1256-1260 | The length the sender writes is the true one modulo 256. |
| HwmpFrames.PerrLength | freebsd/sys/net80211/ieee80211_hwmp.c:1664-1674 | The same when it is added up destination by destination. |
| HwmpFrames.VerifyPreqLen | freebsd/sys/net80211/ieee80211_hwmp.c:302-335 | The count octet when the element's length agrees with it, else -1, as soon as the octets looked at exist; at least 1 exactly when accepted with a count other than 0. |
| HwmpFrames.VerifyPrepLen | freebsd/sys/net80211/ieee80211_hwmp.c:337-355 | 1 when the length is that of its flag octet, else -1. |
| HwmpFrames.VerifyPerrLen | freebsd/sys/net80211/ieee80211_hwmp.c:361-395 | The count octet when it is at most 19 and the destinations end where the element does, else -1. |
| HwmpFrames.EmptyRequestPasses | freebsd/sys/net80211/ieee80211_hwmp.c:302-335 | A printed request without targets passes the length check. |
| HwmpFrames.StaysWithinIff | freebsd/sys/net80211/ieee80211_hwmp.c:302-395 | When the check of an element looks no further than the element, kind by kind. |
| HwmpFrames.AcceptedParse | freebsd/sys/net80211/ieee80211_hwmp.c:397-571 | A frame whose elements are all accepted is parsed without looking past it. |
| HwmpFrames.ReachIsEnough | freebsd/sys/net80211/ieee80211_hwmp.c:361-395 | No frame is looked past by more than 365 octets. |
| HwmpFrames.RecvAction | freebsd/sys/net80211/ieee80211_hwmp.c:397-571 | The parser's messages depend only on the frame's own octets, as soon as those it looks at exist: those of the accepted elements, up to one cut short or a root announcement of the wrong length. |
| TkipMixing.UnmixMix | freebsd/sys/net80211/ieee80211_crypto_tkip.c:606-613 | Unmixing undoes mixing, for both phases and any number of steps. |
| TkipMixing.MixUnmix | freebsd/sys/net80211/ieee80211_crypto_tkip.c:635-647 | And mixing undoes unmixing, so each phase permutes its states. |
| TkipMixing.TtakTellsAll | freebsd/sys/net80211/ieee80211_crypto_tkip.c:594-614 | Equal phase 1 outputs mean equal addresses and counter bits. |
| TkipMixing.SeedTellsAll | freebsd/sys/net80211/ieee80211_crypto_tkip.c:620-663 | Equal RC4 keys mean equal phase 1 outputs and low counter bits. |
| TkipMixing.TemporalKeysNeverCollide | freebsd/sys/net80211/ieee80211_crypto_tkip.c:594-663 | Under one temporal key, and any S-box table, equal RC4 keys mean the same transmitter and the same 48-bit packet number. |
| TkipStandard.RotateBits | freebsd/sys/net80211/ieee80211_crypto_tkip.c:516-519 | Bit by bit, the rotation is one to the right. |
| TkipStandard.SBits | freebsd/sys/net80211/ieee80211_crypto_tkip.c:586-590 | The S-box value is the entry of the lower octet, exclusive or that of the upper one with its octets exchanged, bit by bit. |
| TkipStandard.Seed1Bits | freebsd/sys/net80211/ieee80211_crypto_tkip.c:649-653 | The second octet of the RC4 key is the first one with bit 5 set and bit 7 cleared. |
| TkipStandard.TtakIsStandard | freebsd/sys/net80211/ieee80211_crypto_tkip.c:594-614 | Phase 1 by terms and indices is eight rounds on five named words, with key octets and round number where the standard has them. |
| TkipStandard.SeedIsStandard | freebsd/sys/net80211/ieee80211_crypto_tkip.c:620-663 | Phase 2 and the 16 octets of the RC4 key are the standard's, statement by statement on six named words. |
| TkipStandard.PacketKeyIsStandard | freebsd/sys/net80211/ieee80211_crypto_tkip.c:594-663 | So is the key prescribed for a transmitter and packet number. |
| TkipCipher.Phase1 | freebsd/sys/net80211/ieee80211_crypto_tkip.c:594-614 | The loop over the array computes the 40-step mix. |
| TkipCipher.Phase2 | freebsd/sys/net80211/ieee80211_crypto_tkip.c:620-663 | The twelve statements and the octet stores compute the RC4 key. |
| TkipTransmit.CacheHolds | freebsd/sys/net80211/ieee80211_crypto_tkip.c:998-1013 | After any run of packets the cache is phase 1 of the current high counter bits and of the address of the last packet that refreshed it. |
| TkipTransmit.CacheAgreesFor | freebsd/sys/net80211/ieee80211_crypto_tkip.c:998-1013 | With one address and a fresh counter the cache always agrees with recomputation, and each packet gets the prescribed key. |
| TkipTransmit.KeyRightIff | freebsd/sys/net80211/ieee80211_crypto_tkip.c:998-1013 | With several addresses a packet gets it exactly when its address is that of the last refresh. |
| TkipTransmit.KeysNeverRepeat | freebsd/sys/net80211/ieee80211_crypto_tkip.c:998-1013 | Even then two packets of a run share a key only 2^48 packets apart. |
| TkipTransmit.TxKey.SetIv | freebsd/sys/net80211/ieee80211_crypto_tkip.c:151-169 | The counter goes up by one and the header's octets, read back, are it modulo 2^48. |
| TkipTransmit.TxKey.Encap | freebsd/sys/net80211/ieee80211_crypto_tkip.c:998-1013 | One packet is one step of the run, its RC4 key in place and its IV in the header. |
| PacketNumber.Read6OfOctets | freebsd/sys/net80211/ieee80211_crypto_ccmp.c:219-225 | Putting together the six octets of a counter gives it modulo 2^48. |
| PacketNumber.OctetsOfRead6 | freebsd/sys/net80211/ieee80211_crypto_ccmp.c:139-157 | The 48 bits keep every octet that goes on the wire. |
| Rc4.TablePermutes | freebsd/sys/net80211/ieee80211_crypto_wep.c:356-372 | The RC4 table is a permutation after the key schedule and after any number of octets drawn. |
| Rc4.Engine.ScheduleKey | freebsd/sys/net80211/ieee80211_crypto_wep.c:364-372 | The key schedule over the array is the recursive one. |
| Rc4.ScheduledIs | freebsd/sys/net80211/ieee80211_crypto_wep.c:370-373 | A step of the key schedule moves the index by the table's octet and the key's, exchanges two entries and leaves the others. |
| Rc4.DrawnIs | freebsd/sys/net80211/ieee80211_crypto_wep.c:389-392 | Drawing an octet: which two entries are exchanged, and that the octet is the entry at their sum after the exchange. |
| Rc4.StatesTell | freebsd/sys/net80211/ieee80211_crypto_wep.c:389-392 | Drawing can be undone, so different states stay different however many octets are drawn. |
| Crc.TableDivides | freebsd/sys/net80211/ieee80211_crypto_wep.c:289-342 | Each of the 256 entries is its index divided by the polynomial, bit by bit. |
| Crc.UpdateDivides | freebsd/sys/net80211/ieee80211_crypto_wep.c:378-387 | One table step is eight bits of polynomial division. |
| WepSpec.ChecksumDivides | freebsd/sys/net80211/ieee80211_crypto_wep.c:378-410 | The checksum of any string is bit-by-bit division of it. |
| CrcTrailer.TrailerIs | freebsd/sys/net80211/ieee80211_crypto_wep.c:410-416 | The four octets sent, put together least significant first, are the complement of the remainder. |
| CrcTrailer.ResidueIff | freebsd/sys/net80211/ieee80211_crypto_wep.c:378-416 | Whatever the message, taking in four octets after it ends at the remainder 0xdebb20e3 exactly when they are the ones sent for it. |
| WepSpec.CryptAt | freebsd/sys/net80211/ieee80211_crypto_wep.c:387-393 | Octet `i` of the payload is masked with octet `i` of the key stream from where it begins. |
| WepSpec.OutputIs | freebsd/sys/net80211/ieee80211_crypto_wep.c:389-392 | Octet `n` of the key stream is what is put out after `n + 1` steps from the schedule. |
| WepCipher.Encrypt | freebsd/sys/net80211/ieee80211_crypto_wep.c:344-425 | Over any chain the payload is masked in place with the key stream and the checksum of the plain payload, masked, is returned; short chains are refused. |
| WepCipher.Decrypt | freebsd/sys/net80211/ieee80211_crypto_wep.c:427-512 | Over any chain with the last four octets together the payload is unmasked in place, and accepted exactly when those four are its masked checksum. |
| WepCipher.RoundTrip | freebsd/sys/net80211/ieee80211_crypto_wep.c:344-512 | Decrypting what was encrypted under the same key and IV restores the payload and accepts it, however each side cuts it into buffers. |
| Michael.Hashed | freebsd/sys/net80211/ieee80211_crypto_tkip.c:893-980 | The walk over a chain finishes exactly when no word touches more than two buffers and a last part word lies in one; then its result is the code of the flat, padded message. |
| Michael.MichaelMic | freebsd/sys/net80211/ieee80211_crypto_tkip.c:872-996 | The same for the whole code, header included. |
| MichaelBlock.XswapIs | freebsd/sys/net80211/ieee80211_crypto_tkip.c:800-803 | The octets of each half word change places. |
| MichaelBlock.BlockUndone | freebsd/sys/net80211/ieee80211_crypto_tkip.c:805-815 | The block function has an inverse, its statements undone last first. |
| MichaelBlock.KeyTells | freebsd/sys/net80211/ieee80211_crypto_tkip.c:872-996 | For one message, different keys give different codes. |
| MichaelBlock.OneWordTells | freebsd/sys/net80211/ieee80211_crypto_tkip.c:893-996 | Under one key, messages that differ in exactly one word of their padded form have different codes. |
| MichaelBlock.PaddingTells | freebsd/sys/net80211/ieee80211_crypto_tkip.c:960-992 | No two messages are padded alike. |
| CcmSpec.SealedIs | freebsd/sys/net80211/ieee80211_crypto_ccmp.c:436-445 | Encrypting block by block, part blocks included, gives the ciphertext and last chaining value of the reference. |
| CcmSpec.OpenedIs | freebsd/sys/net80211/ieee80211_crypto_ccmp.c:580-589 | Decrypting block by block restores the message; what is chained is what is taken in of each block. |
| CcmSpec.EncipheredAt | freebsd/sys/net80211/ieee80211_crypto_ccmp.c:436-445 | Octet `i` of block `k` is masked with octet `i` of key block `k + 1`; block 0 is kept for the tag. |
| CcmLaws.ChainTellsOne | freebsd/sys/net80211/ieee80211_crypto_ccmp.c:436-445 | Under any permutation of blocks, messages of one length that differ in exactly one block have different last chaining values. |
| CcmpEncrypt.EncryptData | freebsd/sys/net80211/ieee80211_crypto_ccmp.c:458-573 | Over every chain in which no block touches more than two non-empty buffers, the payload in place becomes the reference ciphertext and the result is its chaining value. |
| CcmpDecrypt.DecryptData | freebsd/sys/net80211/ieee80211_crypto_ccmp.c:606-665 | Over every chain whose blocks end in the buffer they start in or the next, the payload is restored in place, the first part of each block being taken in. |
| Ccmp.InitBlocks | freebsd/sys/net80211/ieee80211_crypto_ccmp.c:342-434 | The blocks built octet by octet are the first block and encoded additional data of RFC 3610, sections 2.2 and 2.3; the result is the chaining value after them and key block 0. |
| CcmpHeader.FlagBits | freebsd/sys/net80211/ieee80211_crypto_ccmp.c:377-377 | The mask clears bits 3 to 5 of the second octet, Retry among them, and keeps the others. |
| CcmpHeader.AadIff | freebsd/sys/net80211/ieee80211_crypto_ccmp.c:367-424 | Two headers give the same additional data exactly when they differ in nothing but masked bits: subtype, Retry, Power Management, More Data, sequence number, and the upper half of QoS control. |
| CcmpHeader.NonceIff | freebsd/sys/net80211/ieee80211_crypto_ccmp.c:342-365 | Two nonces are equal exactly when priority, transmitter and the 48 bits of the packet number are. |
| CcmpHeader.KeyBlocksApart | freebsd/sys/net80211/ieee80211_crypto_ccmp.c:342-440 | Under one key and any permutation of blocks, two packets use the same block of key stream exactly when those and the block's number agree; and none is the block a code begins with. |
| Ccmp.Encrypt | freebsd/sys/net80211/ieee80211_crypto_ccmp.c:447-578 | Encryption over a chain is CCM with an 8-octet tag and 2-octet length on the flat payload. |
| Ccmp.Decrypt | freebsd/sys/net80211/ieee80211_crypto_ccmp.c:592-674 | Decryption restores the payload and accepts exactly when the last 8 octets are the tag the octets taken in give. |
| Ccmp.ReceivedIs | freebsd/sys/net80211/ieee80211_crypto_ccmp.c:436-674 | A frame sent and received, cut anew, gives its payload back, and is accepted exactly when the chaining values agree in 8 octets. |
| Ccmp.RoundTrip | freebsd/sys/net80211/ieee80211_crypto_ccmp.c:436-674 | It is accepted whenever no block crosses from buffer to buffer. |
| CcmpHeader.RetransmissionAccepted | freebsd/sys/net80211/ieee80211_crypto_ccmp.c:342-674 | It is accepted and restored then also when it arrives under a header that differs in masked bits, as a retransmission does. |
| CcmpCrossing.AgreesIff | freebsd/sys/net80211/ieee80211_crypto_ccmp.c:652-654 | The receiver's tag agrees with the sender's for every payload of a length, start value and permutation of blocks (or any block function), exactly when no block crosses buffers. |
| CcmpCrossing.CrossingRejected | freebsd/sys/net80211/ieee80211_crypto_ccmp.c:652-654 | On every other chain that decryption is defined on, for every header and packet number, some frame sent as it should be under some permutation of blocks is rejected. |
| Ccmp.TxKey.SetIv | freebsd/sys/net80211/ieee80211_crypto_ccmp.c:139-157 | The counter goes up by one and is read back from the header modulo 2^48. |
| Ccmp.SameNonce | freebsd/sys/net80211/ieee80211_crypto_ccmp.c:219-225 | The 48 bits received give the sender's nonce, start value and key stream. |
| VapRef.RunCounted | freebsd/sys/net80211/ieee80211_freebsd.c:362-406 | In every interleaving the count is holders plus adders in flight, modulo 2^31, and the flag is set exactly once some thread has begun to detach. |
| VapRef.PollSeesUsers | freebsd/sys/net80211/ieee80211_freebsd.c:403-405 | With at most 2^31 threads a waiting detach sees zero exactly when nobody is busy. |
| VapRef.DrainedIff | freebsd/sys/net80211/ieee80211_freebsd.c:362-406 | Once a detach has returned no thread holds or can obtain a reference, in every run, exactly when there are at most 2^31 threads. |
| VapRef.FitsIff | freebsd/sys/net80211/ieee80211_freebsd.c:374-391 | No release underflows and no acquisition overflows, in any run, exactly when there are fewer than 2^31 threads. |
| VapRef.Vap.VincrefTest | freebsd/sys/net80211/ieee80211_freebsd.c:369-380 | The second half of taking a reference is that step of the machine; it succeeds exactly when the thread then holds one. |
| NodeRef.OneLastIff | freebsd/sys/net80211/ieee80211_freebsd.c:408-414 | At most one release is told it was the last, and then nobody holds a reference, in every run, exactly when there are at most 2^32 threads. |
| NodeRef.QuietMeansOne | freebsd/sys/net80211/ieee80211_freebsd.c:408-414 | When every reference has been released, exactly one release was told so. |
| NodeRef.Node.DectestCompare | freebsd/sys/net80211/ieee80211_freebsd.c:408-414 | A release is told so exactly when no reference is held and none was told before. |
| DfsSpec.RunConsistent | freebsd/sys/net80211/ieee80211_dfs.c:116-178 | In every run entries of one frequency agree on radar, check and event; none has both marks; every marked frequency has an entry that will be announced; the timer is never later than one period from now. |
| DfsSpec.MarkStays | freebsd/sys/net80211/ieee80211_dfs.c:244-266 | Without a reset no mark is cleared before its period is over. |
| DfsSpec.TimeoutArmsIff | freebsd/sys/net80211/ieee80211_dfs.c:234-271 | A timeout leaves the timer armed no later than every remaining mark's expiry exactly when no mark remains or one is older than the tick. |
| DfsSpec.RunArmedIff | freebsd/sys/net80211/ieee80211_dfs.c:234-342 | The timer is so after every event of a run exactly when every timeout in it is of that kind. |
| DfsSpec.StuckMark | freebsd/sys/net80211/ieee80211_dfs.c:340-342 | A mark without a timer stays until the next radar event or reset. |
| DfsSpec.TimerLost | freebsd/sys/net80211/ieee80211_dfs.c:267-271 | Two radar events and a timeout that end so. |
| DfsSpec.ClearedIsNotified | freebsd/sys/net80211/ieee80211_dfs.c:249-263 | Every frequency whose mark is cleared is announced. |
| DfsSpec.PendingIffReported | freebsd/sys/net80211/ieee80211_dfs.c:325-339 | In every run a notification is pending on an entry exactly when radar was reported on that entry and its mark has stood ever since. |
| DfsSpec.AnnouncedOnceIff | freebsd/sys/net80211/ieee80211_dfs.c:249-263 | After any run, clearing a frequency's mark is announced once exactly when that is so of just one of its entries. |
| DfsSpec.ToldTwice | freebsd/sys/net80211/ieee80211_dfs.c:249-263 | Radar reported on two entries of one frequency is announced twice when it is cleared. |
| DfsHistory.ExpiryChecks | freebsd/sys/net80211/ieee80211_dfs.c:130-178 | A check that expires without radar marks every entry of its frequency as checked and changes nothing else; with radar it marks none. |
| DfsHistory.CheckedIff | freebsd/sys/net80211/ieee80211_dfs.c:130-232 | In every run an entry counts as checked exactly when a check of its frequency expired without radar and no radar, clear or reset of that frequency came since. |
| DfsHistory.MarkedIff | freebsd/sys/net80211/ieee80211_dfs.c:234-342 | In every run an entry is marked exactly when radar came for its frequency and neither a reset nor a timeout one period later came since, and the time kept is that of the last such radar. |
| DfsHistory.RunTimer | freebsd/sys/net80211/ieee80211_dfs.c:264-342 | In every run the timer is due one period after some radar event. |
| Dfs.DfsState.Timeout | freebsd/sys/net80211/ieee80211_dfs.c:234-271 | The loop over the table clears, announces and rearms as specified. |
| Dfs.DfsState.NotifyRadar | freebsd/sys/net80211/ieee80211_dfs.c:296-395 | All entries of the frequency are marked, or none under a debug setting; a newly picked channel is unmarked, of another frequency and of the wanted kind; waiting means there is none. |
| Dfs.DfsState.PickChannel | freebsd/sys/net80211/ieee80211_dfs.c:400-438 | Without a scan result a free compatible entry is found exactly when there is one, wherever the search starts. |
| Dfs.DfsState.CacTimeout | freebsd/sys/net80211/ieee80211_dfs.c:130-178 | The entries of the current frequency are marked as checked unless radar was found or no check was running. |
| Dfs.DfsState.DfsCacClear | freebsd/sys/net80211/ieee80211_dfs.c:221-232 | The check marks of one frequency go, and nothing else. |
| Defrag.ReleasedIsWhole | freebsd/sys/net80211/ieee80211_input.c:171-271 | Whatever a run releases is fragment 0 and consecutive fragments of equal addresses and protection, all but the last with more to come. |
| Defrag.WholeIsReleased | freebsd/sys/net80211/ieee80211_input.c:171-271 | Whatever was pending, every such sequence, arriving in turn, is released as one frame and what was pending freed, or, when it continues what is pending, both are released as one. |
| Defrag.StrayDrops | freebsd/sys/net80211/ieee80211_input.c:222-264 | A fragment that does not continue what is pending frees it; a first one takes its place, another is freed too. |
| Defrag.MergedIs | freebsd/sys/net80211/ieee80211_input.c:231-240 | A released frame has its fragments' addresses and protection, the last one's sequence control, and each payload where the one before ends. |
| Defrag.OneNumberIff | freebsd/sys/net80211/ieee80211_input.c:231-235 | Its fragments share one sequence number exactly when there are at most 16. |
| Defrag.RunAccounts | freebsd/sys/net80211/ieee80211_input.c:171-271 | Over any run each fragment is released, pending or freed exactly as often as it arrived. |
| Defrag.Node.Defrag | freebsd/sys/net80211/ieee80211_input.c:171-271 | The stored frame is the first header, the last sequence control and all payloads; a released frame's protected bit survives only on the short path. |
| Defrag.Node.Reap | freebsd/sys/net80211/ieee80211_node.c:2386-2390 | What has waited for more than a second is freed. |
| AgeQueue.AgeQ.Append | freebsd/sys/net80211/ieee80211_ageq.c:105-133 | The frame is queued last with its age relative to the head's, or dropped when the queue is full; length, head, tail, links and the list of stored ages stay exact; the assertion on ages holds exactly when the age is at least the head's. |
| AgeQueue.AgeQ.Age | freebsd/sys/net80211/ieee80211_ageq.c:161-186 | The longest run of frames at the front younger than the quantum is returned as a list, and only the new head's age changes. |
| AgeQueue.AgeQ.Remove | freebsd/sys/net80211/ieee80211_ageq.c:192-239 | Exactly the matching frames are returned, in order; the others stay, in order; a new head has the old head's age. |
| AgeQueue.RunAccounts | freebsd/sys/net80211/ieee80211_ageq.c:105-239 | Over any run each frame is queued, returned or freed exactly as often as it was queued at first or offered. |
| AgeQueue.RunInOrder | freebsd/sys/net80211/ieee80211_ageq.c:105-239 | The queue always holds frames in the order offered, and no more than it may. |
| AgeQueue.RisingNeverFails | freebsd/sys/net80211/ieee80211_ageq.c:111-117 | In every run of the queue's changes in which no frame is queued with an age below an earlier one's, the assertion on ages holds each time and stored ages never go below 0. |

## Left out

- RxAmpdu.RxAmpdu.AddSlot: several frames of a driver-decapsulated A-MSDU in one slot, as under `Reorder`.
- RxAmpdu.RxAmpdu.Reorder: no driver-decapsulated A-MSDU (several frames per number), no fragments of A-MPDU statistics, no forced delivery flags.
- HwmpMesh.LoopFree: is for runs in which no path metric wraps and no route expires (`HwmpExact.SafeIff` says why), without error reports, root announcements and proxied addresses, with positive link metrics and sequence numbers below 2^31.
- HwmpSpec: failed route table allocation, the queue of frames that wait for a path, and timers other than when they fire; each reception names its link metric.
- HWMP error report reception and root announcement handling (they switch on a flags octet and can move sequence numbers back).
- TkipMixing: the S-box table itself; results are for any table. Big-endian hosts, and that the phase 2 words share memory with the RC4 key.
- TKIP receive: the phase 1 cache and its replay counters per TID.
- WepCipher.Encrypt: returns the encrypted checksum; appending it to the chain is not part of this model.
- WepCipher.Decrypt: requires the checksum in the last buffer, as the code reads it there without looking.
- Michael.MichaelMic: takes the pseudo header as given.
- Ccmp.Encrypt: is for chains in which no block touches more than two non-empty buffers; the gather loop shrinks its own bound on others. Appending the tag is not part of this model.
- Ccmp.Decrypt: is for chains whose blocks end at the latest in the next buffer, as an assertion in the code demands.
- Buffer chains are sequences of distinct arrays; allocation, external storage and shared buffers are not part of this model. AES is any function from block to block.
- NodeRef: references found through the node table, which a table lock guards.
- VapRef.Vap: the waiting loop is one poll per step; how long it sleeps is not part of this model.
- Dfs.DfsState.NotifyRadar: the table and the event times are one array here; the scan cache's choice and the random start are parameters; the NOL period is constant; log messages and their rate limit are left out.
- Defrag.Node.Defrag: header octets other than sequence control, flags and two addresses, and the assertion that the address is not a group address.
- AgeQueue.AgeQ.Age: stored ages only; how they relate to wall-clock time after removals is not exact in the code.
- Hardware offload flags, statistics, debug output, memory allocation failure, and the ioctl, sysctl, ifnet and module code.
- The ACL table, AMRR, channel conversion, flag synchronisation and action-handler registration, which would only add easy members.
