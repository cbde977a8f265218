# l2tpns, modelled and verified in Dafny

l2tpns terminates L2TP tunnels and PPP sessions for many subscribers, on a cluster of machines that share
their state. This project states what its protocol and data-structure code does and proves it: the reliable
control channel, cluster replication, the BGP advertiser, the token bucket filters, multilink PPP, the
address tries, MD5 and the RADIUS password routines.

`dafny verify dfyconfig.toml` checks everything.

## How it is laid out

Code that changes state is a class or a method over arrays (`Tunnel`, `Node`, `Peer`, `Speaker`, `Table`,
`Filter`, `Fragmentation`, `Splitter`, `IpCache`, `Ipv6Cache`, `Context`, and methods over byte buffers). Its
contract ties the new state to a function of the old one. What the system promises is then proved of those
functions: invariants of every step, and theorems over whole runs.

| files | subject |
|---|---|
| `ControlChannel`, `ControlChannelRun`, `ControlChannelReply` | go-back-N sender and receiver with 16-bit numbers (RFC 2661, section 5.8), two ends over a network that loses, repeats and reorders, and what each end puts out, move by move and until it gives up |
| `Rle`, `Heartbeat`, `ClusterPacket`, `ClusterWalk` | run-length code, heartbeat elements, whole heartbeat packets and the cyclic table walk, within one packet and from one to the next |
| `ClusterTables`, `ClusterHistory`, `ClusterNode`, `ClusterAnswers`, `Cluster` | tables with undefined entries, the ring of 64 heartbeats, one node's operations as values, what it does with whatever it is handed, and the code |
| `Replication`, `ReplicationHeader`, `ReplicationProgress`, `ReplicationStarvation` | a master and a slave over whole runs: what the slave holds, which version and settings it has, when it knows everything, and a cluster in which it never does |
| `Election` | which slave becomes master, and which of several masters survives |
| `BgpRoutes`, `BgpFill`, `Bgp` | the difference of two sorted lists as one UPDATE message, its wire form and its effect at the peer, how much one message says, and the linked-list code |
| `TokenBucket`, `FilterTable` | one filter as a value, and the filter table with its timer chain |
| `Multilink`, `MultilinkRun`, `MultilinkDelivery`, `MultilinkBreak`, `MultilinkWrap`, `MultilinkSend`, `Reassembler` | reassembly as a function, without loss under unbounded numbering, exactly which runs deliver everything, after a long break and beside what is left over, a run that loses a packet where the words wrap, the sending side and end to end, and the code over the fragment array |
| `PppFrame` | the two header builders and how a message is taken apart again |
| `IpTrie` | the IPv4 and the IPv6 lookup tree |
| `Md5Spec`, `Md5Vector`, `Md5` | MD5 as RFC 1321 defines it, the digest its test suite gives for "abc", and the streaming code on wide words |
| `RadiusPassword` | password hiding and the tunnel password, in place |
| `Common` | machine integers, network byte order, `Option` |

## Where the code does less than it seems to

Each of these is stated as a lemma about the code as it is, with the exact condition where there is one.

- **Crossed control messages** (`ControlChannelRun.CrossedIff`, `CrossedForever`, `CrossedIsReachable`).
  Acknowledgements are read only from packets that are in sequence, and no zero length block is sent while a
  message is queued. Once both queues wait and each end has accepted everything the other has transmitted, the
  first min(controlc, window) of its queue, neither ever reads an acknowledgement again: whatever is resent,
  redelivered or queued behind a full window, until a new message falls inside a window or an end gives up,
  though nothing is lost. Any other live pair with a message waiting, and neither end on its last try, has a
  run without new messages in which an acknowledgement is read.
- **Ample space for `rle_compress`** is n + n / 2 + 2 bytes, because the loop wants more than two bytes left:
  for n > 0, every input of n bytes is consumed if and only if there is that much (`Rle.AmpleIff`).
- **A master that provokes another** resends its last heartbeat exactly when its next number is not 0
  (`ClusterHistory.ProvokeIff`). At 0, before the first heartbeat and at every wrap, `past_hearts` is read at
  index -1: the remark at cluster.c:1861-1862 that the wrap need not be checked does not hold.
- **Masters that go on changing their tables** (`Election.GrowingMastersPersist`): while both grow between
  hearing from each other, neither gives way. Over every run some master is left, and exactly one once all
  have heard one another's current claims (`Election.SomeMasterSurvives`, `OneMasterSurvives`). Once versions rest
  a master is the only one left exactly when every other has heard a claim that beats its own (`OneMasterIff`).
- **Multilink where the 32-bit numbers wrap** (`MultilinkDelivery.DeliveryIff`, `MultilinkSend.PacketsArrive`,
  `MultilinkRun.InStepIff`, `MultilinkWrap.WrapLosesAPacket`). M is the minimum over wrapped words. While one link
  has passed a multiple of 2^32 and another has not, M leaves the slower link out, and the search can move the
  start past a fragment that is still to come: a packet is lost though nothing was lost on the way, every link kept
  its order and the links were never more than 4 fragments apart. When every fragment arrives in the end, every
  packet comes out if and only if at no arrival M has passed the begin of a later frame while the first incomplete
  one is still short of a fragment, and M is never 2^32 - 1 in the middle of a frame, which takes a bundle of one
  link (`MultilinkRun.StrandedIsAlone`). Otherwise fewer bytes come out than went in. With all links in the same
  round of 2^32 numbers the first cannot happen (`MultilinkRun.TogetherIsCalm`).
- **BGP withdrawals go by the wire form** (`BgpRoutes.ReplayIff`, `FollowsIff`): a peer stays in step exactly when
  no withdrawal shares the wire form of a route that stays, and it does so whatever is advertised and wanted of
  some routes exactly when no two of them share one. Routes without host bits never do (`CanonicalNeverClashes`),
  routes with host bits can (`HostBitsAreLost`). Session routes do not get there: `routeset` clears the host bits
  (l2tpns.c:498) before it registers or withdraws one (l2tpns.c:538-542).
- **A throttled session can stall for good** (`TokenBucket.LeavesIff`, `StallsIff`): whenever the timer runs,
  the first waiting packet leaves exactly when it is no larger than the bucket and the credit, with what every
  gap between runs earns, covers it. Each gap is rounded down on its own, so with runs at most g tenths of a
  second apart nothing is ever earned unless g times the rate is at least 10. At 5 kbit/s a packet of 1500
  bytes that has to wait never leaves (`SlowThrottleStalls`).
- **A promoted node that did not know everything** frees what it did not know. A slave level with it holds the
  same exactly when each such entry is free or unknown at the slave too (`Replication.HandoverIff`).
- **Bundles can starve** (`ReplicationProgress.UptodateIff`, `StarvedIsNever`, `WalksMakeUptodate`). A fresh slave is
  up to date exactly when every id in use at its first heartbeat has been carried by one it has applied. The three
  walks of a heartbeat share what room the queue leaves; a walk that has room when it begins takes at least one id, so
  as many heartbeats with room as there are ids bring them all. On a heartbeat with nothing queued sessions always
  have room, and tunnels behind them (`QuietSessions`, `QuietTunnels`), but bundles only when the tunnels before
  them happen to leave it: always if no tunnel costs more than a tunnel is larger than a bundle (`QuietBundles`), and
  otherwise possibly never. With the sizes of a 64-bit machine, one session and 21 tunnels that do not compress, no
  heartbeat without changes ever carries a bundle, and a slave that joins never becomes up to date
  (`ReplicationStarvation.BundlesStarve`, `ExampleStarves`).
- **Leftovers after a long break** (`MultilinkBreak.LeftoverPullsBack`, `InReachAfterwards`). When M is 512 or more
  past the start, reassembly begins afresh at M (`BreakIsNewStart`), but the slots are not emptied, and a frame left
  over at M's place is assembled without a look at its numbers: the old frame leaves, the start falls back behind
  where it was to be, and the search for the next one clears the fragment that has just come. If everything held is
  one of the 512 fragments from M on (from the start, when there was no break), M is in reach of the ring after every
  fragment. A frame in one fragment that is the new M leaves at once whatever is held (`WholeFrameAfterBreak`).
- **Short multilink headers** carry their begin and end bits in the wrong byte: they are read back as section
  3 of RFC 1990 says exactly when there are none (`PppFrame.ShortHeaderIff`).
- **A refused fragment uses up its number** (`PppFrame.MakePpp`): `makeppp` counts before it tests the size.
- **IPv6 prefixes are rounded to nibbles**: caching one is matching by its length exactly when the length is a
  positive multiple of 4 (`IpTrie.RoundingIff`).

## Model

| member | source | states |
|---|---|---|
| ControlChannel.Tunnel.ControlNull | l2tpns.c:2014-2028 | a zero length block goes out, and the deadline is set, only when no queued message can carry the acknowledgement |
| ControlChannel.Tunnel.ControlAdd | l2tpns.c:2030-2053 | a message is stamped with the next number and queued; it is sent at once, with tries reset, exactly when it falls inside the window |
| ControlChannel.Tunnel.DropAcknowledged | l2tpns.c:2733-2744 | an acknowledgement removes as many messages from the front as it is ahead of the oldest number, by up to 2^15, and none otherwise |
| ControlChannel.Tunnel.SendFrom | l2tpns.c:2748-2766 | the messages an acknowledgement brought inside the window are sent, in order, each quoting the current receive number |
| ControlChannel.Tunnel.Receive | l2tpns.c:2719-2769 | a packet out of sequence is only answered; one in sequence acknowledges, advances the receive number, opens the window and is handed over |
| ControlChannel.Tunnel.CheckResend | l2tpns.c:3692-3712 | a deadline that has passed resends the window with a longer backoff, or kills the tunnel after too many tries |
| ControlChannel.Tunnel.Send | l2tpns.c:1279-1317 | a control message quotes its own number and the current receive number and sets the backed-off deadline |
| ControlChannel.Tunnel.Kill | l2tpns.c:2471-2490 | the whole queue is freed and the tunnel cleared |
| ControlChannelRun.AcknowledgedIsExact | l2tpns.c:2733-2744 | in spite of the wrap, an acknowledgement less than 2^15 old removes exactly the messages the peer had accepted when it was sent |
| ControlChannelRun.SentIsHonest | l2tpns.c:2014-2053 | every packet a coherent end sends carries the true unbounded numbers mod 2^16 |
| ControlChannelRun.TakenInOrder | l2tpns.c:2719-2769 | a message is accepted only when it is the very next one the peer queued |
| ControlChannelRun.NextKeepsInv | l2tpns.c:2719-2769 | every move of either end, with the network repeating and reordering at will, keeps both ends coherent with their histories |
| ControlChannelRun.ReliableDelivery | l2tpns.c:2030-2053 | over every run each side's accepted messages are a prefix of what the other queued, each once, and a message leaves the queue only after it was accepted |
| ControlChannelRun.RunIsReliable | l2tpns.c:2719-2769 | the invariant behind it holds after every run |
| ControlChannelRun.WindowLaw | l2tpns.c:2034-2052 | over every run and at either end queue entry k carries ns - controlc + k mod 2^16, and what was transmitted at least once is exactly the first min(controlc, window) |
| ControlChannelRun.CrossedIgnores | l2tpns.c:2719-2744 | an end for which nothing in flight is new, with messages queued, neither reads an acknowledgement nor answers |
| ControlChannelRun.CrossedForever | l2tpns.c:2719-2744 | two ends that have accepted all the other has transmitted, both queues waiting, read no acknowledgement in any run whose new messages are queued behind a full window |
| ControlChannelRun.CrossedIff | l2tpns.c:2719-2769 | two live ends with a message waiting, neither on its last try, have no run without new messages in which an acknowledgement is read if and only if they have crossed |
| ControlChannelRun.Catch | l2tpns.c:3692-3712 | an end that has not accepted all its peer transmitted is sent it again, and one of the two hears |
| ControlChannelRun.Answer | l2tpns.c:2014-2028 | an end that owes an acknowledgement can deliver it, by a zero length block or by resending |
| ControlChannelRun.CrossedIsReachable | l2tpns.c:2719-2744 | two messages that cross, nothing lost, lead there |
| ControlChannelReply.NullSays | l2tpns.c:2014-2028 | an acknowledgement goes out, quoting the true numbers mod 2^16, exactly when nothing is queued that could carry it, and its deadline is set |
| ControlChannelReply.RepeatIsAnswered | l2tpns.c:2719-2728 | on a coherent live end with nothing queued every packet with a message that is not the next one puts exactly one acknowledgement into the peer's flight; with messages queued, or without a message, nothing |
| ControlChannelReply.NextIsTaken | l2tpns.c:2730-2769 | the next message is accepted, what it acknowledges leaves the queue, and exactly the messages that come inside the window go out, in order, quoting what has been accepted; tries and deadline follow |
| ControlChannelReply.QueueSays | l2tpns.c:2030-2053 | a new message goes out at once exactly when it falls inside the window |
| ControlChannelReply.TimeoutSays | l2tpns.c:3692-3712 | before its deadline an end does nothing; later everything inside the window goes out again, quoting what has been accepted by then, and after five tries the end gives up |
| ControlChannelReply.BackoffDoubles | l2tpns.c:308-314 | each try waits twice as long as the one before, from one second up to 32 |
| ControlChannelReply.LostAckHeals | l2tpns.c:2719-2769 | when only an acknowledgement was lost and the receiver has nothing queued, a run of resends and arrivals alone gets it read |
| ControlChannelReply.Drains | l2tpns.c:2719-2769 | with a try to spare, a run of resends and arrivals alone brings everything queued to a peer with nothing queued, and empties the queue |
| ControlChannelReply.GivesUp | l2tpns.c:3692-3712 | an end that hears nothing keeps all its messages, resends at every deadline, and at the last is gone |
| ControlChannelReply.SilenceTakes63Seconds | l2tpns.c:308-314 | from the first transmission on that is resends after 1, 3, 7, 15 and 31 seconds, and the end after 63 |
| Rle.Compress | cluster.c:2326-2360 | packs the longest prefix that fits as literals and zero runs and ends with the stop byte |
| Rle.Decompress | cluster.c:2372-2397 | writes what the stream stands for, as far as the room goes, and stops where the stream ends |
| Rle.PackIsPrefix | cluster.c:2326-2360 | what was packed is a prefix of the input |
| Rle.PackCost | cluster.c:2326-2360 | with n bytes to go and n + n / 2 + 2 bytes of room all of them are packed, into at most n + (n + 1) / 2 bytes besides the stop byte |
| Rle.ZeroFirstCost | cluster.c:2326-2360 | input that begins with a zero costs at most n + n / 2 |
| Rle.AlternatingCutShort | cluster.c:2326-2360 | in less room the input 1, 0, 1, 0 and so on of n bytes is cut short, for every n |
| Rle.AmpleIff | cluster.c:2326-2360 | every input of n > 0 bytes is consumed if and only if there are n + n / 2 + 2 bytes of room |
| Rle.ZerosCost | cluster.c:2326-2360 | zeros cost a byte for every 127 |
| Rle.UnpackStream | cluster.c:2372-2397 | any stream, followed by anything, is read back up to and including its stop byte |
| Rle.RoundTrip | cluster.c:2326-2397 | decompressing what was compressed, followed by trailing bytes, into a longer buffer returns the input and stops right after the stop byte |
| Heartbeat.ParseOne | cluster.c:1944-2081 | one element is read back as written, raw or compressed |
| Heartbeat.ParseEncoded | cluster.c:1944-2081 | parsing yields exactly the elements serialised, in order, and ends at the end of the packet |
| Heartbeat.ParseUpTo | cluster.c:1944-2081 | well-formed elements are applied up to whatever follows them |
| Heartbeat.ParseStops | cluster.c:1944-2081 | fewer than 8 bytes, a structure cut short and an unknown type end the reading; a compressed structure of the wrong size is passed over |
| Heartbeat.FreeEntryCost | cluster.c:849-910 | an entry that is not in use costs 9 bytes and one for every 127 of its structure |
| Heartbeat.EncodedSize | cluster.c:849-910 | an element costs at most 8 bytes more than its structure |
| Heartbeat.Quotient | cluster.c:50 | the arithmetic behind MAX_CHANGES leaves room for one change more |
| Heartbeat.ChangesFit | cluster.c:50 | the header and MAX_CHANGES + 1 changes fit in MAX_HEART_SIZE |
| ClusterPacket.HeaderRoundTrip | cluster.c:933-954 | every field of the heartbeat header is read back, across its alignment padding |
| ClusterPacket.RequeuedDistinct | cluster.c:1042-1067 | an id is queued at most once, the last change is last and the others keep their order |
| ClusterPacket.WalkIsCyclic | cluster.c:966-1016 | the k-th id a walk adds is k places after its start, cyclically over 1..highest |
| ClusterPacket.WalkFits | cluster.c:966-1016 | a walk never takes the packet beyond MAX_HEART_SIZE |
| ClusterPacket.HeartbeatFits | cluster.c:923-1037 | a heartbeat with up to MAX_CHANGES + 1 changes and all three walks never exceeds MAX_HEART_SIZE |
| ClusterPacket.PacketRoundTrip | cluster.c:923-1037 | a reader of a built heartbeat finds its header and exactly the entries it carries, as they stood |
| ClusterWalk.WalkIsOne | cluster.c:966-1016 | a walk takes the ids in turn, cyclically, exactly as long as there is room for one more and not more than there are; the next one goes on where it stopped, at 1 + (start - 1 + n) mod highest |
| ClusterWalk.StrayWalk | cluster.c:966-1016 | one that stands beyond the highest id, where counting bytes on a slave may have left it, takes that id first and is then such a walk |
| ClusterWalk.BeatWalksOn | cluster.c:923-1037 | a heartbeat carries the queue, then such a walk of the sessions, of the tunnels and of the bundles, and moves all three on |
| ClusterWalk.SessionsLeaveRoom | cluster.c:964-987 | a session walk that had room to begin with leaves room for a tunnel and for a bundle |
| ClusterWalk.TunnelsLeaveRoom | cluster.c:989-1005 | a tunnel walk leaves room for a bundle when no tunnel costs more than a tunnel is larger than a bundle |
| ClusterTables.ReceivedCounted | cluster.c:1310-1390 | receiving an entry keeps each counter equal to the number of undefined entries |
| ClusterTables.CheckedCounted | cluster.c:785-847 | clearing the entries beyond the highest id keeps each counter exact |
| ClusterTables.NoUndefs | cluster.c:785-847 | the count is zero exactly when every entry is defined |
| ClusterTables.RunCounted | cluster.c:785-847 | over every sequence of updates counters stay exact, nothing becomes undefined again and the flag stays raised |
| ClusterTables.FlagIsTruthful | cluster.c:227-239 | from a fresh start the flag is raised only when no entry is undefined, and until then each counter is exact |
| ClusterHistory.StoredHolds | cluster.c:424-439 | after storing heartbeat n, by its sender or by a slave, the ring holds n and the 63 before it that it held |
| ClusterHistory.NumberIsInjective | cluster.c:1036 | numbers wrap at 2^30 but tell apart heartbeats less than 2^30 apart |
| ClusterHistory.CatchUpDelivers | cluster.c:1113-1150 | a slave d < 64 behind is sent exactly the d heartbeats it missed, in order, across the wrap, never the mismatch; from 64 on it is told to die |
| ClusterHistory.ProvokeIff | cluster.c:1860-1865 | with the last heartbeat held, provoking another master resends exactly that one if and only if the next number is not 0; at 0 the ring is read at index -1 |
| ClusterHistory.CaughtUpIs | cluster.c:1127-1150 | whatever the ring holds, heartbeats are resent as long as they stand in their places, up to the next one to send; the first that does not puts an end to it |
| Cluster.AddEntry | cluster.c:849-910 | one table entry is appended, compressed exactly when that covers it and shortens it |
| Cluster.Node.WalkTable | cluster.c:966-1016 | a walk appends exactly the ids the cyclic walk prescribes and moves on as far |
| Cluster.Node.BuildPacket | cluster.c:923-1024 | the buffer holds the header, the queued changes and the walks, and stays within bounds |
| Cluster.Node.Heartbeat | cluster.c:923-1037 | the packet is the one prescribed; it is kept in the ring, the queue is emptied and the next number taken |
| Cluster.Node.SendHeartbeat | cluster.c:424-439 | the packet overwrites the oldest one in the ring |
| Cluster.Node.MoveUp | cluster.c:1048-1057 | dropping an entry of the queue closes the gap |
| Cluster.Node.TypeChanged | cluster.c:1042-1067 | the id moves to the end of the queue, and a queue that has outgrown MAX_CHANGES is flushed |
| Cluster.Node.CatchupSlave | cluster.c:1113-1150 | answers with the missed packets, the mismatch, the order to die, or a read outside the ring, as the ring, the number and the lag say |
| Cluster.Node.CheckUptodate | cluster.c:227-239 | raises the flag exactly when all counters are zero |
| Cluster.Node.ReceiveEntry | cluster.c:1310-1390 | the entry is stored, an undefined one counted down, and the flag checked |
| Cluster.Node.CheckSessions | cluster.c:785-847 | undefined entries beyond the highest ids become free and are counted down, unless the node is up to date |
| Cluster.Node.ApplyEntries | cluster.c:1944-2081 | exactly the elements the format defines are applied, in order, until the end or the first error |
| Cluster.Node.ProcessHeartbeat | cluster.c:1792-1926 | duels with another master, follows the master it hears, applies the heartbeat it expects and asks for one it missed |
| Cluster.Node.Accept | cluster.c:1885-1926 | the expected heartbeat is kept in the ring, its header adopted and its entries applied |
| Cluster.Node.BecomeMaster | cluster.c:649-780 | what is undefined becomes free, the highest ids in use are found, ring and next number are kept |
| ClusterNode.CompletedIsFull | cluster.c:664-780 | on a promoted node every entry is defined |
| ClusterAnswers.ForeignIsIgnored | cluster.c:1804-1822 | a packet of another version, of an impossible size or of another cluster changes nothing |
| ClusterAnswers.StrayIsIgnored | cluster.c:1869-1883 | nor does, on a slave that has a master, a heartbeat of another one |
| ClusterAnswers.MasterAnswers | cluster.c:1824-1867 | a master dies for newer tables, then an older node, then a higher address; exactly as good as it, it sends its last heartbeat again; its state never changes |
| ClusterAnswers.InTurn | cluster.c:1885-2092 | the heartbeat expected is kept, its header adopted and what can be read of it applied, however broken; only a whole one makes its sender the master and its version the slave's |
| ClusterAnswers.OutOfTurn | cluster.c:1891-1912 | any other only shows that the master is alive; the one expected is asked for, once a second |
| ClusterAnswers.CheckFreesIff | cluster.c:785-847 | an entry is freed if and only if it is undefined, beyond the ids in use, and the node misses, of some table, at least as many entries as its highest id |
| ClusterAnswers.FlushIff | cluster.c:1042-1067 | a changed id goes to the end of the queue, which is sent at once if and only if it has become longer than 8192 / (S + 4) - 2 |
| ClusterAnswers.WriteFlushesIff | cluster.c:1042-1067 | it is so in the run model |
| ClusterAnswers.TakesOver | cluster.c:649-780 | a node that takes over knows every entry, those it had not been told of as free; the highest ids are the last in use; the numbering goes on or starts at 0 |
| Replication.WriteIsTypeChanged | cluster.c:1042-1067 | the master's part of a write in the run model is what the code does |
| Replication.ReceivingSettles | cluster.c:1944-2081 | receiving the current content of the entries in doubt settles them |
| Replication.BeatKeeps | cluster.c:923-1037 | sending keeps every invariant of master, log and slave |
| Replication.WriteKeeps | cluster.c:1042-1067 | changing and queueing an entry keeps the master ready to send |
| Replication.GenuineApplies | cluster.c:1885-1926 | a genuine heartbeat read in sequence makes the slave say what the snapshot says |
| Replication.DeliverKeeps | cluster.c:1792-1926 | a heartbeat that is early, late or repeated does no harm |
| Replication.NextKeepsInv | cluster.c:923-1067 | every move keeps the invariant |
| Replication.Replicates | cluster.c:1042-1067 | for every interleaving of writes, flushes, walks, losses, repeats and resends, every entry the slave holds as defined equals the master's when the last applied heartbeat was built, and no packet is too large |
| Replication.CatchUpHeals | cluster.c:1127-1150 | in any reachable state a slave fewer than 64 behind is sent exactly what it misses and is then level |
| Replication.PromotedSlaveCatchesUp | cluster.c:1915-1921 | a slave that becomes master can serve others from what it accepted |
| Replication.UptodateMeansEqual | cluster.c:227-239 | over every run, an up-to-date slave level with a master that has nothing queued holds the same tables |
| Replication.UptodateHoldsAll | cluster.c:227-239 | in any reachable state an up-to-date slave holds all of the last snapshot it applied |
| Replication.HandoverIff | cluster.c:649-780 | a promoted node and a slave level with it agree exactly when what the node did not know, and has freed, is free or unknown at the slave |
| Replication.HandoverKeepsInv | cluster.c:649-780 | when an up-to-date slave takes over, another that is not ahead of it is in step with it at once, so that all that holds of runs holds again from there |
| ReplicationHeader.GapIsAsked | cluster.c:1891-1912 | over a run, a heartbeat out of sequence changes nothing but the time of hearing and makes the slave ask for the one it expects |
| ReplicationHeader.VersionCountsChanges | cluster.c:933-954 | over every run the table version is that of the start and as many more as changes have been sent, mod 2^64; a slave has that of the last heartbeat it applied, and its settings |
| ReplicationProgress.NextKeepsWalking | cluster.c:966-1016 | every heartbeat of a run walks on where the one before it stopped, and ids in use only become more |
| ReplicationProgress.EveryIdIsCarried | cluster.c:966-1016 | over every run, while the highest id of a table stays the same, that many heartbeats with room for its walk carry all its entries between them |
| ReplicationProgress.NextKeepsKnows | cluster.c:785-847 | a slave knows exactly the entries beyond the ids in use at its first heartbeat and those it has been sent since, and says so at once when that is all |
| ReplicationProgress.UptodateIff | cluster.c:227-239 | over every run, it is up to date if and only if every id in use at its first heartbeat has been carried by one it has applied |
| ReplicationProgress.WalksMakeUptodate | cluster.c:966-1016 | over every run, a slave that has applied enough heartbeats with room for each walk is up to date |
| ReplicationProgress.StarvedIsNever | cluster.c:1004-1016 | over every run, one that has applied none with room for some walk, and no change of some entry there, is not |
| ReplicationProgress.QuietSessions | cluster.c:966-969 | with nothing queued a heartbeat has room for sessions if and only if a session has fewer than 4020 bytes |
| ReplicationProgress.QuietTunnels | cluster.c:983-989 | and then for tunnels |
| ReplicationProgress.QuietBundles | cluster.c:1004-1006 | and for bundles, when no tunnel in use costs more than a tunnel is larger than a bundle |
| ReplicationProgress.CalmMakesUptodate | cluster.c:923-1037 | over every run, a slave that has applied, while nothing was queued and tunnels compressed that well, as many heartbeats as the highest id of any table is up to date |
| ReplicationStarvation.NoBundle | cluster.c:966-1016 | with one session and 21 tunnels or more that do not compress, a heartbeat with nothing queued has no room for a bundle, wherever the walks stand |
| ReplicationStarvation.BundlesStarve | cluster.c:966-1016 | over every run without writes on such a cluster a slave never becomes up to date |
| ReplicationStarvation.ExampleStarves | cluster.c:966-1016 | there is such a cluster |
| Election.HoldElection | cluster.c:616-643 | the loop over the peer table wins exactly when every peer heard from in time and not shutting down is younger, or as old with an address no higher, and counts the up-to-date ones |
| Election.UniqueWinner | cluster.c:616-643 | with mutual fresh peer tables, non-zero start times and distinct addresses exactly one node passes: the oldest, or of several as old the one with the highest address |
| Election.DuelAgreesWithElection | cluster.c:1824-1867 | with equal table versions the duel and the election agree |
| Election.DuelIs | cluster.c:1824-1867 | by the numbers: newer tables, then an earlier start, then a higher address make a master give way, never a start time of 0; it provokes exactly those as new and as old whose address is not higher |
| Election.ChampionSurvives | cluster.c:1824-1867 | whatever the message order the best master survives and nobody comes back |
| Election.SomeMasterSurvives | cluster.c:1824-1867 | however table versions grow and however old the heartbeats are that arrive, a master is always left |
| Election.StaysIff | cluster.c:1824-1867 | once versions rest, a master stays exactly as long as it hears no claim that beats its own |
| Election.OneMasterIff | cluster.c:1824-1867 | a master is the only one left if and only if every other that was still there has heard a claim that beats its own |
| Election.OneMasterSurvives | cluster.c:1824-1867 | masters that change their tables for a while and then all hear one another's current claims: exactly one survives, with the newest tables, or the oldest of those, or with the highest address of those |
| Election.GrowingMastersPersist | cluster.c:1824-1867 | two masters that both grow before they hear from each other both stay |
| Bgp.InsertRoute | bgp.c:396-421 | the node is linked in before the first entry that is not smaller; the rest of the list is the same |
| Bgp.Speaker.AddRoute | bgp.c:456-500 | a new route joins the sorted list and flags established peers; a known one changes nothing |
| Bgp.Speaker.DelRoute | bgp.c:556-604 | a route is unlinked and peers flagged exactly when it was registered |
| Bgp.Speaker.EnableRouting | bgp.c:658-672 | all peers are switched, established ones flagged |
| Bgp.Peer.Clear | bgp.c:317-360 | the list of advertised routes is emptied |
| Bgp.Peer.Withdraw | bgp.c:1484-1508 | an unwanted route is written to the buffer and unlinked |
| Bgp.Peer.FindDifferences | bgp.c:1472-1531 | the walk over both lists computes the prescribed difference, relinks the list and writes exactly its withdrawals |
| Bgp.Peer.Finish | bgp.c:1533-1584 | attributes, the new prefix and both length fields complete exactly the message meant |
| Bgp.Peer.SendUpdate | bgp.c:1445-1584 | the list becomes the prescribed one, the flag says whether more is due, and a message goes out exactly when there is something to say |
| BgpRoutes.AddedSorted | bgp.c:396-421 | adding keeps the list sorted and free of duplicates and adds exactly that route |
| BgpRoutes.RemovedSorted | bgp.c:556-604 | removing takes away exactly that route |
| BgpRoutes.DifferenceCorrect | bgp.c:1472-1531 | withdrawn routes are advertised and unwanted, the chosen one is wanted and missing, all others are kept, whatever the limit |
| BgpRoutes.UpdateIsCorrect | bgp.c:1445-1584 | the symmetric difference shrinks by exactly what is said, the list stays sorted, and the flag is left clear only when both sets are equal |
| BgpRoutes.UpdateProgresses | bgp.c:1445-1584 | every message sent strictly reduces the distance; nothing is sent only when nothing is left to say |
| BgpRoutes.Converges | bgp.c:1445-1584 | repeated calls reach the wanted routes, with the flag clear, within as many calls as there were differences |
| BgpRoutes.DecodeMessage | bgp.c:1463-1584 | a peer reads exactly the withdrawals and the addition meant, and the path attributes when a route is added; marker, type and every length field agree |
| BgpRoutes.ReadBack | bgp.c:1548-1563 | a route without host bits is read back from its wire form |
| BgpRoutes.MessageFits | bgp.c:1458-1461 | a message that says something fits in 4096 bytes |
| BgpFill.OrderIsMemory | bgp.c:1477-1482 | the lists are ordered as memcmp orders the structures, by length and then by prefix |
| BgpFill.UpdateFills | bgp.c:1458-1531 | unless the message is full all unwanted routes are withdrawn and the smallest missing one is added; when it is full, the smallest unwanted ones are withdrawn |
| BgpRoutes.ReplayIff | bgp.c:1484-1508 | replaying the message the peer's table follows the advertised list exactly when no withdrawal clashes with a route that stays |
| BgpRoutes.FollowsIff | bgp.c:1484-1508 | over all lists of given routes, whatever is advertised, wanted and of whatever size, the peer follows if and only if no two of the routes share a wire form |
| BgpRoutes.SharedWireClashes | bgp.c:1484-1508 | any two routes that share one clash when one of them is withdrawn |
| BgpRoutes.CanonicalNeverClashes | bgp.c:1484-1508 | routes without host bits never clash |
| BgpRoutes.HostBitsAreLost | bgp.c:1484-1508 | with host bits a withdrawal can take another route along: 10.0.0.1/8 and 10.0.0.2/8 |
| BgpRoutes.NextKeepsInv | bgp.c:456-604 | every event keeps the session's invariant |
| BgpRoutes.PeerIsInStep | bgp.c:1445-1584 | over every run the peer's table is the advertised list, and the wanted one whenever no UPDATE is due |
| TokenBucket.RunIs | tbf.c:231-268 | running the queue lets go a prefix of it, paid from the refilled credit; what stays cannot be paid for |
| TokenBucket.StepKeeps | tbf.c:162-268 | credit stays in 0..max_credit, the queue within its slots, and the books stay balanced |
| TokenBucket.RunKeeps | tbf.c:162-268 | over every run, modulo 2^32, queued packets and bytes are those sent, dropped or held |
| TokenBucket.FirstInFirstOut | tbf.c:162-268 | what has left followed by what waits is what waited followed by what was taken in, in order |
| TokenBucket.SpendingBound | tbf.c:231-268 | from the last refill on no more leaves than credit and rate allow |
| TokenBucket.RateBound | tbf.c:162-268 | in any interval at most max_credit + rate * (t1 - t0) / 10 bytes leave |
| TokenBucket.LeavesIff | tbf.c:231-268 | for any increasing times of the timer, the first packet leaves exactly when it is no larger than the bucket and the credit with what each gap earns covers it |
| TokenBucket.StallsIff | l2tpns.c:4562-4569 | with gaps of at most g tenths of a second it can leave exactly when credit covers it, or it fits the bucket and g times the rate is at least 10 |
| TokenBucket.SlowThrottleStalls | l2tpns.c:2073-2097 | under a limit of 5 kbit/s a full-sized packet that has to wait never leaves, whenever the timer runs |
| TokenBucket.TickIs | tbf.c:231-268 | the credit grows by time times rate / 10 up to the bucket; the packets it covers leave, first come first, and are counted; the first that stays is not covered |
| TokenBucket.OfferIs | tbf.c:177-226 | a packet leaves at once if and only if nothing waits after the run and the credit then exceeds its size; it is lost if and only if it does not and two packets wait or it has 3000 bytes or more; otherwise it waits last; every counter follows |
| FilterTable.Filter.Drain | tbf.c:231-262 | credit is earned and every covered packet leaves the ring, in order, with its account |
| FilterTable.Filter.Take | tbf.c:182-220 | a packet is sent, queued in the next slot or dropped, with its account |
| FilterTable.Table.AddToTimer | tbf.c:30-45 | the filter joins the circular chain at its tail |
| FilterTable.Table.DelFromTimer | tbf.c:50-71 | the filter leaves the chain, wherever it was, and the rest keeps its order |
| FilterTable.Table.RunQueue | tbf.c:231-268 | the queue is run, and a filter that has become empty leaves the chain |
| FilterTable.Table.Accept | tbf.c:177-226 | a filter that is there runs its queue, then sends, queues or drops the packet as prescribed |
| FilterTable.Table.QueuePacket | tbf.c:162-226 | the prescribed step, its verdict as the result; an id below 1 or beyond the table and a free filter change nothing and answer -1; the id one past the table passes the test and is its own outcome; the chain holds exactly the live filters with packets |
| FilterTable.Table.New | tbf.c:94-121 | the first free filter from the last place on is taken into use with a full bucket and nothing waiting; 0 only when none is free |
| FilterTable.Table.Free | tbf.c:76-89 | the filter is free and off the chain |
| FilterTable.Table.RunTimer | tbf.c:273-293 | every filter on the chain is run exactly once and no other is touched, though filters leave while it is walked; the safety counter never cuts the walk short |
| FilterTable.Table.RunNext | tbf.c:288-293 | the next filter is known before the current one may leave the chain |
| FilterTable.CircleAdded | tbf.c:30-45 | linking in at the tail keeps one circular doubly linked list |
| FilterTable.Table.ChainIs | tbf.c:30-71 | on the chain are exactly the filters in use that hold packets |
| FilterTable.CircleCut | tbf.c:50-71 | linking out keeps one circular doubly linked list |
| FilterTable.ChainShort | tbf.c:273-293 | the chain is shorter than the table, which the safety counter relies on |
| Multilink.AssembleEats | ppp.c:2153-2257 | an assembly that asks for more has emptied a slot, so the loop through both labels ends |
| Multilink.Receive | ppp.c:1874-2257 | for every fragment that may arrive, the start index and every occupied slot stay congruent mod 512 to the start number and the stored number, across the 32-bit wrap |
| Multilink.SearchOn | ppp.c:2076-2150 | the search ends though its count wraps when M is 2^32 - 1: a walk that leaves the count there was over the fragment before M, which the next lap clears |
| Multilink.StepOn | ppp.c:2076-2150 | every other step of the search brings its end nearer |
| Multilink.FindEndWalks | ppp.c:2092-2130 | the inner loop walks over fragments that stand where their numbers say, and stops at the end, a gap, a fragment it clears, or M |
| Multilink.FindFrameCongruent | ppp.c:2076-2150 | the search keeps that congruence |
| Multilink.AssembleCongruent | ppp.c:2153-2250 | an assembly keeps that congruence |
| MultilinkRun.ExpandIs | ppp.c:1921-1936 | a number less than 2^23 from M, before or behind, survives being cut to 24 bits, across the wrap |
| MultilinkRun.NewMIsLead | ppp.c:1953-1968 | M is the smallest last number in the latest round of 2^32 numbers |
| MultilinkRun.FindFrameIdle | ppp.c:2076-2150 | the search changes nothing when the frame at the start is complete or M has passed no later begin, and M is not the largest word in the middle of a frame |
| MultilinkRun.PumpAstray | ppp.c:2074-2257 | when M has passed a later begin the start ends up past a fragment that the first incomplete frame still lacks |
| MultilinkRun.PumpAhead | ppp.c:2074-2257 | no search or assembly brings the start back |
| MultilinkRun.PumpStranded | ppp.c:2074-2257 | when M is the largest word in the middle of a frame, what has come of that frame is cleared |
| MultilinkRun.AssembleWindow | ppp.c:2153-2257 | the frame at the start leaves exactly when all of it is there |
| MultilinkRun.PumpWindow | ppp.c:2074-2257 | the loop delivers all complete frames and stops at the first that is not |
| MultilinkRun.InsertWindow | ppp.c:2006-2072 | a new fragment finds its slot, and no neighbour is taken for a leftover |
| MultilinkRun.BelowLead | ppp.c:1953-1968 | with all links in one round, everything below M has come |
| MultilinkRun.TogetherIsCalm | ppp.c:1953-1968 | M then passes nothing that is missing |
| MultilinkRun.StrandedIsAlone | ppp.c:1953-1968 | M is the largest word only when a single link carries everything |
| MultilinkRun.ReceiveIff | ppp.c:1874-2257 | after an arrival the start is the first incomplete frame and the ring holds exactly what has come from there on, if and only if M has passed nothing that is missing and is not 2^32 - 1 in the middle of a frame; then exactly the completed frames have left |
| MultilinkRun.InStepIff | ppp.c:1874-2257 | over whole runs the start is the first incomplete frame and the ring holds what has come, after every arrival, if and only if M passes nothing that is missing at any |
| MultilinkRun.RunDelivers | ppp.c:1874-2257 | in step, exactly the completed frames have left, in order, under unbounded numbering |
| MultilinkRun.FirstRoundIsCalm | ppp.c:1874-2257 | below 2^32 fragments every run is in step |
| MultilinkDelivery.ReceiveConserves | ppp.c:1874-2257 | whatever arrives and in whatever state, what is delivered and what the ring then holds is no more than what it held and what has come |
| MultilinkDelivery.AstrayStep | ppp.c:1874-2257 | once the start is past a fragment that has not come, every other arrival leaves it past it, across further wraps of M |
| MultilinkDelivery.MissingIsLost | ppp.c:1990-1996 | the fragment that was passed is dropped when it comes |
| MultilinkDelivery.StrandedPumpWastes | ppp.c:2074-2257 | when M is the largest word in the middle of a frame, bytes of that frame are gone |
| MultilinkDelivery.UneasyWastes | ppp.c:1874-2257 | a run in which M passes something that is missing and in which everything comes in the end wastes bytes |
| MultilinkDelivery.FramesWorth | ppp.c:2153-2257 | the complete frames have as many bytes as the fragments before the first incomplete one |
| MultilinkDelivery.DeliveryIff | ppp.c:1874-2257 | from the start and whatever the interleaving of the links, what is delivered are the complete frames before the first incomplete one, as long as M passes nothing that is missing; and when all frames have come, none of them too large, all are delivered if and only if it never did |
| MultilinkWrap.WrapLosesAPacket | ppp.c:1953-1968 | from the start, on two links, with nothing lost and each link in order, the packet at fragment 2^32 is lost and the one behind it delivered |
| MultilinkBreak.MIs | ppp.c:1953-1968 | in any congruent state M follows a number smaller than itself at once, and otherwise becomes the smallest last number of the members |
| MultilinkBreak.BreakIsNewStart | ppp.c:1970-1988 | when M is 512 or more past the start, in any congruent state, a fragment is received as if the ring had begun at M |
| MultilinkBreak.WholeFrameAfterBreak | ppp.c:1970-2257 | a frame in one fragment that is the new M is then delivered first, whatever is held; alone, and with the start behind it, unless the next fragment is there and begins a frame |
| MultilinkBreak.InReachAfterwards | ppp.c:1970-2257 | when nothing is left over, M is less than 512 past the start after every fragment, and the start has come at most 512 further |
| MultilinkBreak.LeftoverPullsBack | ppp.c:2152-2257 | otherwise not: a whole frame left over at M's slot leaves, the start falls back 1023 behind M, and the new fragment is cleared |
| MultilinkBreak.LeftoverBehind | ppp.c:2036-2053 | a fragment behind the new one that is not the next is cleared: for the first of several fragments that is all that happens, otherwise all goes on as if it had not been there |
| MultilinkBreak.LeftoverBefore | ppp.c:2055-2072 | in the same way one before it, for the last of several |
| MultilinkBreak.NextIsNext | ppp.c:2231-2245 | when a frame has left, the slot at the new start holds the next fragment or nothing |
| MultilinkWrap.AlternatingExists | ppp.c:1874-2257 | there are streams as that run needs them |
| MultilinkSend.PiecesAre | l2tpns.c:1656-1713 | the cut is a partition: joined it is the packet behind its protocol, only the first piece begins and only the last ends, none is empty |
| MultilinkSend.RestIs | l2tpns.c:1679-1704 | the last piece has the size computed beforehand, so the error branch is never taken |
| MultilinkSend.PieceSizes | l2tpns.c:1656-1704 | more than 64 bytes are cut into one piece for every two links, or two for two; all alike but for the remainder in the last |
| MultilinkSend.RoundTheLinks | l2tpns.c:1663-1704 | the i-th piece goes out on the link i + 1 places on, with number plus i in 24 bits |
| MultilinkSend.Splitter.Send | l2tpns.c:1649-1713 | exactly the prescribed pieces go out, numbered consecutively, round the member links |
| MultilinkSend.SendAll | l2tpns.c:1649-1713 | packet after packet, all their pieces go out, numbered on and in turn, which is what the end-to-end theorem starts from |
| MultilinkSend.SentIsStream | l2tpns.c:1649-1713 | what is sent for any packets is a stream the receiver can take |
| MultilinkSend.PacketsArrive | ppp.c:1874-2257 | end to end, packets cut up and sent round the links come out as they went in, once each, in order, byte for byte, as long as M passes nothing that is missing; and when every fragment has arrived, all of them if and only if it never did |
| MultilinkSend.FewPacketsAreCalm | ppp.c:1874-2257 | with fewer than 2^32 fragments that is always so |
| Reassembler.Fragmentation.SearchEnd | ppp.c:2092-2130 | the inner loop finds the end of a frame, a gap, or a fragment to clear |
| Reassembler.Fragmentation.SearchFrame | ppp.c:2074-2150 | the search in the array is the prescribed one, and ends for every M |
| Reassembler.Fragmentation.AssembleFrame | ppp.c:2152-2257 | the assembly in the array is the prescribed one, and says what to do next |
| Reassembler.Fragmentation.Process | ppp.c:2074-2257 | both labels together do the prescribed steps and end |
| Reassembler.Fragmentation.Least | ppp.c:1953-1968 | M is the smallest last number of the members |
| Reassembler.Fragmentation.Store | ppp.c:2006-2072 | the fragment is stored and its neighbours checked as prescribed |
| Reassembler.Fragmentation.Receive | ppp.c:1874-2257 | a received fragment changes the bundle and delivers frames as prescribed |
| Reassembler.HeaderIsRead | ppp.c:1912-1919 | flags, number and data are read as the sender writes them |
| PppFrame.MakePpp | ppp.c:2592-2681 | header and payload are written forward; a payload that does not fit is refused, its number used up |
| PppFrame.OptMakePpp | ppp.c:2686-2760 | the same header is written backwards in front of the payload, which stays; everything before is untouched and the number counts the same |
| PppFrame.DismantleHeader | l2tpns.c:3426-3452 | the receiver's code reads back ids, protocol and contents under every compression |
| PppFrame.LongHeader | ppp.c:1912-1919 | the reassembler reads back bits, the low 24 bits of the number and the protocol of the packet that begins |
| PppFrame.ShortHeaderIff | ppp.c:2643-2650 | a short header is read back right exactly when neither bit is set |
| PppFrame.StrictPeerReads | ppp.c:2625-2639 | a peer that reads as sections 6.5 and 6.6 of RFC 1661 allow, shortening only what it has agreed to, reads every frame |
| PppFrame.LinkControlInFull | ppp.c:2625-2639 | link control packets go out in full whatever was agreed |
| PppFrame.ShortestHeader | ppp.c:2625-2639 | all others as short as was agreed |
| PppFrame.FarEndReads | ppp.c:2592-2681 | the far end finds its own tunnel and session and the packet, or on a bundle of several links a fragment with the bundle's number |
| IpTrie.IpCache.Lookup | l2tpns.c:993-1003 | the answer is what a flat map would hold for the address |
| IpTrie.IpCache.Cache | l2tpns.c:1089-1110 | exactly that address gets the session; every other keeps its own |
| IpTrie.TreeExtended | l2tpns.c:1096-1103 | a new table leaves all other paths where they lead |
| IpTrie.Ipv6Cache.Lookup | l2tpns.c:1005-1034 | the answer is the session of the shortest cached prefix of the address |
| IpTrie.Ipv6Cache.Cache | l2tpns.c:1119-1147 | exactly that prefix, rounded to nibbles, gets the session |
| IpTrie.FirstIsShortest | l2tpns.c:1012-1026 | that session belongs to the shortest prefix that has one, and there is none only if no prefix has one |
| IpTrie.RoundingIff | l2tpns.c:1126-1144 | deciding by nibbles is matching by length exactly when the length is a positive multiple of 4 |
| IpTrie.BitsOfAddress | l2tpns.c:1012-1026 | the nibbles are the bits of the address in network order |
| Md5.MixLow | md5.c:27-30 | the optimised round functions agree with the definition on the low 32 bits |
| Md5.StepLow | md5.c:35-38 | of a step on wide words the low half is the step as defined on 32-bit words |
| Md5.Context.OneBlock | md5.c:79-161 | 64 steps with the code's words, constants and rotations are the compression RFC 1321 defines |
| Md5.Context.Body | md5.c:66-171 | any number of whole blocks is processed in order |
| Md5.Context.Count | md5.c:189-193 | the byte count split at 29 bits is exact, its carry included |
| Md5.CountsTogether | md5.c:189-193 | the low count having become smaller is the carry, for a piece of any size |
| Md5.Context.Update | md5.c:184-220 | however the message is cut, the context is that of everything taken in so far |
| Md5.Context.Final | md5.c:222-272 | the digest is that of the whole message padded as in sections 3.1 and 3.2 of RFC 1321 |
| Md5.LengthIs | md5.c:242-250 | the eight length bytes are the low 64 bits of the length in bits |
| Md5Spec.BlocksJoin | md5.c:66-171 | processing block after block does not depend on where calls are cut |
| Md5Vector.DigestOfAbc | md5.c:66-272 | the digest of "abc" is the one RFC 1321 gives in section A.5 |
| RadiusPassword.HidePassword | radius.c:263-288 | the password is padded and hidden in place as in section 5.2 of RFC 2865 |
| RadiusPassword.PasswordComesBack | radius.c:263-288 | opening recovers every C string, whatever the hash |
| RadiusPassword.PwDecode | radius.c:1406-1491 | too short, empty and implausible attributes are refused as in the code; a last block that reaches beyond the buffer is its own outcome; otherwise the opened password is left in the buffer, terminated |
| RadiusPassword.OpenBlock | radius.c:1479-1482 | shifted by three bytes in one buffer, no hidden byte is overwritten before it is used |
| RadiusPassword.OpenSeal | radius.c:1406-1491 | opening undoes sealing for any hash |
| RadiusPassword.TunnelPasswordComesBack | radius.c:1406-1491 | every password of 1 to 239 bytes encrypted as in section 3.5 of RFC 2868 is recovered, for any hash, salt and bytes behind it |
| RadiusPassword.XorIsBitwise | radius.c:280-284 | hiding and opening xor bit by bit |
| RadiusPassword.HiddenByTheStandard | radius.c:263-288 | block by block, as section 5.2 of RFC 2865 has it: with the hash of the secret and the authenticator, then of the secret and the hidden block before |
| RadiusPassword.TunnelByTheStandard | radius.c:1406-1491 | what is opened is hidden as in section 3.5 of RFC 2868: the salt behind the authenticator, then length, password and zeros |
| RadiusPassword.DecodeIs | radius.c:1406-1491 | which attributes say nothing, which reach beyond the buffer, and how many bytes of password the others have |

## Left out

- Sockets, epoll, netlink, tun, plugins, logging, the CLI, allocation failure and partial reads and writes.
- The clock is a parameter; hash functions other than MD5 are a parameter of `RadiusPassword`.
- L2TP: AVP parsing, hidden AVPs, duplicate SCCRQ lookup, window changes in mid-stream. The control queue is a
  sequence, popped and appended to, rather than nodes. Fewer than 2^15 messages wait at once.
- Rle.Compress: the remaining length is tested before a byte is read, where the code tests it after.
- Cluster: table entries are opaque blocks, so the free lists, the sanity check of received sessions and tunnel
  control queues are not modelled. The three routines for sessions, bundles and tunnels are one routine with a
  kind. Byte counters of `cluster_handle_bytes`, which are not queued as changes on purpose, are left out.
- Cluster.Node.ProcessHeartbeat: only heartbeats of version 9 are handled; those of versions 5 to 8, which the
  code converts, are ignored as those of any other version are.
- Cluster.Node.BecomeMaster: sessions that are not opened are not zeroed, idle timers and counters are not
  reset, and the highest id is that of the last entry that is not free, since an entry's content is opaque.
- ControlChannelRun.CrossedIff: an end on its last try, which the next timeout kills, is not covered in the
  direction that finds a run; the other direction holds for it too.
- ReplicationProgress.EveryIdIsCarried: it counts heartbeats with room at the start of the walk, each of which brings
  one id at least; how many more it brings depends on what the entries compress to (`ClusterWalk.WalkIsOne`).
- MultilinkBreak.InReachAfterwards: left-over fragments do not always pull the start back; the condition is not
  necessary. M and the start are taken to be less than 2^31 - 512 apart.
- Election: a table version does not wrap at 2^64.
- Cluster: a received update never carries the mark of an undefined entry; ids of 2^31 and more are refused;
  a packet that ends inside the 8 bytes before an element is reported as short. The change queue has room for
  MAX_CHANGES + 1 entries, as its overflow test comes after the append. A session is the largest structure
  and not smaller than the header arithmetic needs. The header is that of a 64-bit machine.
- BGP: the IPv6 lists and `bgp_send_update6` repeat the IPv4 difference; prefix lengths are at most 32; a
  message is taken by the peer as a whole.
- FilterTable: the slots of a filter's ring are sequences, so copying a packet is one step; `fsck_tbfs` is left
  out. What an id one past the table then does is not defined by the code, nor described here.
- Multilink: short sequence numbers on the receiving side, PPPoE framing, jitter, members that join late, and
  fragments shorter than their header.
- Reassembler.Fragmentation.CopyFrame: the frame is collected in a sequence of at most MAXETHER bytes.
- PppFrame: PPPoE tunnels.
- IpTrie: the union of pointer and session in a table entry is two sequences; pool indices stored as negative
  values are left out. Session ids are 16 bits.
- Md5: the words of a block are read before the first step instead of during it; the 64 lines of steps are
  eight groups of 8.
- RadiusPassword: with a buffer of 256 bytes an attribute of more than 242 has a last block that reaches beyond it;
  what the code then reads and writes there is not described.
- control.c, ll.c, dhcp6.c, icmp.c, pppoe.c and the negotiation of PPP options are not modelled.
