# BitterJohn: models and proofs

BitterJohn is a proxy server in Go. This project models the parts of it that keep hard state, in Dafny, and proves what
they promise:

- the AnyTLS multiplexer: many byte streams over one ordered connection, its handshake, its write deadlines, and the
  datagrams that travel inside a stream (`WireFormat`, `Wire`, `Mux`, `MuxFlow`, `MuxStays`, `MuxRuns`, `MuxReads`,
  `MuxCalls`, `MuxAnswers`, `MuxDatagrams`, `MuxCuts`, `Sessions`, `Streams`, `Negotiation`, `WriteDeadline`);
- the LRU cache over a hand-written doubly linked list (`Linklist`, `LruSpec`, `Lru`, `LruRuns`);
- the path-compressed trie and the index from an IP address to the MTU of its interface (`TrieSpec`, `TrieSearch`, `Trie`,
  `IpMtuSpec`, `MtuAnswers`, `IpMtu`);
- the passages of a server and everything derived from them: users by password hash or uuid, and each user's preference
  list over recycled arrays (`Diff`, `PassageStore`, `UserIndex`, `AnytlsPassages`, `JuicityPassages`, `LruListSpec`,
  `LruLists`, `UserContexts`, `ShadowsocksPassages`);
- the UDP NAT mapping and its single flight per client (`NatMapping`, `Nat`, `NatPackets`);
- the life of a server from its first listener to Close (`Lifecycle`).

`Refinements` ties the code of a session, a stream, the version exchange and the NAT mapping to the steps of the transition
systems. `Options`, `Bytes` and `Seqs` hold what the others share.

Code that works step by step is a class or a method here as well, proved against a function of the old state; what the
program promises is then proved about that function. Code that runs concurrently is a transition system whose steps are what
happens under one lock or one channel operation, and the promises are about every run of it, of any length, in any order.

## What holds only under a condition

Where the code does not keep a promise in every case, the case is stated as it is, with the exact condition.

- A trie search with a query shorter than a dictionary word can return a string that is no word: the trie built of ab and
  acde answers acd with a (`StrayOnTrie`). `Trie.Match` says exactly when the answer is right; it is whenever no edge on the
  query's way sticks out past its end, so whenever no word is longer than the query, as for IP addresses.
- Two Reads on one stream that overlap can lose a chunk: `LossyRun` is a run from the start that ends in the loss.
  `ConservedExactly` says that a run conserves every stream exactly when each chunk that becomes pending does so in place;
  Reads that do not overlap always do (`SoloIsOrderly`).
- A datagram of more than 65533 bytes takes two frames. When its write fails between them and another datagram follows, the
  reader takes the bytes of the next one for its end: `MisreadRun` is a run from the start in which it reads a datagram that was
  never sent. As long as nothing has gone out after a cut call, whatever datagram comes next is read right if and only if no
  call was cut (`SafeExactly`, `SafeInRun`); for one given next datagram `CutThenNext` has the exact condition. Datagrams that
  fit in one frame are never cut (`SmallNeverCut`).
- A UOT request whose domain is too long is refused only after its flag byte has gone out (`WriteUOTRequest`).
- A deadline set between a writer's look at its deadline and its write is not in force during that write (`StaleDeadline`).
  `CurrentKept` says exactly which steps leave the deadline in force current, `RunCurrent` which runs.
- A sync can lose a passage that was sent again, when a passage that goes has the same In argument
  (`SharedInDiverges`); it can take the manager along as well (`ManagerTakenAlong`). A second manager in the list sent is kept
  as a passage that nobody sent (`SecondManagerStays`). `SyncConverges` and `SyncKeepsManager` say exactly when.
- The juicity index by uuid loses a passage that stays exactly when it shares its uuid with one that goes
  (`SharedUuidLoses`, `JuicityPassages.Server.RemovePassages`); after a sync, exactly when such a uuid is not that of a new
  passage either (`JuicityPassages.Server.SyncPassages`).
- A UOT request is encoded again to the bytes it came from exactly when its flag byte was 0 or 1 (`RequestReencodes`).

## Model

| member | source | states |
|---|---|---|
| WireFormat.FrameRoundTrip | server/anytls/frame.go:34-69 | A written frame at the front of any bytes is read back, and the rest is left. |
| WireFormat.FrameReencodes | server/anytls/frame.go:34-69 | A frame that was read encodes to the very bytes it was read from. |
| WireFormat.CutFrameIsNone | server/anytls/frame.go:34-51 | A frame of which some bytes are missing is not read. |
| WireFormat.FramesRoundTrip | server/anytls/frame.go:34-69 | Repeated reading recovers any sequence of written frames, up to a last one of which only a part has arrived. |
| WireFormat.FrameBytes | server/anytls/frame.go:53-61 | Which byte of a frame is which: command, stream id and length with the highest byte first, data. |
| Wire.ReadFull | server/anytls/frame.go:36-48 | Exactly n bytes, however the connection cuts them; a stream that ends sooner yields none. |
| Wire.ReadFrame | server/anytls/frame.go:34-51 | The loop over the header and the data reads what the parse of the bytes says, and consumes just that. |
| Wire.WriteFrame | server/anytls/frame.go:53-69 | As much of the encoded frame goes out as the connection has room for, and the call succeeds exactly when that is all of it; one that is too large is refused with nothing sent. |
| WireFormat.AddrRoundTrip | server/anytls/addr.go:27-94 | An address in the form of section 5 of RFC 1928 is read back, and the rest is left. |
| WireFormat.AddrReencodes | server/anytls/addr.go:27-94 | An address that was read encodes to the bytes it was read from. |
| WireFormat.AddrBytes | server/anytls/addr.go:27-53 | Which byte of an address is which: type 1, 3 or 4, the length of a domain, the host, the port with its high byte first. |
| WireFormat.EncodeAddr | server/anytls/addr.go:42-45 | When writing fails: only a domain of more than 255 bytes cannot be written. |
| Wire.ReadSocksAddr | server/anytls/addr.go:55-94 | Reading by address type, length and port agrees with the parse of the bytes, the error cases included. |
| Wire.WriteSocksAddr | server/anytls/addr.go:27-53 | As much of the address goes out as there is room for, success meaning all of it; a domain that is too long is refused with nothing sent. |
| WireFormat.RequestRoundTrip | server/anytls/uot.go:25-49 | A UOT request is read back, and the rest is left. |
| WireFormat.RequestReencodes | server/anytls/uot.go:25-49 | A request that was read encodes to its own bytes exactly when the flag byte was 0 or 1. |
| WireFormat.RequestBytes | server/anytls/uot.go:25-34 | The flag byte is 1 for a connection and 0 otherwise, and the address follows. |
| Wire.ReadUOTRequest | server/anytls/uot.go:36-49 | Reading the flag and the address agrees with the parse of the bytes. |
| Wire.WriteUOTRequest | server/anytls/uot.go:25-34 | As much of the request goes out as there is room for, success meaning all of it; one that cannot be written leaves its flag byte on the stream. |
| WireFormat.PayloadRoundTrip | server/anytls/uot.go:51-72 | A datagram is read back from the stream, and the rest is left. |
| WireFormat.PayloadsPrefix | server/anytls/uot.go:51-72 | From any prefix of the bytes of some datagrams, reading takes exactly those that lie wholly in it. |
| WireFormat.PayloadBytes | server/anytls/uot.go:51-60 | The length of a datagram has its high byte first. |
| Wire.ReadUOTPayload | server/anytls/uot.go:62-72 | A datagram into a buffer: the datagram, or short buffer with its length consumed and its bytes left, or the end. |
| Wire.RelayDatagrams | server/anytls/uot.go:184-197 | The relay loop with its 65535-byte buffer hands on exactly the datagrams that the bytes hold. |
| Wire.WriteUOTPayload | server/anytls/uot.go:51-60 | A datagram of more than 65535 bytes is refused before anything goes out; of any other, as much as there is room for, success meaning all of it. |
| Wire.RelayPackets | server/anytls/uot.go:199-212 | The other relay loop puts the datagrams on the stream in order, as much of their bytes as there is room for, and fails exactly when that is not all. |
| Streams.ChunksJoin | server/anytls/stream.go:86-101 | The pieces of a Write join to its argument; each has 1 to 65535 bytes, and there are no more than needed. |
| Streams.Stream.Write | server/anytls/stream.go:81-102 | Past the deadline nothing is sent and the call fails. Before it, the call succeeds exactly when the connection has room for all the pieces; one that fails has sent, in order, as many full frames as there was room for, and counts their bytes. |
| Streams.WriteCarries | server/anytls/stream.go:81-102 | The frames of a Write add its bytes to its own stream's traffic on the wire and nothing to any other's. |
| Streams.Stream.Read | server/anytls/stream.go:40-79 | However the rounds of Read go, and whatever chunks come meanwhile, what it returns and what is unread afterwards are what was unread and what has come, in order. It ends at the close only of a closed stream, by time only when its deadline has passed, at once when it has before; it waits on only when it has met no bytes, no close and no deadline. |
| Streams.RoundsKeep | server/anytls/stream.go:40-79 | No sequence of rounds loses or moves a byte of what has reached the stream. |
| MuxSteps.RoundIsSteps | server/anytls/stream.go:40-79 | Each round of a Read is steps of the model: Pull and Store, or Copy, or one round of the receive loop. |
| MuxSteps.ReadIsSteps | server/anytls/stream.go:40-79 | A whole Read, while no chunk arrives, is steps of the model. |
| Sessions.Session.Dispatch | server/anytls/session.go:194-254 | The switch of the receive loop does what one step of the multiplexer's model does, and writes the same frames; and, by the number of each command, what becomes of the streams, the version and the answers, whichever of room and close a payload meets first. |
| Sessions.Session.RecvLoop | server/anytls/session.go:185-257 | The loop over the bytes of the connection, in whatever pieces they come, takes the frames they hold in order and then closes the session, which closes and forgets every stream it knows and changes nothing else of them; or it is left waiting at the full queue of an open stream. |
| Sessions.BlockedWhenFull | server/anytls/stream.go:128-138 | Only the full queue of an open stream blocks the loop; one of a closed stream drops its payload. |
| MuxSteps.LoopIsSteps | server/anytls/session.go:185-257 | What the loop makes of the frames on its wire is that many Receive steps of the model: same session, frames off one wire, answers on the other. |
| MuxFlow.StoreKeeps | server/anytls/stream.go:64-69 | Making a chunk pending keeps a stream's bytes and their order exactly when nothing was pending and it was first in hand. |
| MuxFlow.PullKeeps | server/anytls/stream.go:64-66 | Taking a chunk from the queue loses nothing. |
| MuxFlow.CopyKeeps | server/anytls/stream.go:43-47 | Returning part of what is pending loses nothing. |
| MuxFlow.PutOne | server/anytls/session.go:122-126 | What a frame at the back of the wire adds to each stream's traffic, behind whatever is there. |
| MuxFlow.PayloadFlow | server/anytls/session.go:197-201 | Taking a payload moves it from the wire to its stream's queue, and leaves every other stream alone. |
| MuxFlow.AcceptFlow | server/anytls/session.go:202-216 | A stream that is made on its SYN starts with all that was promised still on the wire. |
| MuxFlow.FinFlow | server/anytls/session.go:224-228 | With its FIN, all that was promised on a stream has arrived, unless this end has closed it itself. |
| MuxFlow.ReceiveFlows | server/anytls/session.go:185-257 | One round of a receive loop keeps both directions of every stream in balance. |
| MuxRuns.StepInv | server/anytls/session.go:57-257 | Every step of either session keeps the whole invariant. |
| MuxRuns.RunInv | server/anytls/session.go:57-257 | Every state of every run, of any number of streams, readers and writers in any order, satisfies the invariant. |
| MuxRuns.Conservation | server/anytls/stream.go:40-138 | As long as each chunk becomes pending in place: until an end closes a stream itself, bytes returned, pending, in hand and queued, then those on the wire, are exactly what the peer wrote before its FIN; with the FIN taken, all of it has arrived. |
| MuxReads.ConservedExactly | server/anytls/stream.go:40-138 | A run conserves every stream in every state if and only if each chunk that becomes pending, on a stream that still counts, does so in place. |
| MuxReads.StoreBreaks | server/anytls/stream.go:64-69 | A chunk that becomes pending out of place breaks the balance of a stream at once. |
| MuxRuns.ReadsArePrefix | server/anytls/stream.go:40-102 | As long as each chunk becomes pending in place: what Reads have returned is a prefix of what the peer wrote on that stream, until the reader closes it. |
| MuxRuns.QueueBounded | server/anytls/stream.go:34-34 | No stream ever holds more than 32 chunks. |
| MuxRuns.ClosedSession | server/anytls/session.go:81-101 | In every run, a closed session knows no stream any more and has none open. |
| MuxRuns.OneReaderRun | server/anytls/stream.go:40-79 | As long as Reads do not overlap on a stream, at most one chunk is in hand and nothing is pending beside it. |
| MuxRuns.SoloIsOrderly | server/anytls/stream.go:40-79 | In runs whose Reads do not overlap on a stream every chunk becomes pending in place. |
| MuxReads.OverlapLoses | server/anytls/stream.go:64-69 | When two Reads overlap, the older of two chunks is lost. |
| MuxReads.OverlapHappens | server/anytls/stream.go:64-69 | From any state with two queued chunks the session lets that happen. |
| MuxExamples.LossyRun | server/anytls/stream.go:40-79 | A run from the start in which the client writes two chunks and the server, which has not closed the stream, reads only the second. |
| MuxRuns.AnnouncedOnce | server/anytls/session.go:103-120 | The server never meets a stream before the settings; each stream announced was accepted once, or its one SYN is on the wire. |
| MuxRuns.PayloadIsKnown | server/anytls/session.go:197-201 | A payload that arrives belongs to a stream already accepted, and is dropped as unknown only if that stream was closed. |
| MuxRuns.DialAnswered | server/anytls/dialer.go:152-159 | A dial that went by version 2 returns only after an empty SYNACK for the same stream, which the server has accepted. |
| MuxCalls.OpenIsTwoSteps | server/anytls/session.go:103-120 | In any state of any run: a stream that is opened gets an id that no stream had, is there and new, and its SYN is on the wire. |
| MuxCalls.WriteIsOneFrame | server/anytls/session.go:122-130 | A frame of a Write goes to the back of the wire under its stream id and counts as written. |
| MuxCalls.WriteArrives | server/anytls/session.go:194-201 | On an empty wire a frame that is written can be received by an open peer with room for it, and is then the last chunk of its stream's queue. |
| MuxCalls.CloseIsThreeSteps | server/anytls/stream.go:104-115 | The steps of a Close can be taken in turn; after them the stream is closed and forgotten, its FIN is on the wire, its bytes are what they were, and no step of a second Close can be taken. |
| MuxCalls.CloseAfterShut | server/anytls/session.go:175-183 | A Close that finds its session closed sends no FIN. |
| MuxCalls.ShutClosesAll | server/anytls/session.go:81-101 | Closing a session closes and forgets each stream it knows and changes nothing else. |
| MuxCalls.DialIsTwoSteps | server/anytls/dialer.go:152-159 | A dial settles on the version on record, or 1, and from version 2 on returns its stream only after an empty answer. |
| MuxAnswers.RunAgreed | server/anytls/session.go:202-243 | With the settings texts read as version 2, every run keeps the versions, the texts and the answers in agreement. |
| MuxAnswers.VersionsAgree | server/anytls/session.go:229-243 | The server speaks version 2 once it has the settings; the client speaks it only if the server does, and no dial goes by a version the server does not speak. |
| MuxAnswers.EveryStreamAnswered | server/anytls/session.go:202-223 | The SYNACK of every accepted stream has come or is on its way, until the client gives the stream up. |
| MuxDatagrams.DatagramsArePrefix | server/anytls/uot.go:51-120 | In every run of the sessions with calls of writePayload under its lock in which each chunk becomes pending in place, however frames and Reads cut the stream: the datagrams readable from what was delivered are the first of those written, as long as no call after one that was cut between its frames has put anything out. |
| MuxDatagrams.SmallNeverCut | server/anytls/uot.go:51-60 | Only a datagram of more than 65533 bytes can be cut. |
| MuxCuts.CutReads | server/anytls/uot.go:51-72 | After a datagram that lost its second frame, the next bytes of the stream are read as its end. |
| MuxCuts.CutThenNext | server/anytls/uot.go:51-72 | A cut datagram and the one behind it are read as sent, in order, exactly when the length of the next one ends as the first does and the rest of its bytes hold no datagram. |
| MuxCuts.CutMisread | server/anytls/uot.go:51-72 | Two datagrams of which, the first cut, one is read that was never sent. |
| MuxCuts.SafeExactly | server/anytls/uot.go:51-120 | For any calls of which none has put anything out after a cut one: every next datagram is read right, after all the others, if and only if no call was cut. |
| MuxCuts.SafeInRun | server/anytls/uot.go:51-120 | The same in every state of every run, for what the stream has put on the wire. |
| MuxExamples.MisreadRun | server/anytls/uot.go:51-120 | A run from the start, every chunk pending in place, in which the server reads a datagram that was never sent. |
| Negotiation.Session.CompletePeerVersion | server/anytls/session.go:293-302 | The first version other than 0 stays; any announcement ends the wait and clears a timeout. |
| Negotiation.Session.ReceiveServerSettings | server/anytls/session.go:234-241 | The version line is cut to one byte; one that is no number counts as 1. |
| Negotiation.Session.ServerSettingsState | server/anytls/session.go:304-317 | A dial waits exactly when nothing was announced and no timeout is on record; otherwise it goes by a version other than 0. |
| Negotiation.Session.MarkServerSettingsTimedOut | server/anytls/session.go:319-325 | A timeout leaves its mark exactly while nothing was announced. |
| Negotiation.Session.AfterWait | server/anytls/session.go:280-291 | What a dial reads after its wait: never 0, and 1 unless something was announced. |
| Negotiation.RunExact | server/anytls/session.go:271-325 | After any announcements and timeouts: the version is the first one announced that is not 0; done says that one came; timed out says that none came and a timer ran out. |
| Negotiation.TimedOutMeansSilent | server/anytls/session.go:293-325 | Timed out implies not done and no version. |
| Negotiation.VersionLatches | server/anytls/session.go:293-302 | A version other than 0 never changes again. |
| Negotiation.DialVersion | server/anytls/session.go:271-317 | No dial goes by 0; each goes by the first version announced, or 1. |
| Negotiation.LateSettings | server/anytls/session.go:293-302 | Settings that come after a timeout still move later dials from 1 to the announced version. |
| NegotiationSteps.SettingsAgree | server/anytls/session.go:234-241 | The exchange and the multiplexer have the same version after any announcements and timeouts, and a dial goes by the same one. |
| NegotiationSteps.DecideAgrees | server/anytls/session.go:271-291 | A dial of the multiplexer's model goes by what the exchange answers. |
| WriteDeadline.Session.BeginStreamWrite | server/anytls/session.go:144-152 | A stream's write puts its name and deadline on the connection; without a stream that writes there is no deadline. |
| WriteDeadline.Session.EndStreamWrite | server/anytls/session.go:154-164 | Only the stream that is writing clears the deadline, and afterwards it is not writing. |
| WriteDeadline.Session.UpdateActiveWriteDeadline | server/anytls/session.go:166-173 | Only the stream that is writing moves the deadline. |
| WriteDeadline.StepInv | server/anytls/session.go:122-173 | Every step of writers, control frames and SetWriteDeadline keeps the invariant. |
| WriteDeadline.RunInv | server/anytls/session.go:122-173 | It holds in every run. |
| WriteDeadline.DeadlineIsolated | server/anytls/session.go:122-173 | The connection has a deadline only while a stream writes under the lock, and then one that this stream was given; never under a control frame. |
| WriteDeadline.PlainWrite | server/anytls/session.go:128-164 | A write that nothing interferes with is under its own stream's deadline and leaves none behind. |
| WriteDeadline.PlainUpdate | server/anytls/stream.go:149-157 | A new deadline is the stream's own, and in force if the stream is writing; no other stream's changes. |
| WriteDeadline.CurrentKept | server/anytls/stream.go:149-157 | Exactly which steps leave the deadline in force the stream's own or about to become it. |
| WriteDeadline.RunCurrent | server/anytls/session.go:122-173 | The deadline in force is current in every state of a run exactly when each of these steps in it was timely. |
| WriteDeadline.StaleDeadline | server/anytls/session.go:132-139 | A run in which a deadline that was set is not in force during a later write. |
| Linklist.Linklist.InsertAfter | infra/linklist/linklist.go:62-73 | The new node comes directly behind its prior, or nothing happens at the tail. |
| Linklist.Linklist.PushFront | infra/linklist/linklist.go:75-77 | The new node comes before all others. |
| Linklist.Linklist.PushBack | infra/linklist/linklist.go:79-81 | The new node comes behind all others. |
| Linklist.Linklist.Promote | infra/linklist/linklist.go:83-93 | The node moves to the front; the others keep their order. |
| Linklist.Linklist.Demote | infra/linklist/linklist.go:95-105 | The node moves to the back; the others keep their order. |
| Linklist.Linklist.Remove | infra/linklist/linklist.go:107-113 | Exactly this node goes; a sentinel stays. |
| Linklist.LinksInverse | infra/linklist/linklist.go:4-32 | prior and next are inverse to each other between the sentinels. |
| Linklist.ChainedPoints | infra/linklist/linklist.go:4-32 | The chain seen node by node. |
| Lru.Lru.Get | infra/lru/lru.go:51-75 | A value cached under this very key, if there is one, and nothing otherwise; its entry moves to the front and gets the time. |
| Lru.Lru.GetOrInsert | infra/lru/lru.go:40-49 | A value cached under this very key, or else the new one, which is then cached and others evicted; list and both maps stay in agreement. |
| Lru.Lru.Insert | infra/lru/lru.go:83-121 | An absent key goes to the front and the strategy trims the back; what was removed is reported. |
| Lru.Lru.TrimLength | infra/lru/lru.go:92-100 | FixedLength drops the last entry when there are too many. |
| Lru.Lru.TrimStale | infra/lru/lru.go:101-118 | FixedTimeout pops from the back up to the first fresh entry. |
| Lru.RemovedAt | infra/lru/lru.go:92-118 | What is reported as removed: every entry that was dropped, with its time, the last one first. |
| LruRuns.RunSorted | infra/lru/lru.go:66-91 | With a clock that never goes back, times of last use never rise from front to back. |
| LruRuns.PopStaleExact | infra/lru/lru.go:101-118 | On such a list, stopping at the first fresh entry removes all and only the stale ones. |
| LruRuns.RunKeysDistinct | infra/lru/lru.go:40-121 | No key is ever cached twice. |
| LruRuns.HitsAnswer | infra/lru/lru.go:40-75 | In every run, under both strategies: a cached key answers with the value last inserted under it, no other key answers. |
| LruRuns.TimeoutRefinesMap | infra/lru/lru.go:101-118 | A FixedTimeout cache is a map that forgets every entry of age at least the limit. |
| LruRuns.TimeoutAnswers | infra/lru/lru.go:66-118 | A FixedTimeout cache answers for each key what that map holds. |
| LruRuns.RunBounded | infra/lru/lru.go:92-100 | A FixedLength cache never holds more than its limit, or anything if that is negative. |
| LruRuns.LengthKeepsMostRecent | infra/lru/lru.go:66-100 | A FixedLength cache holds exactly the most recently used keys, in that order. |
| LruRuns.LengthAnswers | infra/lru/lru.go:66-100 | A FixedLength cache answers for exactly the most recently used keys, each with the value last inserted. |
| TrieSpec.LongestIsLongest | infra/trie/trie.go:92-128 | The reference search: the longest dictionary word that is a prefix of the query. |
| TrieSpec.ChainCovers | infra/trie/trie.go:63-81 | Below a path without branches and ends, everything lies at or below the next branch or end. |
| TrieSearch.ShortWordsFit | infra/trie/trie.go:106-106 | With no word longer than the query, no compressed edge sticks out past its end. |
| TrieSearch.EdgeAnswer | infra/trie/trie.go:103-114 | Skipping along a compressed edge misses no word. |
| TrieSearch.WalkExact | infra/trie/trie.go:92-128 | From any stop on the query, the search is right exactly when it does not stray. |
| TrieSearch.SearchExact | infra/trie/trie.go:92-128 | The whole search is right exactly when it does not stray; it does not when no edge on the query's way sticks out past its end, so not when no word is longer than the query. |
| TrieSearch.StrayAnswer | infra/trie/trie.go:103-126 | The words ab and acde answer the query acd with a. |
| TrieSearch.OneSymbolIn | infra/trie/trie.go:103-126 | A query that ends one symbol into a longer edge is answered right exactly when the edge leads to no word, or starts where the answer so far ends. |
| TrieSearch.SamePaths | infra/trie/trie.go:31-56 | The words of a trie fix its nodes. |
| Trie.Trie.Add | infra/trie/trie.go:36-52 | One word is added to the uncompressed trie. |
| Trie.Trie.MakeJumpAt | infra/trie/trie.go:63-81 | Compressing below an edge makes every edge there lead to its next branch or word end, and touches nothing else. |
| Trie.Trie.MakeJump | infra/trie/trie.go:83-90 | The whole trie is compressed; its words stay what they were. |
| Trie.Trie.New | infra/trie/trie.go:31-56 | The compressed trie of exactly the dictionary's non-empty words. |
| Trie.StrayOnTrie | infra/trie/trie.go:31-128 | The trie built of ab and acde answers the query acd with a. |
| Trie.Trie.Match | infra/trie/trie.go:92-128 | The loop on the compressed nodes returns the longest matching word exactly when it does not stray; always when no edge on its way sticks out past the query, or no word is longer than the query. |
| IpMtu.PaddedBits | infra/ip_mtu_trie/ip_mtu_trie.go:97-98 | Padding the binary form of a byte gives its eight bits. |
| IpMtu.IPToBin | infra/ip_mtu_trie/ip_mtu_trie.go:89-101 | The bits of an address, IPv4 in 32 and all others in 128. |
| IpMtuSpec.InNetIsPrefix | infra/ip_mtu_trie/ip_mtu_trie.go:67-69 | An address is in a network exactly when the network's bit string is a prefix of the address's. |
| IpMtuSpec.LookupIsScan | infra/ip_mtu_trie/ip_mtu_trie.go:31-51 | Longest-prefix search and a look in the table find what a scan of all networks finds, the last one on equal prefixes, /0 included. |
| MtuAnswers.MappedIsV4 | infra/ip_mtu_trie/ip_mtu_trie.go:89-101 | Sixteen bytes that hold an IPv4 address have the digits of its four. |
| MtuAnswers.BinAt | infra/ip_mtu_trie/ip_mtu_trie.go:89-101 | Which digit of an address is which bit of which byte. |
| MtuAnswers.NetsAre | infra/ip_mtu_trie/ip_mtu_trie.go:53-87 | The networks are exactly those of the addresses of the interfaces. |
| MtuAnswers.NetsInOrder | infra/ip_mtu_trie/ip_mtu_trie.go:61-66 | They come in the order of the interfaces. |
| MtuAnswers.AddrNetsInOrder | infra/ip_mtu_trie/ip_mtu_trie.go:61-66 | And, of one interface, in the order of its addresses. |
| MtuAnswers.ScanIsBest | infra/ip_mtu_trie/ip_mtu_trie.go:31-51 | The scan finds a network that holds the address if there is one; none that does has more fixed digits, and none behind it as many. |
| IpMtu.IPMTUTrie.FromInterfaces | infra/ip_mtu_trie/ip_mtu_trie.go:53-87 | The tries and tables of the interfaces' networks. |
| IpMtu.IPMTUTrie.GetMTU | infra/ip_mtu_trie/ip_mtu_trie.go:31-51 | The smaller of 65535 and the MTU of the most specific network that holds the address. |
| Diff.Change | common/common.go:74-103 | The four loops keep, in order, what the other list does not have; made to the first list they give exactly the keys of the second. |
| Diff.ChangeConverges | common/common.go:72-103 | Made to the first list, the changes give exactly the keys of the second. |
| PassageStore.LocalizePassages | server/shadowsocks/server.go:306-327 | Each manager gets its generated password, with the managers' cipher on shadowsocks and their uuid on juicity; of the others at most an empty shadowsocks cipher changes; all else is kept, and exactly the first manager stays one. |
| PassageStore.LocalizedKeeps | server/anytls/server.go:280-298 | The same of each passage by its position, on each kind of server. |
| PassageStore.AddedMember | server/anytls/server.go:234-246 | What is stored after adding: the passages sent, as they have to be kept, and those of before but for a manager that is replaced. |
| PassageStore.AddedLast | server/anytls/server.go:234-246 | The passages sent come behind those of before, in the order sent. |
| PassageStore.RemovedMember | server/anytls/server.go:248-266 | What is stored after removing: all that has no In argument of a passage sent, as it would be kept; a manager sent counts only when it is meant to. |
| PassageStore.OneManagerKept | server/shadowsocks/server.go:329-362 | Adding and removing keep at most one manager. |
| PassageStore.DoomedIsStale | server/shadowsocks/server.go:345-362 | A sync takes out exactly the In arguments of non-managers that were not sent again. |
| PassageStore.SyncedMember | server/sync.go:12-28 | What is in the store after a sync, whatever is sent. |
| PassageStore.SyncKeepsManager | server/sync.go:12-28 | The first new manager sent takes the place of the old, with its generated password; without one, the manager stays as it is exactly when no passage goes with its In argument. |
| PassageStore.SyncConverges | server/sync.go:12-28 | From any state, for any list: the non-managers have exactly the keys of the non-managers sent if and only if every passage sent survives and managers leave nothing extra, which a list without managers never does. |
| PassageStore.DistinctInsConverge | server/sync.go:12-28 | Distinct In arguments, not shared with the manager, and at most one manager sent, under a new key, are enough; without one the manager stays. |
| PassageStore.SharedInDiverges | server/sync.go:14-22 | Two stored passages with one In argument: sending one of them again loses both. |
| PassageStore.SecondManagerStays | server/shadowsocks/server.go:306-327 | Of two managers sent, the second is kept as a passage that was not sent. |
| PassageStore.ManagerTakenAlong | server/sync.go:14-22 | A manager and a passage with one In argument: when the passage goes, so does the manager. |
| PassageStore.SyncSettled | server/sync.go:12-28 | A sync keeps at most one manager, and every passage as the server keeps it. |
| UserIndex.UsersExact | server/anytls/server.go:308-313 | The index finds a passage exactly for the ids there are, and the last one for each. |
| UserIndex.UsersAfterRemoval | server/juicity/server.go:306-313 | Removing ids with their passages leaves the right index exactly when nothing that stays shares an id with what goes. |
| UserIndex.UsersAfterChange | server/juicity/server.go:298-313 | Removing ids and then adding others leaves the right index exactly when every id shared between what stays and what goes is added again. |
| AnytlsPassages.Server.RemovePassagesFuncLocked | server/anytls/server.go:300-306 | The backward loop takes out exactly what is meant, and keeps the order. |
| AnytlsPassages.Server.AddPassages | server/anytls/server.go:234-246 | A manager met in the loop replaces the stored one; users agree with the list: every passage sent is found by its password, a manager by its generated one. |
| AnytlsPassages.Server.RemovePassages | server/anytls/server.go:248-266 | What has one of the In arguments goes; users agree with the list. |
| AnytlsPassages.Server.SyncPassages | server/sync.go:12-28 | The list after a sync, and when it converges; users agree with it. |
| AnytlsPassages.Server.Auth | server/anytls/server.go:354-360 | A key is accepted exactly when some passage has it, and stands for the last such passage. |
| JuicityPassages.Server.AddPassages | server/juicity/server.go:251-304 | The index after adding; it agrees exactly when every uuid that the old manager shares with a passage that stays is added again, so always when managers go by the managers' uuid. |
| JuicityPassages.Server.RemovePassages | server/juicity/server.go:267-313 | The index stays in agreement exactly when no passage that stays shares a uuid with one that goes. |
| JuicityPassages.SharedUuidLoses | server/juicity/server.go:306-313 | Two passages with one uuid: when one is removed, the other stays without an entry in the index. |
| JuicityPassages.Server.SyncPassages | server/juicity/server.go:176-178 | The list after a sync; the index agrees with it exactly when every uuid that a passage staying shares with one going is that of a new passage. |
| LruListSpec.FirstLighterAt | infra/lrulist/lrulist.go:103-109 | The position for new nodes: all before it are at least as heavy, the one at it is lighter. |
| LruListSpec.Heavier | infra/lrulist/lrulist.go:87-101 | A weight is one more, and 0 after the largest of 32 bits. |
| LruListSpec.SplicedAt | infra/lrulist/lrulist.go:93-135 | What stands where after an insertion. |
| LruLists.GrowingPool.Get | infra/lrulist/growing_pool.go:24-34 | An array of the pool's size that is not at hand any more; growing forgets the old arrays. |
| LruLists.GrowingPool.Put | infra/lrulist/growing_pool.go:36-42 | Only an array of the pool's size is kept. |
| LruLists.LruList.GetListCopy | infra/lrulist/lrulist.go:74-80 | A copy of the list in an array that is neither the list's, nor at hand, nor in use. |
| LruLists.LruList.DestroyListCopy | infra/lrulist/lrulist.go:83-85 | The copy goes back; the list is untouched. |
| LruLists.LruList.Insert | infra/lrulist/lrulist.go:93-135 | Both branches give what was before position k, the new nodes, and the rest; copies in use keep their contents. |
| LruLists.ShiftIn | infra/lrulist/lrulist.go:112-120 | Shifting in place. |
| LruLists.CopyAround | infra/lrulist/lrulist.go:121-129 | Copying into a larger array gives the same list. |
| LruLists.LruList.Remove | infra/lrulist/lrulist.go:138-155 | Exactly the first occurrence of the node goes; the rest keep their order. |
| UserContexts.Auth | server/shadowsocks/user_context.go:13-26 | The first passage in the list's order that the probe accepts, and only the node at its position is promoted. |
| UserContexts.RemoveWhere | server/shadowsocks/server.go:391-400 | The loop over a copy takes out every node whose passage goes, and no other. |
| ShadowsocksPassages.Server.AddPassages | server/shadowsocks/server.go:329-382 | The list and every user's list after adding. |
| ShadowsocksPassages.Server.RemovePassages | server/shadowsocks/server.go:345-401 | The list and every user's list after removing. |
| ShadowsocksPassages.Server.SyncPassages | server/sync.go:12-28 | The list and every user's list after a sync. |
| ShadowsocksPassages.Server.Auth | server/shadowsocks/user_context.go:13-26 | The first passage in the order of the user's list that the probe accepts; its slot alone becomes one heavier. |
| ShadowsocksPassages.Server.GetUserContextOrInsert | server/shadowsocks/user_context.go:61-71 | A user without a list gets one of all passages at weight 0, one with a list keeps it; of the others' lists none changes, and only the evicted ones go. |
| SlotLists.NewWithList | server/shadowsocks/user_context.go:43-59 | The array list of a new user is the list that the server's model has. |
| SlotLists.Insert | server/shadowsocks/server.go:373-382 | Adding passages to an array list is adding them to the list it stands for. |
| SlotLists.RemoveWhere | server/shadowsocks/server.go:391-400 | Removing passages from an array list is removing them from the list it stands for. |
| SlotLists.Auth | server/shadowsocks/user_context.go:13-26 | Searching an array list finds what searching the list it stands for finds, and promotes the same slot. |
| ShadowsocksPassages.SyncAgrees | server/sync.go:12-28 | The shadowsocks store follows the same sync as the others. |
| ShadowsocksPassages.RunAgrees | server/shadowsocks/server.go:373-401 | After any run every user's list holds exactly the store's passages, each as often. |
| ShadowsocksPassages.RunSettled | server/shadowsocks/server.go:306-371 | After any run there is at most one manager, and every passage is as the server keeps it. |
| ShadowsocksPassages.RunSyncs | server/sync.go:12-28 | In any run, a sync of any list converges exactly when every passage sent survives and managers leave nothing extra, and keeps the manager, unless a new one is sent, exactly when no passage goes with its In argument. |
| ShadowsocksPassages.AuthMatchesStore | server/shadowsocks/user_context.go:13-26 | Searching a user's list succeeds exactly when searching the store does, and finds the same passage when only one is accepted. |
| NatMapping.UDPConnMapping.Insert | server/shadowsocks/udp_conn.go:47-51 | A new entry takes the key; its channel is open exactly when it has no socket. |
| NatMapping.UDPConnMapping.Remove | server/shadowsocks/udp_conn.go:53-65 | An entry being established has its channel closed, any other its socket; the key is gone. |
| NatSteps.Remove | server/shadowsocks/udp_conn.go:53-65 | A removal on the mapping as an object is the removal that the model of handlers and relays makes. |
| NatSteps.Insert | server/shadowsocks/udp_conn.go:47-51 | An insertion on the object is the insertion of the model. |
| Nat.StepInv | server/shadowsocks/udp.go:84-138 | Every step of a handler or a relay keeps the invariant. |
| Nat.RunInv | server/shadowsocks/udp.go:84-138 | It holds in every run of any number of handlers and relays. |
| Nat.SingleFlight | server/shadowsocks/udp.go:84-127 | Every mapped address has exactly one owner: a dialling handler, a relay, or an entry left behind; and each owner's entry is the mapped one. |
| Nat.ChannelsClosedOnce | server/shadowsocks/udp_conn.go:15-65 | A mapped entry has no socket exactly while its channel is open; no channel is closed twice. |
| Nat.SocketsClosedByOwnRelay | server/shadowsocks/udp.go:119-127 | A socket is closed exactly when its relay has ended, once, and by that relay's own removal. |
| NatPackets.StepOutcome | server/shadowsocks/udp.go:84-138 | What each step of a handler or relay leaves behind: who waits, who owns the address, which entries have ended, which sockets are closed. |
| NatPackets.FirstPacket | server/shadowsocks/udp.go:84-127 | The first packet of a client, left to itself, is done with the socket it dials, the address mapped and the relay running. |
| NatPackets.NextPacket | server/shadowsocks/udp.go:128-138 | Every later packet, while the relay runs, ends with the mapped socket and changes nothing else. |
| Nat.WhatHandlersGet | server/shadowsocks/udp.go:84-138 | In every run: a handler done with a socket has it from an entry for its own address, and it was dialled; one done without made an entry itself and gave up or failed; whoever made an entry with a socket has that socket. |
| Nat.WaitersGetTheSocket | server/shadowsocks/udp.go:128-137 | A handler that waits on an entry with a socket can go on at once, and however the run continues it ends with exactly that socket. |
| Nat.WaitersLookAgain | server/shadowsocks/udp.go:128-138 | A handler that waits for an entry without a socket keeps waiting for it until it wakes, and when it wakes it looks the address up again; that it wakes is not claimed, and on an entry left behind it does not. |
| Lifecycle.Server.SetListener | server/anytls/server.go:566-574 | A closed server installs no listener, and stays without one. |
| Lifecycle.Server.TrackConn | server/anytls/server.go:584-595 | A connection is tracked exactly when the server is not closed; a closed server tracks nothing. |
| Lifecycle.Server.UntrackConn | server/anytls/server.go:597-601 | Exactly this connection is tracked no longer. |
| Lifecycle.Server.BeginClose | server/anytls/server.go:170-185 | Close takes the listener and all tracked connections with it, and a second one finds none. |
| Lifecycle.StepInv | server/anytls/server.go:135-205 | Every step of serve loops, handlers and Close keeps the invariant. |
| Lifecycle.RunInv | server/anytls/server.go:135-205 | It holds in every run. |
| Lifecycle.EveryConnAccounted | server/anytls/server.go:135-205 | Each accepted connection is pending, tracked, about to be closed, or closed; once the server is closed, nothing is tracked and no listener is installed; until then a connection is tracked exactly while its handler has yet to untrack it. |
| Lifecycle.ShutdownLeavesNothingOpen | server/anytls/server.go:167-205 | When Close and pending accepts have finished, every accepted connection is closed. |
| Lifecycle.ShutdownProgress | server/anytls/server.go:149-205 | After Close, every closing that is made leaves one fewer due, and no other step brings one back. |
| Lifecycle.SomeStepIsDue | server/anytls/server.go:149-205 | While closings are due, one can be made. |

## Left out

- TLS, QUIC, gRPC, sockets, DNS, certificates, dialling, HTTP registration, configuration and logging: a connection is a
  reliable ordered queue, read and written in pieces.
- Ciphers, salts, replay filters, SHA-256 and random passwords: an authentication probe is any function, a digest is any
  function, random passwords are a parameter, and hashes of arguments are compared as the arguments themselves.
- The text of addresses and settings: addresses are IPv4, IPv6 or a domain, and reading a settings text is a parameter of the
  multiplexer and of the negotiation.
- Go's locks and channels themselves: a step of a transition system is what happens under one lock or in one channel
  operation. Public operations on the passage store are atomic; their lock order is not modelled.
- The multiplexer's frames travel whole; that the bytes of frames are read back as the same frames is FramesRoundTrip. A frame
  write completes or kills the connection. More than 2^32 - 1 streams are not opened.
- Conservation: nothing is said of bytes still queued when a Read sees the stream closed, since the source may return the end
  of the stream first.
- The streams of a session, and the lists of a shadowsocks server, are values in a map (`SlotLists` ties one such list to its
  arrays); that a handler may hold on to a stream that its session has forgotten is kept (`objs` and `known`), sharing of one
  object between two maps is not.
- Liveness of NAT waiters: an entry whose handler returned early stays behind without an owner that would remove it; only
  safety is claimed.
- The deadlines that the relay loops set around each datagram.
- MuxAnswers.EveryStreamAnswered: accepting a stream and writing its SYNACK are one step; a Close of the session between the
  two, after which the frame is not written, is not modelled apart from a Close before or after both.
- LRU.Insert on a key that is already cached, and stored values that are nil, which the source's callers never use. A cached
  value and its time are held in the node as a value, not behind a pointer; the saturation of time.Duration is not modelled.
- Trie symbols are one byte wide, as the end mark of the source assumes; the order in which Go walks a map is any order.
- The ticking re-sort of preference lists (`infra/lrulist/updater.go`, `lrulist.New`), which no list of the server starts: the
  recorded largest and average weights are fields that nothing here changes.
- GetClosestN, from a library, is any function that rounds up.
- The vmess server and its user contexts, which repeat the shadowsocks ones; byte increments, backoff, validators, bandwidth
  limits and the domain table, which are easy.
