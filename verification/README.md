# Verified model of the Open-MX library

This project models the parts of libopen-mx where messages are numbered, delivered,
acknowledged, matched and stored, and proves what they promise. It is written in Dafny
4.11; `dafny verify dfyconfig.toml` checks all of it.

Two cores are covered.

**The message protocol.** Two endpoints exchange numbered packets over a network that
may lose, duplicate and reorder them. Numbers have 14 bits and wrap. The receiver sorts
each packet into next, fragment of an unfinished message, early or obsolete; a message that
finds no receive waits in memory and may be matched when only some of its fragments are
there, or the unexpected handler discards it. The sender delays messages that lack
resources, keeps a window of 8191 numbers, throttles beyond it, resends, and completes
sends on cumulative acks. `Protocol` is the whole system as a state machine, with runs of
any length; its theorems speak about the messages the application submitted, not about wire
numbers. `Receiving` and `Sending` hold what each operation does to a partner,
`Reception` and `Emission` the invariants, and the class in `Partners` performs the same
operations step by step on fields and queues, is proved to do exactly that, and keeps both
invariants. `Arrivals` says what becomes of every packet, `Accounts` that no send is lost,
and `Deliveries` what the steps of a run achieve. `Witnesses` holds a run that shows the
one way a message is acked without having been received. Around them stand reassembly of
medium messages from fragments (`Fragments`, `FragMasks`), gathering from and scattering to
segment lists (`Segments`), the segment checksum as polynomial division (`Checksum`),
matching of messages with posted receives (`Matching`, `Matchers`), the schedule of acks
(`AckSchedules`), the send queue slots and event credits (`SendqMaps`, `Credits`), the region
map and registration cache (`Regions`), the queues that a request passes through (`Requests`)
and what each event does to its state (`RequestLives`).

**The allocator.** dlmalloc serves the endpoint's shared memory from one segment. The
model goes from the arithmetic of bin indices (`TreeBins`) and bitmaps (`BinMaps`) over the
bitwise tries of large chunks as values (`Tries`) and as chunks linked by child, parent, fd
and bk pointers that are updated in place (`TrieLinks`), the best-fit search (`BestFit`),
the bins (`Filing`), boundary tags and chunk layout (`HeapLayout`) and the heap invariant
(`Heaps`) to `mspace_malloc` and `mspace_free` (`Mspaces`).

Main results:

- `Protocol.InOrderDelivery`, `DeliveredOnce`, `AckSoundness`, `WindowAndThrottling`:
  exactly-once in-order delivery, sound acks and window discipline in every state of every
  run whose packets and acks are recent enough for the state they meet. How recent is an
  exact limit, given as an equivalence by `Reception.StaleExactly` and `Emission.StaleAck`;
  7937 messages behind `next_frag_recv_seq` and 8192 behind `next_acked_send_seq` are always
  recent enough. `Reception.TooOldIsDelivered`, `TooOldExample`, `Emission.StaleAckMistaken` and
  `StaleAckExample` show what happens beyond: an old message is delivered again, and an old
  ack completes sends it was not meant for.
- `Deliveries.MessageCompletes`: in every run a message is received once a packet of each of
  its fragments has been handled, into the buffer that was arranged for it
  (`Deliveries.BufferSource`), of which exactly the first min(buffer, message) bytes are
  overwritten. `Arrivals.LaterPacket`, `NextPacket`, `NextTakes`, `EarlyPacket` and `FarPacket`
  say what becomes of every packet; `Protocol.SendsAccounted` that no send is lost.
- `Fragments.MediumRoundTrip` and `MediumMatchedMidway`: a medium message is complete exactly
  when every fragment has come, in any order, with duplicates, whenever it is matched.
- `TrieLinks.TreeBin.InsertLarge` and `UnlinkLarge`: the pointer updates of insert_large_chunk
  and unlink_large_chunk do on the links what `Tries.Insert` and `Unlink` do on the tree.
- `Mspaces.Mspace.Malloc` and `Free`: the heap stays tiled, tagged, coalesced and exactly
  filed; a request is refused only if no free chunk could hold its bytes; large requests get
  the best fit; `Heaps.AllFreed`: once everything is freed the heap is as it was created.
- `Matching.NothingForgotten`, `MatchedOnce` and `NonOvertaking`: in every run each receive and
  each message waits or is in exactly one match, and of two messages that both match two
  receives the earlier goes to the earlier; `Matchers`: searching one context id's queue is
  searching everything.
- `Checksum.ChecksumIsRemainder` with `RemainderIsChecksum`: the checksum is the remainder
  modulo x^16+x^12+x^5+1, the generator polynomial of section 2 of ITU-T Recommendation V.41.
- `Segments.TransferVectorial`: a medium message cut from one segment list and scattered
  into another, in any order and with any duplicates, arrives whole exactly when every
  fragment has come.
- `Credits.CreditsConserved`, `RingNeverOverflows`, `SlotStillOwned`, `Requests.InExactlyOneQueue`,
  `NothingLeaked`: conservation of event credits, send queue slots and requests in every run;
  `RequestLives.EventDoes` and `LargeNotified`: a request waits for exactly the events that
  have not happened to it yet.

Where code and comments disagree the model follows the code: `RECV_PARTIAL` stays set
while a large receive is pulling (the comment in `omx_types.h` says it is set only before);
large sends that need a reply wait in `large_send_need_reply_req_q` (the comment names
`large_send_req_q`); an arrival drains early packets only up to the number that was next
when the drain started.

What the environment contributes is a parameter: whether a post or an allocation succeeds,
the time, whether the unexpected handler finishes a message or lets it go on and what it
posts, what the driver writes and when.

## Model

| member | source | states |
|---|---|---|
| Seqnums.WireOffset | libopen-mx/omx_types.h:79-112 | the masked difference of two 14-bit wire numbers is the true difference modulo 2^14 |
| Seqnums.WireDistance | libopen-mx/omx_types.h:79-112 | within one turn of the counter the masked difference is the exact distance |
| Seqnums.WireBehind | libopen-mx/omx_types.h:79-112 | a number from behind appears at the top of the range, one turn minus its distance |
| Seqnums.WireInjective | libopen-mx/omx_types.h:79-112 | numbers less than a turn apart share a wire form only if equal |
| Fragments.ReceiveHolds | libopen-mx/omx_recv.c:310-434 | every fragment arrival, new or duplicate, keeps the buffer equal to the message on all received fragments and the accumulated length equal to what they cover |
| Fragments.CompleteIffAll | libopen-mx/omx_recv.c:375-428 | accumulated_length equals msg_length exactly when every fragment has been received |
| Fragments.CompleteMeansBytes | libopen-mx/omx_recv.c:349-364 | a complete request holds the first xfer_length bytes of the message, truncated receives included |
| Fragments.MediumRoundTrip | libopen-mx/omx_recv.c:310-434 | fragments in any order with any duplicates: complete if and only if all came, and then the bytes are the sender's |
| Fragments.RebindHolds | libopen-mx/omx_recv.c:1094-1192 | moving what has come so far into the buffer of a receive keeps it, truncated to that buffer, and forgets no fragment |
| Fragments.MediumMatchedMidway | libopen-mx/omx_recv.c:1094-1192 | the round trip when the message was unexpected and is matched after any of its fragments, in any order with any duplicates before and after |
| FragMasks.MaskHolds | libopen-mx/omx_recv.c:339-376 | a bit of the mask is set if and only if a fragment with that number modulo 32 has come |
| FragMasks.MaskIsSet | libopen-mx/omx_recv.c:339-376 | the 32-bit mask tells which fragments have come, whatever came, if and only if messages have at most 32 fragments |
| Reception.PlaceSpec | libopen-mx/omx_recv.c:61-140 | the scan from the back finds the place between smaller and larger (number, fragment) keys, and reports a duplicate exactly if the key is queued |
| Reception.PostponeInv | libopen-mx/omx_recv.c:142-223 | postponing a packet keeps the early queue strictly sorted with offsets below 256 |
| Reception.FindPartialSpec | libopen-mx/omx_recv.c:666-690 | the scan of the partial queue finds a message's request exactly when the message is unfinished |
| Reception.BelowFragComplete | libopen-mx/omx_recv.c:630-664 | every message before next_frag_recv_seq has been received entirely, or the handler discarded it |
| Reception.UpdateFragCore | libopen-mx/omx_recv.c:630-650 | recomputing next_frag_recv_seq yields the first unfinished message, or the next to match |
| Reception.OrderedTests | libopen-mx/omx_recv.c:692-734 | the masked comparisons of ordered reception decide as the true numbers do |
| Reception.OrderedCore | libopen-mx/omx_recv.c:692-734 | a packet at or before the next number keeps the books: deliveries in order and faithful, partial queue sorted, next_frag its head |
| Reception.DropBooks | libopen-mx/omx_recv.c:547-552 | a message that the handler finishes is recorded in its place and is on no queue |
| Reception.MatchInv | libopen-mx/omx_recv.c:1094-1192 | a receive that takes over an unexpected message, finished or not, keeps the receiver's invariant and changes no other delivery |
| Reception.DiscardedByHandler | libopen-mx/omx_recv.c:547-552 | nothing is discarded unless the handler says so |
| Reception.DrainInv | libopen-mx/omx_recv.c:796-817 | the loop over early packets keeps the receiver's invariant and only extends the deliveries |
| Reception.Classify | libopen-mx/omx_recv.c:782-837 | what each packet is taken for, said with true numbers |
| Reception.ProcessInv | libopen-mx/omx_recv.c:736-837 | any packet that is recent enough, whatever the rest of the library answers: window invariant kept, deliveries only extended |
| Reception.StaleExactly | libopen-mx/omx_recv.c:782-837 | a packet behind next_frag_recv_seq is seen as obsolete if and only if its distance is below 2^14 minus the open range minus 255 |
| Reception.StaleMaxRecent | libopen-mx/omx_recv.c:782-837 | at most 7937 behind is below that limit in every state |
| Reception.LastObsolete | libopen-mx/omx_recv.c:830-835 | the test that answers an obsolete packet with an ack singles out the message just before next_frag_recv_seq |
| Reception.TooOldIsQueued | libopen-mx/omx_recv.c:819-823 | beyond that limit a packet of a finished message enters the early queue |
| Reception.TooOldIsDelivered | libopen-mx/omx_recv.c:796-823 | once the number before it arrives, the queued packet of message n is delivered as message n + 2^14 |
| Reception.TooOldIsWrong | libopen-mx/omx_recv.c:796-823 | if the two messages differ in match info the receiver's invariant is then broken |
| Reception.TooOldExample | libopen-mx/omx_recv.c:796-823 | a concrete case: message 1 is delivered again as message 16385, after 16384 arrives |
| Arrivals.BoundTo | libopen-mx/omx_recv.c:491-628 | the next message is bound to the receive and buffer, the memory or the handler that the answer arranged for, with its first fragment; without memory nothing changes |
| Arrivals.LaterPacket | libopen-mx/omx_recv.c:666-734 | a packet of a message already matched adds its fragment to that request and changes no other and no queue |
| Arrivals.NextRefused | libopen-mx/omx_recv.c:585-606 | a packet whose message gets no memory changes nothing |
| Arrivals.NextPacket | libopen-mx/omx_recv.c:736-817 | the next packet matches its message as arranged, leaves earlier deliveries alone, and of the early packets exactly those at least two numbers ahead stay queued |
| Arrivals.DrainTakes | libopen-mx/omx_recv.c:796-817 | with memory, every queued packet of the message just matched and of the next one is in its request afterwards |
| Arrivals.NextTakes | libopen-mx/omx_recv.c:796-817 | so no early packet that leaves the queue is lost |
| Arrivals.DrainChanges | libopen-mx/omx_recv.c:796-817 | new requests come from the answers and new fragments from the packets handled; nothing else changes |
| Arrivals.EarlyPacket | libopen-mx/omx_recv.c:142-223 | an early packet joins the queue if and only if there is memory and its fragment is not queued; nothing else changes |
| Arrivals.FarPacket | libopen-mx/omx_recv.c:824-837 | a packet more than 255 ahead changes nothing |
| Arrivals.TakenOver | libopen-mx/omx_recv.c:1094-1192 | a receive that takes over an unexpected message keeps its fragments, and its own buffer decides how much is transferred |
| Arrivals.AllThere | libopen-mx/omx_recv.c:375-428 | with all fragments there, the message is in the buffer as far as it fits and in no queue |
| Emission.SetupNumbered | libopen-mx/omx_send.c:107-132 | numbering a message in an open window advances next_send_seq by one, moves no ack and keeps the queue of non-acked requests in number order |
| Emission.AllocatedInv | libopen-mx/omx_send.c:136-169 | a message with its resources is numbered, or throttled behind all that wait for a number |
| Emission.SubmitInv | libopen-mx/omx_send.c:172-193 | a submission joins the end of what is numbered, throttled and delayed, in that order, and is delayed if and only if others are or its resources are missing |
| Emission.SubmitNotifyInv | libopen-mx/omx_send.c:955-972 | a notify goes before the delayed ones, is delayed if and only if others are or it must be, and leaves the application's messages in order |
| Emission.RetryInv | libopen-mx/omx_send.c:1210-1283 | as many delayed requests as have their resources leave from the head, without changing the order |
| Emission.ReleaseNumbered | libopen-mx/omx_send.c:1285-1325 | releasing throttled requests fills the window exactly or empties the queue |
| Emission.AckedPrefixSpec | libopen-mx/omx_ack.c:111-128 | the early-breaking loop stops exactly after the last request numbered before the ack |
| Emission.CompleteFilter | libopen-mx/omx_ack.c:89-135 | an ack completes exactly the queued requests numbered before it, in order, and keeps the others in order, for every wrap and after nacks |
| Emission.StaleAck | libopen-mx/omx_ack.c:89-111 | an old ack changes nothing if and only if its number has not come round into the window |
| Emission.HalfTurnRecent | libopen-mx/omx_ack.c:89-111 | up to 8192 behind it has not in any state |
| Emission.StaleAckMistaken | libopen-mx/omx_ack.c:89-135 | an ack of a whose number has come round acts as the ack of a + 2^14 and completes every send numbered before that |
| Emission.StaleAckExample | libopen-mx/omx_ack.c:89-135 | a concrete case: with numbers 8194 to 16384 unacked, the ack of number 1 moves next_acked_send_seq onto next_send_seq and completes all of them |
| Emission.HandleAckInv | libopen-mx/omx_ack.c:89-135 | a new ack keeps the window, queue and throttling invariants and advances to its number |
| Emission.NackedAtSpec | libopen-mx/omx_ack.c:188-199 | the scan finds the request of the nacked number if it is queued, and otherwise none |
| Emission.HandleNackInv | libopen-mx/omx_ack.c:171-199 | a nack of this session fails exactly the request it names, if queued; the others keep their order and nothing else changes |
| Accounts.SetupAccounted | libopen-mx/omx_send.c:107-132 | a message that gets a number waits for its ack |
| Accounts.AckAccounted | libopen-mx/omx_ack.c:89-135 | an ack moves requests from waiting to completed and loses none, with the throttled ones it releases |
| Accounts.NackAccounted | libopen-mx/omx_ack.c:171-199 | a nack moves one request from waiting to failed and loses none |
| Accounts.OncePlaced | libopen-mx/omx_types.h:126-205 | then every numbered message waits, is completed or has failed, exactly once |
| Protocol.StepInv | libopen-mx/omx_recv.c:736-837 | every step of either endpoint, submissions, notifies, retries, arrivals, acks, nacks and receives that match midway, keeps the system invariant and only extends what was delivered |
| Protocol.RunInv | libopen-mx/omx_recv.c:736-837 | the invariant holds in every state of every run |
| Protocol.InOrderDelivery | libopen-mx/omx_recv.c:692-837 | in every state of every run the k-th delivery is the k-th message numbered, the j-th of the application's is the j-th it submitted, and its buffer is overwritten with exactly the first min(buffer, message) bytes unless fragments are missing or the handler discarded it |
| Protocol.DeliveredOnce | libopen-mx/omx_recv.c:692-837 | deliveries are never withdrawn, repeated or reordered as a run goes on |
| Protocol.AckSoundness | libopen-mx/omx_ack.c:89-165 | a send completed by an ack was matched at the peer, and there discarded by the handler or entirely received; next_acked_send_seq never passes the peer's next_frag_recv_seq |
| Witnesses.DiscardedIsAcked | libopen-mx/omx_recv.c:547-552 | a run in which a message of two fragments is acked although only the first was ever posted, because the handler finished it |
| Protocol.WindowAndThrottling | libopen-mx/omx_send.c:158-168 | in every run at most 8191 numbers are in flight, requests wait for a number only when the window is full, the throttle counter is the queue length modulo 2^32, and numbered, throttled and delayed messages are those the application submitted, in order |
| Protocol.SendsAccounted | libopen-mx/omx_ack.c:89-199 | in every run a numbered message waits for its ack, was completed by an ack or failed by a nack, exactly one of these and once |
| Deliveries.PiggyackCounts | libopen-mx/omx_ack.c:89-135 | in every run the ack carried by a packet that is handled counts: the number acked is the larger one, and exactly what it covers completes |
| Deliveries.LibackCounts | libopen-mx/omx_ack.c:137-165 | an explicit ack counts if and only if its ack number is the newest |
| Deliveries.BufferSource | libopen-mx/omx_recv.c:565-628 | in every run a new delivery has the receive and buffer, the memory or the handler of one of the answers, and keeps them unless a receive takes it over |
| Deliveries.IrecvTakes | libopen-mx/omx_recv.c:1094-1192 | in every run a receive that takes over an unexpected message brings its buffer and keeps the fragments |
| Deliveries.SendSteps | libopen-mx/omx_send.c:955-1283 | in every run submissions, notifies, retries and nacks do to the messages on their way what they are for |
| Deliveries.FragmentTaken | libopen-mx/omx_recv.c:666-734 | in every run a packet of a message that is matched, then or before, leaves its fragment there |
| Deliveries.MessageCompletes | libopen-mx/omx_recv.c:310-434 | in every run, once a packet of each fragment of a matched message has been handled, in any order and with anything between, the message is received and unqueued, or the handler discarded it |
| Partners.Partner.constructor | libopen-mx/omx_types.h:126-205 | a new partner starts with equal counters and empty queues, and both invariants hold |
| Partners.Partner.PeerNumbers | libopen-mx/omx_send.c:107-132 | the peer may number a message within its window without disturbing this side's invariants |
| Partners.Partner.FindPreviousEarly | libopen-mx/omx_recv.c:61-140 | the backward scan returns the specified place or reports the duplicate |
| Partners.Partner.PostponeEarly | libopen-mx/omx_recv.c:142-223 | the new early queue is the specified one |
| Partners.Partner.DequeuePartial | libopen-mx/omx_recv.c:407-409 | removing a request leaves the others of the partial queue in order |
| Partners.Partner.ProcessMediumFrag | libopen-mx/omx_recv.c:310-434 | buffer, mask, length and partial queue become the specified ones |
| Partners.Partner.ContinuePartial | libopen-mx/omx_recv.c:666-690 | the loop gives the fragment to the request with its number, if any |
| Partners.Partner.DrainEarly | libopen-mx/omx_recv.c:796-817 | the loop leaves exactly the specified state |
| Partners.Partner.ProcessRecv | libopen-mx/omx_recv.c:736-837 | the receive side after any packet is the specified one |
| Partners.Partner.MatchUnexpected | libopen-mx/omx_recv.c:1094-1192 | a receive takes over an unexpected message: both invariants kept, fragments kept, the new buffer decides how much is transferred, other deliveries unchanged |
| Partners.Partner.SubmitSend | libopen-mx/omx_send.c:172-193 | both invariants kept; the message is the last of the application's, whether numbered, throttled or delayed, and nothing numbered changes |
| Partners.Partner.SubmitNotifyOf | libopen-mx/omx_send.c:955-972 | both invariants kept; the application's messages stay as they were |
| Partners.Partner.ProcessDelayed | libopen-mx/omx_send.c:1210-1283 | both invariants kept by the loop from the head of the delayed queue; the application's messages stay in order |
| Partners.Partner.ProcessThrottling | libopen-mx/omx_send.c:1285-1325 | the loop numbers throttled sends as specified |
| Partners.Partner.CompleteAcked | libopen-mx/omx_ack.c:111-128 | the loop completes the acked prefix of the queue |
| Partners.Partner.HandleAckBefore | libopen-mx/omx_ack.c:89-135 | both invariants kept; the number acked never goes back, and exactly the queued requests numbered before the ack are completed, in order |
| Partners.Partner.HandleNackOf | libopen-mx/omx_ack.c:171-199 | both invariants kept; exactly the request named by the nack leaves the queue |
| Partners.Partner.ReceiveMessage | libopen-mx/omx_recv.c:736-837 | both invariants kept; deliveries only extended; a fragment of a matched message is added to it alone, the next message is bound as arranged; next_frag_recv_seq and the number acked never go back; packets of other sessions change nothing |
| Segments.ContinueCopyFrom | libopen-mx/omx_segments.h:179-214 | the bytes copied are the next bytes of the flattened segments and the scan state advances past them |
| Segments.GatherFragments | libopen-mx/omx_send.c:496-531 | successive gathers yield exactly the fragments of the flattened message |
| Segments.RescanFinds | libopen-mx/omx_segments.h:262-284 | the fresh scan stops at the first segment that reaches the offset |
| Segments.RescanStays | libopen-mx/omx_segments.h:262-284 | the scan runs off the segments if and only if the offset is past their end |
| Segments.ContinueCopyTo | libopen-mx/omx_segments.h:220-255 | the flattened destination is overwritten at the scan position and nowhere else |
| Segments.VectorRecv.PartialCopyTo | libopen-mx/omx_segments.h:262-284 | the cached scan state gives the same destination bytes as a fresh scan |
| Segments.VectorRecv.ReceiveFrag | libopen-mx/omx_recv.c:336-378 | reception into segments refines reception into one buffer |
| Segments.TransferVectorial | libopen-mx/omx_send.c:459-531 | cut from one segment list, scattered into another in any order with duplicates: whole if and only if every fragment came, and then equal |
| Checksum.FeedSegment | libopen-mx/omx_segments.h:290-324 | the loop over a segment continues the checksum of the bytes before it |
| Checksum.ChecksumSegments | libopen-mx/omx_segments.h:290-324 | the result depends only on the first length bytes of the flattened segments, not on how they are split |
| Checksum.ShiftXor | libopen-mx/omx_segments.h:290-324 | one register step is linear: the byte may be added before or after it |
| Checksum.FeedIsBits | libopen-mx/omx_segments.h:290-324 | feeding a byte is dividing its eight bits one after the other |
| Checksum.RemainderUnique | libopen-mx/omx_segments.h:290-324 | a message polynomial has one remainder below degree 16 |
| Checksum.ChecksumIsRemainder | libopen-mx/omx_segments.h:290-324 | the checksum is a remainder of the message times x^16 modulo x^16+x^12+x^5+1 |
| Checksum.RemainderIsChecksum | libopen-mx/omx_segments.h:290-324 | any such remainder is the checksum |
| Matching.First | libopen-mx/omx_recv.c:474-489 | the search yields the first element with the property, or the end |
| Matching.FirstFiltered | libopen-mx/omx_recv.c:474-489 | searching only the elements that could match finds, and removes, what searching all does |
| Matching.ArriveKeeps | libopen-mx/omx_recv.c:491-628 | after an arrival no waiting receive and waiting message match |
| Matching.PostKeeps | libopen-mx/omx_recv.c:1195-1251 | after posting a receive no waiting receive and waiting message match |
| Matching.MatchesBits | libopen-mx/omx_recv.c:1204-1221 | a receive matches exactly if it agrees with the message where its mask is set and asks for nothing elsewhere |
| Matching.ArriveIs | libopen-mx/omx_recv.c:474-489 | a message is taken by the first receive that matches it, and otherwise is the last that waits |
| Matching.PostIs | libopen-mx/omx_recv.c:1195-1251 | a receive takes the first message that it matches, and otherwise is the last that waits |
| Matching.RunOk | libopen-mx/omx_recv.c:491-628 | in every run nothing that waits could be matched, and earlier partners are preferred |
| Matching.NothingForgotten | libopen-mx/omx_recv.c:491-628 | in every run each posted receive and each arrived message waits in its list or is in a match, and not both |
| Matching.NothingInvented | libopen-mx/omx_recv.c:491-628 | in every run what waits or is matched was posted or did arrive |
| Matching.MatchedOnce | libopen-mx/omx_recv.c:491-628 | in every run a receive and a message are matched at most once, and then wait no more |
| Matching.NonOvertaking | libopen-mx/omx_recv.c:1195-1251 | in every run, if an earlier and a later message were matched and the receive of the later one matches the earlier, then the earlier one went to an earlier receive |
| Matchers.ValueBound | libopen-mx/omx_types.h:215-217 | a context id indexes the array of its queues |
| Matchers.SameContext | libopen-mx/omx_recv.c:1263-1276 | a receive without wildcard in the context id bits matches only messages of its own context id |
| Matchers.Matcher.constructor | libopen-mx/omx_endpoint.c:553-575 | a new endpoint has empty queues for every context id |
| Matchers.Matcher.MatchRecv | libopen-mx/omx_recv.c:474-489 | searching one context id queue gives and removes the first match of all posted receives |
| Matchers.Matcher.Enqueue | libopen-mx/omx_recv.c:259-265 | an unexpected message joins the common queue and that of its context id, in arrival order |
| Matchers.Matcher.TryMatch | libopen-mx/omx_recv.c:491-628 | matching, the unexpected handler and its posts, the second search and a failed allocation act as on the two global lists |
| Matchers.PostsCount | libopen-mx/omx_recv.c:526-530 | each receive that the handler posts waits or has taken a message |
| Matchers.MatchedKeeps | libopen-mx/omx_recv.c:491-628 | whatever the handler posts and memory allows, nothing waits that could be matched, a message that waits or is refused matches no posted receive, and it is discarded only by the handler and refused only for lack of memory |
| Matchers.MatchedCount | libopen-mx/omx_recv.c:491-628 | the handler is asked if and only if no posted receive matches; the receives it posts wait or take messages, and the message takes one of them, waits, or is finished by the handler |
| Matchers.Matcher.Irecv | libopen-mx/omx_recv.c:1195-1290 | bad masks and a failed allocation are reported without change; otherwise the first waiting match is taken, or the receive becomes the last of those posted |
| Matchers.Matcher.FindUnexp | libopen-mx/omx_recv.c:1204-1221 | searching the context id queue, or the only queue, finds the first match of all unexpected messages |
| Matchers.Matcher.Dequeue | libopen-mx/omx_recv.c:1094-1106 | the matched message leaves both queues it is in |
| Matchers.Matcher.PostNew | libopen-mx/omx_recv.c:1222-1238 | an unmatched receive joins the end of its queue |
| AckSchedules.RemoveSorted | libopen-mx/omx_lib.h:202-214 | taking a partner off a list sorted by age keeps it sorted |
| AckSchedules.HeadOldest | libopen-mx/omx_ack.c:287-295 | if the head of the delayed list is not due, nothing on it is |
| AckSchedules.DelayedKeeps | libopen-mx/omx_lib.h:164-175 | a newly delayed partner keeps the delayed list sorted by age and both lists exact |
| AckSchedules.ImmediateKeeps | libopen-mx/omx_lib.h:177-193 | moving a partner to the immediate list keeps both lists exact |
| AckSchedules.AckKeeps | libopen-mx/omx_lib.h:202-214 | after an ack the partner is on no list and owes nothing |
| AckSchedules.AckSchedule.constructor | libopen-mx/omx_endpoint.c:593-597 | both lists start empty |
| AckSchedules.AckSchedule.MarkDelayed | libopen-mx/omx_lib.h:164-175 | only a partner that needs no ack joins the tail of the delayed list, with the time |
| AckSchedules.AckSchedule.MarkImmediate | libopen-mx/omx_lib.h:177-193 | a delayed partner moves to the head, a new one to the tail of the immediate list |
| AckSchedules.AckSchedule.AckSent | libopen-mx/omx_lib.h:202-214 | the partner leaves its list and is acked up to next_frag_recv_seq |
| AckSchedules.AckSchedule.Advance | libopen-mx/omx_recv.c:648-663 | a moved next_frag_recv_seq leaves the partner on the immediate list if too much is unacked, and otherwise on the list it was on or newly on the delayed one; an unmoved one changes nothing |
| AckSchedules.AckSchedule.Obsolete | libopen-mx/omx_recv.c:825-836 | only that obsolete packet puts the partner on the immediate list |
| AckSchedules.AckSchedule.SendImmediate | libopen-mx/omx_ack.c:262-280 | acks go out in list order up to the first failed post |
| AckSchedules.AckSchedule.SendDelayed | libopen-mx/omx_ack.c:287-309 | acks go out in list order up to the first that is not due or fails |
| AckSchedules.AckSchedule.ProcessPartnersToAck | libopen-mx/omx_ack.c:257-312 | without failed posts the immediate list is empty, nothing stays overdue, and exactly the due acks were sent |
| SendqMaps.TakeOk | libopen-mx/omx_lib.h:270-306 | taking slots keeps every slot either free or owned |
| SendqMaps.GiveOk | libopen-mx/omx_lib.h:308-335 | giving slots back keeps every slot either free or owned |
| SendqMaps.TakeGive | libopen-mx/omx_lib.h:270-335 | slots taken and given back leave every owner and the set of free slots as before |
| SendqMaps.SendqMap.constructor | libopen-mx/omx_endpoint.c:89-112 | all slots start free, linked in order |
| SendqMaps.SendqMap.Get | libopen-mx/omx_lib.h:270-306 | the loop takes the first slots of the free chain, or fails unchanged if there are too few |
| SendqMaps.SendqMap.Put | libopen-mx/omx_lib.h:308-335 | the loop links the slots back at the head of the chain, last first |
| SendqMaps.SendqMap.User | libopen-mx/omx_lib.h:337-348 | the owner of a slot is found |
| Credits.SumUpdate | libopen-mx/omx_send.c:615-618 | the reservations of all requests change by those of the one that changed |
| Credits.PostOk | libopen-mx/omx_send.c:438-565 | posting any number of fragments keeps credits, ownership and outstanding events exact |
| Credits.Submitted | libopen-mx/omx_send.c:659-700 | a new request waits for credits, and nothing else changes |
| Credits.Reserves | libopen-mx/omx_send.c:598-655 | a request takes as many credits, and then as many free slots, as it has fragments |
| Credits.PostedOut | libopen-mx/omx_send.c:438-565 | posting puts exactly the first fragments into the driver, with one event each to come, and returns the credits of the others |
| Credits.FragmentReturns | libopen-mx/omx_lib.c:92-114 | a fragment-done event returns one credit to the endpoint; after the last one the request waits for its ack, or is complete with its slots free; no other request changes |
| Credits.AckCompletes | libopen-mx/omx_ack.c:45-56 | an ack completes the request and frees its slots if none of its fragments is in the driver, and otherwise only ends its wait for the ack |
| Credits.StepOk | libopen-mx/omx_send.c:598-655 | every step keeps the ledger, slot ownership and outstanding events |
| Credits.RunOk | libopen-mx/omx_send.c:598-655 | they hold in every run |
| Credits.CreditsConserved | libopen-mx/omx_endpoint.c:508-511 | in every run available credits, reservations and events on the way sum to 769 |
| Credits.RingNeverOverflows | libopen-mx/omx_lib.c:248-270 | in every run, with release in batches of 256, events written and not released fit the 1024 slots of the ring |
| Credits.EventFindsRequest | libopen-mx/omx_lib.c:92-99 | the slot of a fragment-done event is owned by the request that posted the fragment, and the fragment is among those it has in the driver |
| Credits.SlotStillOwned | libopen-mx/omx_lib.c:92-99 | the same for every event in the ring in every run |
| Credits.AllReturned | libopen-mx/omx_endpoint.c:508-511 | when all requests are complete and the driver is idle, every credit and slot is back |
| Regions.AllocKeeps | libopen-mx/omx_large.c:67-93 | a slot taken off the free chain is in no list |
| Regions.DestroyKeeps | libopen-mx/omx_large.c:197-207 | destroying a region returns its slot and keeps the lists a partition |
| Regions.IntersectMeans | libopen-mx/omx_large.c:408-416 | the intersection test holds if and only if the segments share an address |
| Regions.RegionMap.constructor | libopen-mx/omx_large.c:34-65 | all slots start free |
| Regions.RegionMap.Alloc | libopen-mx/omx_large.c:209-234 | with the cache on, allocation fails if and only if no slot is free and none is cached unused; a region in use is never evicted |
| Regions.AllInUse | libopen-mx/omx_large.c:209-234 | with no free and no unused slot every slot is in use |
| Regions.RegionMap.Create | libopen-mx/omx_large.c:236-272 | a refused registration gives the slot back |
| Regions.RegionMap.GetContiguous | libopen-mx/omx_large.c:274-325 | a granted region has the same start, covers the length and is reserved as asked; it fails exactly if nothing cached fits and no slot or registration is to be had |
| Regions.RegionMap.Reuse | libopen-mx/omx_large.c:288-300 | a cache hit adds a user and leaves the unused list if it was the first |
| Regions.RegionMap.GetVect | libopen-mx/omx_large.c:327-363 | a vectorial request always gets a new region |
| Regions.RegionMap.Put | libopen-mx/omx_large.c:379-402 | the region loses a user, and its reservation if the reserver puts it; a cached one stays, unused if that was the last, any other is destroyed; the lists stay in order if and only if there was a user to give it up; regions of others do not change |
| Regions.PutExactly | libopen-mx/omx_large.c:379-402 | that condition, as an equivalence in every state |
| Regions.NackAfterReply | libopen-mx/omx_ack.c:58-66 | a nack after the reply puts the region a second time: it is cached with a count of -1, and its next user has it while it is listed as unused |
| Regions.RegionMap.Clean | libopen-mx/omx_large.c:422-452 | it aborts if and only if a region in use intersects the range; otherwise exactly the intersecting regions are gone |
| Requests.FinishFollows | libopen-mx/omx_request.h:201-236 | completion frees a zombie or queues the request once for the application |
| Requests.AckedFollows | libopen-mx/omx_ack.c:28-83 | an ack or nack takes the request from the queues its state dictates to those its new state dictates |
| Requests.RetryFollows | libopen-mx/omx_send.c:1210-1283 | a retried request goes from the delayed queue exactly where its new state dictates, or back to the head |
| Requests.UnthrottleFollows | libopen-mx/omx_send.c:1285-1325 | a released request leaves both throttle queues for the non-acked queues its state dictates |
| Requests.ResendFollows | libopen-mx/omx_send.c:1416-1506 | a resent request moves to the end of the non-acked queue, or to the sending queue if the driver took fragments |
| Requests.FragsDoneFollows | libopen-mx/omx_lib.c:92-114 | after the last fragment-done event the request waits for its ack or completes |
| Requests.ReplyFollows | libopen-mx/omx_large.c:679-722 | the reply to a large send completes it if it was acked and otherwise leaves it in the non-acked queues |
| Requests.FragmentFollows | libopen-mx/omx_recv.c:375-434 | a medium fragment, expected or not, leaves the request where its state dictates in endpoint and partner queues |
| Requests.MatchedByRndvFollows | libopen-mx/omx_recv.c:437-468 | a rendezvous turns the matched receive into a pull, a delayed pull or a delayed notify, in the queue that state dictates |
| Requests.MatchedByIrecvFollows | libopen-mx/omx_recv.c:1094-1192 | a matched unexpected message goes to the pull, partial or done queue its state dictates |
| Requests.PullDoneFollows | libopen-mx/omx_large.c:573-648 | a finished pull becomes a notify in the queue its state dictates |
| Requests.TestFollows | libopen-mx/omx_test.c:108-123 | completion by the application frees a finished request and makes a zombie of one still in the network, which keeps its place |
| Requests.ForgetFollows | libopen-mx/omx_test.c:226-243 | forgetting does the same, and takes the request off the done queue if it is there |
| Requests.PerformFollows | libopen-mx/omx_types.h:370-413 | every operation dequeues from and enqueues to exactly the queues that the table of states dictates |
| Requests.CreateFollows | libopen-mx/omx_types.h:370-413 | every new request is put into exactly the queues its type and state dictate |
| Requests.ApplyKeeps | libopen-mx/omx_request.h:86-118 | an operation that follows the table keeps every queue exact |
| Requests.RunKeeps | libopen-mx/omx_types.h:370-413 | all queues are exact in every run |
| Requests.InExactlyOneQueue | libopen-mx/omx_types.h:370-413 | in every run a live request is, once, in the endpoint queue and the partner queue its type and state dictate, and in no other |
| Requests.NothingLeaked | libopen-mx/omx_endpoint.c:947-1051 | the debug count of queued requests always equals the number allocated |
| RequestLives.EventDoes | libopen-mx/omx_types.h:370-413 | each event clears the bit it stands for, sets those of what the request waits for next and leaves the others alone; it ends the request if and only if the application let go of it and nothing is left to do |
| RequestLives.CreateDoes | libopen-mx/omx_types.h:370-413 | what a new request waits for, and whether the application is told at once |
| RequestLives.LargeWaits | libopen-mx/omx_ack.c:58-73 | in every run a numbered large send waits for an ack if and only if none has come, and for the reply if and only if neither it nor a nack has come |
| RequestLives.LargeNotified | libopen-mx/omx_large.c:708-722 | in every run a large send that was not nacked is reported done if and only if both its ack and its reply have come |
| RequestLives.LeavesSending | libopen-mx/omx_lib.c:92-114 | in every run a medium in the driver stays in the sending queue until its fragments are done, and no longer |
| RequestLives.QueueOrder | libopen-mx/omx_request.h:86-118 | an event leaves all other requests in their order; its own goes to the end of its queue, but a notify, an empty pull and an unsuccessful retry go to the head of the delayed ones |
| TreeBins.Log2Correct | libopen-mx/dlmalloc.c:2791-2808 | the branch-free steps compute the integer logarithm of every 16-bit value |
| TreeBins.TreeIndexCorrect | libopen-mx/dlmalloc.c:2791-2823 | every size from 256 on lies between the least size of its bin and that of the next |
| TreeBins.TreeIndexMonotone | libopen-mx/dlmalloc.c:2791-2808 | larger sizes never have smaller indices |
| TreeBins.MinSizeMonotone | libopen-mx/dlmalloc.c:2820-2823 | least sizes grow with the bin |
| TreeBins.BinRange | libopen-mx/dlmalloc.c:2815-2823 | a bin's sizes form one aligned power-of-two range, and the left shift brings the first free bit to the top |
| TreeBins.TopBitIsHalf | libopen-mx/dlmalloc.c:2815-2818 | the top bit of the shifted size says which half of the range the size is in |
| Tries.TrieRange | libopen-mx/dlmalloc.c:3202-3251 | all sizes below a node lie in the node's range |
| Tries.TrieDepth | libopen-mx/dlmalloc.c:2280-2316 | depth is bounded by the number of distinguishing bits |
| Tries.InsertChunks | libopen-mx/dlmalloc.c:3543-3590 | on the tree that the links represent, insertion files exactly one more chunk |
| Tries.InsertTrie | libopen-mx/dlmalloc.c:3543-3590 | on the tree that the links represent, insertion keeps the bit-prefix order and one node per size |
| Tries.UnringOk | libopen-mx/dlmalloc.c:3611-3625 | on the sequence that the ring's links represent, leaving removes exactly that chunk |
| Tries.RemoveNodeOk | libopen-mx/dlmalloc.c:3626-3680 | on the tree that the links represent, replacing a node by the rightmost leaf below it keeps the trie |
| Tries.UnlinkOk | libopen-mx/dlmalloc.c:3611-3680 | on the tree that the links represent, unlinking keeps the trie and removes exactly the one chunk |
| TrieLinks.AddrsIn | libopen-mx/dlmalloc.c:3202-3251 | every chunk of a represented tree is there, and none is null |
| TrieLinks.RepPut | libopen-mx/dlmalloc.c:3641-3656 | redirecting one child pointer, or the bin, to another represented tree represents the tree with that subtree in its place |
| TrieLinks.RingJoin | libopen-mx/dlmalloc.c:3576-3584 | the new chunk is linked into the ring behind its node, with neither parent nor children |
| TrieLinks.RingLeave | libopen-mx/dlmalloc.c:3614-3624 | a chunk that is not the node leaves the ring, which stays linked both ways |
| TrieLinks.RingLeaveHead | libopen-mx/dlmalloc.c:3614-3624 | when the node leaves, the last of its ring becomes the first |
| TrieLinks.PathFinds | libopen-mx/dlmalloc.c:3202-3251 | the bits of its size lead to the node of a chunk, and unlinking changes the tree there only |
| TrieLinks.RelinkRep | libopen-mx/dlmalloc.c:3656-3678 | the replacement takes the parent and the children of x, and they point back to it |
| TrieLinks.LeafReady | libopen-mx/dlmalloc.c:3625-3640 | cutting off the rightmost leaf leaves x ready to be replaced by it, even if the leaf is a child of x |
| TrieLinks.TreeBin.constructor | libopen-mx/dlmalloc.c:3550-3555 | an empty bin represents the empty tree |
| TrieLinks.TreeBin.InsertLarge | libopen-mx/dlmalloc.c:3543-3590 | the loop along the child pointers and the links it sets represent the tree with the chunk inserted; cells outside are untouched |
| TrieLinks.TreeBin.RightmostLeaf | libopen-mx/dlmalloc.c:3626-3633 | the loop ends at a leaf below x that always went right where it could, with its parent and side |
| TrieLinks.TreeBin.Detach | libopen-mx/dlmalloc.c:3611-3640 | x leaves its ring, or a leaf is cut off to replace it; nothing outside the subtree of x changes |
| TrieLinks.TreeBin.UnlinkLarge | libopen-mx/dlmalloc.c:3611-3680 | for a ring member, a node with a ring, a node with children and a lone leaf, at the root or below: the links represent the tree without the chunk; cells outside are untouched |
| BinMaps.NegIs | libopen-mx/dlmalloc.c:2841-2847 | unsigned negation keeps the bits up to the least one set and flips those above |
| BinMaps.Bit2IdxIs | libopen-mx/dlmalloc.c:2879-2888 | the portable steps find the index of every single bit |
| BinMaps.LeastMarked | libopen-mx/dlmalloc.c:4318-4319 | least_bit and compute_bit2idx on the bitmap give the least marked bin, and the word is zero exactly if there is none |
| BinMaps.LeastMarkedAbove | libopen-mx/dlmalloc.c:4273-4277 | with left_bits they give the least marked bin above an index, for tree bins and, with the shifts, for small bins |
| BestFit.Leftmost | libopen-mx/dlmalloc.c:4282-4289 | the walk along leftmost children sees the least size of a subtree |
| BestFit.SearchBin | libopen-mx/dlmalloc.c:4250-4273 | one path and the deepest right subtree not taken cover everything in the bin that fits |
| BestFit.FindBestFit | libopen-mx/dlmalloc.c:4243-4289 | the node found has the least size of at least nb over all bins |
| BestFit.TmallocLarge | libopen-mx/dlmalloc.c:4243-4311 | the best fit, unless the victim fits at least as well or nothing fits |
| BestFit.TmallocSmall | libopen-mx/dlmalloc.c:4314-4346 | the smallest chunk of the first bin is the best fit for a small request |
| Filing.InsertSmallOk | libopen-mx/dlmalloc.c:3470-3486 | exactly one more chunk is on file and the bitmap stays exact |
| Filing.UnlinkSmallOk | libopen-mx/dlmalloc.c:3489-3525 | exactly one chunk fewer is on file and the bitmap stays exact |
| Filing.InsertLargeOk | libopen-mx/dlmalloc.c:3543-3590 | the same for the tree bins |
| Filing.UnlinkLargeOk | libopen-mx/dlmalloc.c:3611-3680 | the same for the tree bins |
| Filing.HomeBin | libopen-mx/dlmalloc.c:3288-3322 | a size is filed only in the bin its index names |
| HeapLayout.FreeNext | libopen-mx/dlmalloc.c:3165-3186 | a free chunk lies between chunks in use, and the next one holds its size |
| HeapLayout.OccupyLayout | libopen-mx/dlmalloc.c:2971-2973 | handing out a whole chunk keeps tiling and tags and makes exactly it live |
| HeapLayout.SplitLayout | libopen-mx/dlmalloc.c:2976-2977 | splitting a chunk keeps tiling and tags; front live, rest free |
| HeapLayout.SplitTopLayout | libopen-mx/dlmalloc.c:5196-5201 | cutting top keeps tiling and tags |
| HeapLayout.ReleaseLayout | libopen-mx/dlmalloc.c:2209-2215 | merging a freed chunk with its free neighbours keeps tiling and tags and no two free chunks touch |
| HeapLayout.ReleaseTopLayout | libopen-mx/dlmalloc.c:5265-5275 | merging into top keeps tiling and tags |
| HeapLayout.Tiling | libopen-mx/dlmalloc.c:3324-3352 | every byte of the segment lies in exactly one chunk |
| Heaps.TakeWhole | libopen-mx/dlmalloc.c:5120-5130 | taking a filed chunk whole keeps the heap invariant |
| Heaps.SplitToVictim | libopen-mx/dlmalloc.c:5133-5157 | splitting a filed chunk and replacing the victim keeps it |
| Heaps.SplitToFile | libopen-mx/dlmalloc.c:4291-4308 | splitting a filed chunk and filing the rest keeps it |
| Heaps.Merged | libopen-mx/dlmalloc.c:5277-5308 | a freed run becomes one free chunk, victim or on file, and exactly the freed chunk is no longer live |
| Heaps.MergedTop | libopen-mx/dlmalloc.c:5265-5275 | the same when the run joins top |
| Heaps.LiveApart | libopen-mx/dlmalloc.c:3154-3163 | chunks in use are disjoint and below top |
| Heaps.AllFreed | libopen-mx/dlmalloc.c:3355-3385 | with nothing in use the whole segment is top and no chunk is on file |
| Mspaces.NeedFacts | libopen-mx/dlmalloc.c:2150-2162 | the padded size is small exactly for small requests, and fails for those that are too large |
| Mspaces.NeedLeast | libopen-mx/dlmalloc.c:2150-2162 | it is the least aligned chunk size that holds the request and its overhead |
| Mspaces.FromSmallBin | libopen-mx/dlmalloc.c:5116-5143 | what the small bitmap says about the sizes on file |
| Mspaces.FromTries | libopen-mx/dlmalloc.c:5160-5172 | if no small chunk fits, the best of the tries is the best on file |
| Mspaces.Mspace.constructor | libopen-mx/dlmalloc.c:5048-5060 | a new space is one top chunk with nothing live |
| Mspaces.Mspace.UnlinkChunk | libopen-mx/dlmalloc.c:3688-3690 | exactly the chunk leaves the files |
| Mspaces.Mspace.InsertChunk | libopen-mx/dlmalloc.c:3684-3686 | exactly the chunk joins the files |
| Mspaces.Mspace.TakeFirst | libopen-mx/dlmalloc.c:5120-5130 | the first chunk of a small bin is handed out |
| Mspaces.Mspace.CarveToVictim | libopen-mx/dlmalloc.c:5133-5157 | the front is handed out, the rest becomes the victim |
| Mspaces.Mspace.CarveToFile | libopen-mx/dlmalloc.c:4291-4308 | the front is handed out, the rest is filed |
| Mspaces.Mspace.FromVictim | libopen-mx/dlmalloc.c:5176-5193 | the victim is split or exhausted |
| Mspaces.Mspace.FromTop | libopen-mx/dlmalloc.c:5196-5205 | top is cut |
| Mspaces.Mspace.MallocSmall | libopen-mx/dlmalloc.c:5113-5165 | small requests: an exact or next bin, else the best on file when the victim does not fit |
| Mspaces.Mspace.MallocLarge | libopen-mx/dlmalloc.c:5166-5173 | large requests: the best on file unless the victim fits as well |
| Mspaces.Mspace.Malloc | libopen-mx/dlmalloc.c:5104-5209 | heap invariant kept; the chunk is new, aligned, holds the bytes and their overhead and little more; refused only if no free chunk can hold them and top cannot be cut; best fit for large requests, top only if nothing else fits |
| Mspaces.Mspace.ConsolidateForward | libopen-mx/dlmalloc.c:5263-5308 | the run joins top, the victim or a filed neighbour, or is filed |
| Mspaces.Mspace.Free | libopen-mx/dlmalloc.c:5218-5317 | heap invariant kept; exactly the freed chunk is no longer live |

## Left out

- Connect handshake, session changes and partner cleanup; packets of other sessions appear only as packets that change nothing.
- Runs in which a packet or an ack is older than the exact limits of `Reception.StaleExactly` and `Emission.StaleAck`: such a packet is taken for an early one and such an ack for a new one, so the protocol theorems do not cover them.
- Progress: that one arrival drains all contiguous early packets is not claimed, since the bound of the drain loop is computed once.
- ioctl, mmap, the kernel driver and its event writer; a post may fail and the driver may write its events in any order.
- Intrusive lists are sequences, except the send queue chain and the rings and trees of large chunks, which are modelled as links.
- Fragments.MediumRoundTrip: the received fragments are a set; the source's 32-bit mask is that set exactly up to 32 fragments, see `FragMasks.MaskIsSet`, which is the default limit (libopen-mx/omx_types.h:470) but not the largest that can be configured.
- TrieLinks.TreeBin.UnlinkLarge: one bin at a time, without the runtime checks that abort on corrupted pointers; `Filing` and what builds on it use the trees as values.
- Credits: the endpoint is a state machine over values, not a class; the source's calls are sequences of its steps.
- Requests: connect requests and partner cleanup are not among the operations, so the connect and internal-done queues are missing; the zombie counter appears only as the question whether there is room for another.
- Matchers.Matcher.TryMatch: the handler's receives are posted through the same operation; other calls it could make are not modelled, nor are probe and peek.
- Regions: the free chain is a sequence, the region sequence number of rendezvous messages is not modelled, addresses and use counts do not wrap, and a list element that is removed twice is removed once.
- Segments.TransferVectorial: truncated vectorial reception and matching a vectorial receive midway through reception, where the source's scan can leave the segments.
- Failed posts inside the fragment loops of a medium send beyond counting the fragments posted, and the direct copy between two segment lists.
- The allocator on one fixed segment in the release configuration: no sys_alloc, trim, direct mmap, realloc, memalign, locks, footers or assembly index macro. `Mspaces.Mspace.Malloc` returns nothing where the source would call sys_alloc. Words of a chunk that hold user data are not represented.
- Time-sortedness of the endpoint's queue of non-acked requests, which does not hold in the source.
