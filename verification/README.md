# Protocol and data-structure models

Dafny models of the media library's hardest parts, and proofs of what they are for: the red-black tree, the
RTMP chunk stream, the HTTP/1.x parser, the key protocol of the I/O queue, the AMF0 codec, the FIFO allocator,
the H.264/H.265 packetiser and three block ciphers.  Code that computes values is modelled by functions; code
that changes things in place is modelled by methods on arrays and objects, and each such method is proved
against the function that the theorems are about.

All files verify together: `dafny verify dfyconfig.toml`.

## Main results

**Red-black tree** (`RedBlackModel`, `RedBlackLinks`, `RedBlackHeap`, `RedBlackRuns`; oslib/src/rbtree.c).
The pointer code on linked nodes with one shared sentinel computes the tree functions, for rotations, both
fix-up loops, insertion, removal, search and traversal.  After any run of calls the tree lists exactly the
abstract table in key order.  Insertion keeps the tree red-black; removal keeps it so exactly when
`ErasesSafely` holds, a test of the spliced node's colour, its child and the colour it takes over; and runs of
such calls end in a tree of logarithmic height.

**RTMP chunk stream** (`RtmpChunks`, `RtmpRoundTrip`, `RtmpWire`, `RtmpStreams`, `RtmpWriter`, `RtmpReader`,
`RtmpTransfer`; rtmp_lib/rtmp.c).  A message is read back exactly when `ComesThrough`, which the sender can
check beforehand.  From the flat bytes of any number of such messages, on any mixture of channels, the reader
finds the chunk borders by itself and returns exactly these messages in the order in which they were sent; and
of chunks of several channels that are interleaved in any way it returns for each channel its messages in order.
The writer builds its headers in place, over body bytes already sent, and still emits the bytes of the value
model; writer, bytes and reader are put together in `Transfer`, which leaves both ends in step for more.

**HTTP parser** (`HttpModel`, `HttpRuns`, `HttpCuts`, `HttpSound`, `HttpExecute`, `HttpBodies`, `HttpMethods`,
`HttpFields`, `HttpLength`, `HttpDeclared`, `HttpChunks`; http/src/http_parser.c).  However the input is cut into
buffers, the parser ends up the same, stops at the same byte for the same reason, and gives the same events once
adjacent data callbacks are joined.  The loops over whole runs of header and body bytes refine stepping byte by
byte.  No assertion of the `switch` fires on any input.  Over any run, told from the callbacks alone: the body
bytes given for a message are as many as the value of the field named "content-length" says, or as the chunk
headers announced, trailers or not; and the field names the parser acts on are recognised exactly.  Of all words
in front of a blank, just the 34 method names are accepted, each as itself.

**I/O queue** (`IoQueueModel`, `IoQueueReports`, `IoQueue`; ioqueue/src/ioqueue_epoll.c).  In every
interleaving of registering, unregistering, polling and dispatching threads a key is in exactly one list, its
reference count is one for a registration that still holds it and one for each collected event, it is not
registered again while such an event is outstanding, and none of the code's assertions fails but the one named
under Findings.  An event that is collected less than 500 ms after `epoll_wait` returned it is dispatched for the
registration it was returned for.

**AMF0** (`AmfModel`, `AmfRoundTrip`, `AmfCodec`; rtmp_lib/amf.c).  Every nested value whose object members
have names and are not null is decoded to itself; it is encoded in full exactly when there is the room `Need`
says, which is at most two bytes more than the encoding takes; nothing is written behind the end of the buffer;
and where `long` has 64 bits, decoding always ends, uses no more than there is and depends on nothing outside its
buffer.

**FIFO allocator** (`FifoBuffer`; oslib/src/fifobuf.c).  Blocks handed out never overlap, across the wrap and the
gap; unless a size wraps, an allocation succeeds exactly when the size that is reported as largest admits it; of
the live blocks exactly the oldest and one at the start of the buffer can be freed.

**RTP packets** (`RtpFragments`, `RtpEncoder`; rtsp_lib/rtp_enc.c).  Reassembly gives back the NAL unit
exactly when the buffers suffice and the unit is not `Misread`; marker, start and end bits and the sequence
numbers modulo 2^16 are right.

**Ciphers** (`Ciphers`; rtmp_lib/handshake.h, rtmp.c).  Blowfish, XTEA and block TEA are undone by their
inverses for every key and block, and the in-place code computes them.

## Findings

Properties one would expect and the code does not have, each with the exact condition, proved for all inputs,
and what happens where it fails.

- Removal can lose the balance (oslib/src/rbtree.c:326, 342-343).  The fix-up is skipped when the child of the
  spliced node is the sentinel, and the colour tested is the one the successor has taken over.  The tree stays
  red-black exactly when `RedBlackModel.ErasesSafely` holds (`EraseRedBlack`); `RedBlackRuns.LeafRun` and
  `RedPlaceRun` are runs from the empty tree that end in trees which are not red-black.  The contents are right
  in every case.
- A repeated RTMP timestamp is read wrong (rtmp_lib/rtmp.c:3944-3946 against 3735-3738).  A message with the
  timestamp, size and type of the one before goes out without a header, and the reader adds the previous
  timestamp field once more.  The exact condition is `RtmpRoundTrip.ComesThrough`
  (`MessageComesThrough`); after a full header it comes to a timestamp of 0 (`RtmpStreams.RepeatedTimestamp`).
- The free list can be empty where it is asserted not to be (ioqueue/src/ioqueue_epoll.c:163).  The test of
  `count` does not see keys that wait for their delay.  The assertion holds exactly when fewer keys than the
  maximum are open or lingering (`IoQueueModel.FreeKeyExactly`); one key is enough to break it
  (`FreeListCanBeEmpty`).
- An unnamed AMF number whose bytes begin like the end mark ends the list it is in (rtmp_lib/amf.c:1192).  A
  list is read in full exactly when it has no such number (`AmfRoundTrip.ListReads`).
- A null AMF property is written without its name (rtmp_lib/amf.c:371-374), so that a named property is read
  back exactly when it is not null: `AmfRoundTrip.NameKept`.
- An AMF object whose member does not fit is not refused but cut short (rtmp_lib/amf.c:900-913).  A property is
  encoded in full exactly when the room is at least `AmfRoundTrip.Need` (`EncodedInFull`), and any other result
  is shorter; `RoomRunsOut` is what can come of less.
- A NAL unit of type 28, or 49 for H.265, that fits one packet is sent whole, and a receiver takes it for a
  fragment (rtsp_lib/rtp_enc.c:77-82).  This is the only loss: `RtpFragments.ReassemblyIsExact`.
- Bytes from 128 on are taken for the digit 0 at the start of a chunk size and inside it
  (http/src/http_parser.c:224-233, 1930, 1952), against section 4.1 of RFC 7230: the table is initialised for
  half of its entries.  `HttpBodies.SizeBytesTaken` says which bytes are taken, in both places.
- `FIFO_Free` accepts a free out of order when the block stands at the start of the buffer
  (oslib/src/fifobuf.c:133-136).  The order is enforced exactly when there are not older blocks up to the gap
  and newer ones from the start (`FifoBuffer.OrderIsEnforced`).  Where it is not, the oldest block, still live,
  comes to lie in free space (`FreeTooEarly`); `EarlyFreeRun` reaches it in 24 bytes.
- An event can be dispatched for a registration that it was not returned for (ioqueue/src/ioqueue_epoll.c:352
  against 378): no lock is held in between.  It takes the delay of 500 ms or more
  (`IoQueueReports.ReportsMeetTheirRegistration`), and just the delay is enough (`LateEvent`).
- After a start code of three bytes the packetiser takes one of four away as well (rtsp_lib/rtp_enc.c:48-55).
  The unit behind a start code is found exactly when that does not happen (`RtpEncoder.StartCodeGoes`).
- Where `long` has 32 bits, as on the Hi3518E that CMakeLists.txt:6 builds for, a long string may say that it has
  2^31 bytes or more (rtmp_lib/amf.c:760).  When exactly that is let through is `AmfRoundTrip.StringWidth`; with
  0xFFFFFFFB `AMF_Decode` does not end (`EndlessString`), and the four bytes may even lie behind the buffer.
  Without such a length decoding is as for 64 bits (`AllWidth`).
- Where `size_t` has 32 bits, sizes from 2^32-4 on wrap in `FIFO_Alloc` (oslib/src/fifobuf.c:67, 83), and a block
  of 0 to 3 bytes is handed out: exactly when is `FifoBuffer.GrantedWithoutRoom`.

## Model

| member | source | states |
|---|---|---|
| RedBlackModel.InsertFixupRedBlack | oslib/src/rbtree.c:52-102 | from any position where at most the new red node and its parent clash, the loop ends in a red-black tree |
| RedBlackModel.EraseRedBlack | oslib/src/rbtree.c:294-349 | removal from a red-black tree leaves one if and only if `ErasesSafely` holds |
| RedBlackModel.EraseInorder | oslib/src/rbtree.c:294-349 | removal takes exactly the node's entry out of the in-order listing, whatever the colours |
| RedBlackModel.EraseCanUnbalance | oslib/src/rbtree.c:342-343 | the smallest tree whose balance a removal breaks |
| RedBlackRuns.RunRepresents | oslib/src/rbtree.c:235-349 | after any run of insertions and removals the tree lists exactly the abstract table in key order |
| RedBlackRuns.ApplyRedBlack | oslib/src/rbtree.c:235-349 | one call keeps a red-black tree red-black if and only if it is gentle: an insertion, a missing key, or a safe removal |
| RedBlackRuns.GentleRunsAreRedBlack | oslib/src/rbtree.c:235-349 | runs of gentle calls end in a red-black tree whose size is at least exponential in half its height |
| RedBlackRuns.InsertRunsAreRedBlack | oslib/src/rbtree.c:235-275 | any run of insertions ends in a red-black tree of logarithmic height |
| RedBlackRuns.LeafRun | oslib/src/rbtree.c:342-343 | a run from the empty tree after which a removed black leaf has cost the balance |
| RedBlackRuns.RedPlaceRun | oslib/src/rbtree.c:326-343 | a run in which a black node takes a red node's place and colour and is not repaired |
| RedBlackHeap.RBTree.constructor | oslib/src/rbtree.c:167-177 | an initialised tree is valid and empty, with a black sentinel of its own |
| RedBlackHeap.RBTree.LeftRotate | oslib/src/rbtree.c:5-27 | the pointer code rotates the tree at that position and keeps every other link; without a right child nothing changes |
| RedBlackHeap.RBTree.RightRotate | oslib/src/rbtree.c:28-50 | the mirror image |
| RedBlackHeap.RBTree.FixInsert | oslib/src/rbtree.c:52-102 | the loop over linked nodes ends in the tree of `InsertFixup` |
| RedBlackHeap.RBTree.Insert | oslib/src/rbtree.c:235-275 | refuses just the keys that are there, and otherwise links the node into the tree of `Insert`; keys stay |
| RedBlackHeap.RBTree.FixDelete | oslib/src/rbtree.c:105-164 | the loop ends in the tree of `DeleteFixup`, the sentinel's colour, which it reads and writes, included |
| RedBlackHeap.RBTree.Erase | oslib/src/rbtree.c:294-349 | unlinks exactly the node given and leaves the tree of `EraseAt` |
| RedBlackHeap.RBTree.First | oslib/src/rbtree.c:179-186 | the first of the listing, or nothing of an empty tree |
| RedBlackHeap.RBTree.Next | oslib/src/rbtree.c:197-214 | the node behind the given one in the listing, or nothing behind the last |
| RedBlackHeap.RBTree.Find | oslib/src/rbtree.c:278-292 | a node with the key, if and only if the listing has the key |
| RedBlackHeap.RBTree.HeightMax | oslib/src/rbtree.c:352-362 | the height, logarithmic in the size when the tree is red-black |
| RtmpRoundTrip.MessageComesThrough | rtmp_lib/rtmp.c:3561-4130 | reading each chunk of a sent message to its exact end returns the message if and only if `ComesThrough` |
| RtmpStreams.RepeatedTimestamp | rtmp_lib/rtmp.c:3944-3946 | after a message with a full header, one with the same timestamp, size and type is read back if and only if the timestamp is 0 |
| RtmpWire.MoreInput | rtmp_lib/rtmp.c:3561-3752 | a call reads the same chunk when more bytes follow, and leaves them |
| RtmpWire.WireReads | rtmp_lib/rtmp.c:3561-3752 | what is read from chunks handed over one by one is read from their concatenation |
| RtmpStreams.ChunkIsLocal | rtmp_lib/rtmp.c:3561-3752 | a chunk's effect depends on its own channel's tables only, and changes no other channel's |
| RtmpStreams.MessagesRead | rtmp_lib/rtmp.c:3561-4130 | from the flat bytes of any run of messages that come through, on any channels, the reader returns exactly these in the order sent, and both ends stay in step |
| RtmpStreams.InterleavedMessagesRead | rtmp_lib/rtmp.c:3561-4130 | of any interleaving of the chunks of several channels' messages, written as one byte stream, each channel gets exactly its messages in order |
| RtmpWriter.Writer.NextInPlace | rtmp_lib/rtmp.c:4070-4098 | a continuation header written over bytes already sent stands right in front of the rest of the body, which is intact |
| RtmpWriter.Writer.SendChunks | rtmp_lib/rtmp.c:4047-4099 | the loop over the buffer that it overwrites emits header and body cut into chunks, nothing lost or doubled |
| RtmpWriter.Writer.SendPacket | rtmp_lib/rtmp.c:3907-4130 | emits exactly the chunks of the value model and keeps the message for the next compression |
| RtmpReader.Receiver.ReadPacket | rtmp_lib/rtmp.c:3561-3752 | consumes the input and changes the channel tables as the value model says, in success, refusal and overrun |
| RtmpReader.Receiver.ReadStream | rtmp_lib/rtmp.c:1190-1200 | the loop over calls collects the complete messages of the flat input |
| RtmpTransfer.Transfer | rtmp_lib/rtmp.c:3561-4130 | what the writer object puts on the wire, on any channels, the reader object turns back into exactly the messages in the order sent, and both can go on |
| HttpRuns.SwitchIsTidy | http/src/http_parser.c:690-2050 | in every state at most one data span is open, and a pass does the same from the open spans as from those a new call marks |
| HttpCuts.FeedIsBytewise | http/src/http_parser.c:638-2083 | any cutting into buffers gives the parser, fate, byte count and joined events of one call per byte |
| HttpCuts.SplitInvariance | http/src/http_parser.c:638-2083 | two cuttings of the same bytes cannot be told apart |
| HttpSound.StepKeepsSound | http/src/http_parser.c:690-2050 | no assertion or impossible state is met by a byte, no length wraps, and the next byte finds the same |
| HttpSound.RunsKeepSound | http/src/http_parser.c:638-2083 | the same over all runs of any bytes in any buffers |
| HttpExecute.HttpParser.constructor | http/src/http_parser.c:2148-2156 | an initialised parser has no error and has given no events |
| HttpExecute.HttpParser.RunField | http/src/http_parser.c:1248-1382 | the loop over a field name ends where the byte steps do, with the same matching state, or fails as they do |
| HttpExecute.HttpParser.RunGeneral | http/src/http_parser.c:1500-1516 | the inner loop over a value without meaning stops where the byte steps stop |
| HttpExecute.HttpParser.RunValue | http/src/http_parser.c:1469-1668 | the loop over a field value refines the byte steps, the count of header bytes included |
| HttpExecute.HttpParser.BodyBytes | http/src/http_parser.c:1873-1908 | taking a whole run of body bytes at once refines taking them one by one |
| HttpExecute.HttpParser.Execute | http/src/http_parser.c:638-2083 | a call with its loops has the events, parser, fate and count of the byte steps; after an error it does nothing |
| HttpExecute.HttpParser.ExecuteAll | http/src/http_parser.c:638-2083 | any number of calls on any buffers are one call for every byte of the whole input |
| HttpBodies.IdentityBody | http/src/http_parser.c:1873-1908 | exactly the first `contentLength` bytes go to `on_body`, then the message is complete |
| HttpBodies.ChunkedBody | http/src/http_parser.c:1925-2045 | of any well-formed chunks the callbacks get exactly the chunk data, chunk by chunk, then the message is complete |
| HttpBodies.ChunkBytesGiven | http/src/http_parser.c:1925-2045 | the body bytes among these callbacks are the concatenated chunk data |
| HttpBodies.LengthRead | http/src/http_parser.c:1529-1557 | length digits are read as the number they write, without wrapping, or refused just when the limit is passed before the last digit |
| HttpBodies.SizeBytesTaken | http/src/http_parser.c:1925-1970 | a byte is taken for a digit of a chunk size, first or later, if and only if it is hexadecimal or at least 128, and counts as 0 then |
| HttpDeclared.DeclaredLength | http/src/http_parser.c:638-2083 | over any run from initialisation, between two messages the body bytes given since the headers number what the value given for the field "content-length" says, or a CONNECT hands the body on |
| HttpDeclared.FieldsAreKnown | http/src/http_parser.c:1248-1382 | over any run, where a name has ended the parser takes the field for one it knows if and only if the name given is that one, in either case |
| HttpFields.MatchedNext | http/src/http_parser.c:1265-1367 | a character more keeps the matching state in step with the name read so far |
| HttpFields.FieldIsExact | http/src/http_parser.c:1200-1382 | a matching state in step with a name is that of a known field if and only if the name is that field's |
| HttpChunks.ChunksAreGiven | http/src/http_parser.c:1925-2045 | over any run, between two messages the body bytes of a chunked one, with or without trailers, number what the chunk headers announced |
| HttpLength.CallBooks | http/src/http_parser.c:1529-1557 | every call keeps length read, digits and bytes given in balance, in all states |
| HttpMethods.GuessSpells | http/src/http_parser.c:920-1014 | the bytes read always are a beginning of the method assumed |
| HttpMethods.MethodIsExact | http/src/http_parser.c:920-1014 | just the 34 names lead on to the URL, each with the method it names; every other word is refused |
| HttpMethods.BothIsExact | http/src/http_parser.c:720-761 | a parser for both types takes every word that does not begin like a response as one for requests does, "HEAD" by a branch of its own |
| IoQueueModel.NextKeeps | ioqueue/src/ioqueue_epoll.c:113-471 | every step of every thread keeps the invariant |
| IoQueueModel.RunsKeepInv | ioqueue/src/ioqueue_epoll.c:113-471 | in every interleaving the invariant holds |
| IoQueueModel.KeyLife | ioqueue/src/ioqueue_epoll.c:228-333 | in every reachable state a key is in one list, its count is its registration plus its outstanding events, and it is active just while that is not 0 |
| IoQueueModel.EventsMeetTheirRegistration | ioqueue/src/ioqueue_epoll.c:376-471 | a collected event is dispatched and released for the registration its key had when it was collected |
| IoQueueReports.ReportsMeetTheirRegistration | ioqueue/src/ioqueue_epoll.c:352-471 | in every interleaving, an event collected less than the delay after `epoll_wait` returned it is for the registration it was returned for |
| IoQueueReports.MovesAreFree | ioqueue/src/ioqueue_epoll.c:352-471 | the conditions of the steps shut out no look at a returned event and no release of a collected one |
| IoQueueReports.LateEvent | ioqueue/src/ioqueue_epoll.c:352-378 | a run in which an event collected just the delay later is dispatched for the next registration |
| IoQueueModel.ReuseWaits | ioqueue/src/ioqueue_epoll.c:309-333 | a used key is registered again no sooner than the delay after its last reference, with no event outstanding |
| IoQueueModel.AssertionsHold | ioqueue/src/ioqueue_epoll.c:228-333 | the assertions of the counter, the closing list and unregistration hold in every reachable state |
| IoQueueModel.FreeKeyExactly | ioqueue/src/ioqueue_epoll.c:130-170 | behind the test of `count`, a free key is found if and only if fewer keys than the maximum are open or lingering |
| IoQueueModel.FreeListCanBeEmpty | ioqueue/src/ioqueue_epoll.c:163 | a run with one key after which the assertion fails |
| IoQueue.Queue.constructor | ioqueue/src/ioqueue_epoll.c:34-81 | a created queue has all its keys free and satisfies the invariant |
| IoQueue.Queue.ScanClosingKeys | ioqueue/src/ioqueue_epoll.c:309-333 | the loop over the closing list, which it shortens, frees exactly the keys whose delay is over, in order |
| IoQueue.Queue.Register | ioqueue/src/ioqueue_epoll.c:113-212 | the object changes by the protocol's registration step, for each of its outcomes |
| IoQueue.Queue.DecrementCounter | ioqueue/src/ioqueue_epoll.c:234-250 | the count goes down, and at 0 the key moves to the closing list with its time |
| IoQueue.Queue.Unregister | ioqueue/src/ioqueue_epoll.c:253-305 | runs the protocol's steps in their order, or only the test when the key is closing already |
| IoQueue.Queue.Collect | ioqueue/src/ioqueue_epoll.c:376-433 | the loop over ready events takes a reference for each it queues, by protocol steps, and queues only active keys |
| AmfRoundTrip.ValueReads | rtmp_lib/amf.c:618-796 | a value encoded anywhere in memory is decoded to itself, using exactly its bytes |
| AmfRoundTrip.EncodedInFull | rtmp_lib/amf.c:365-420 | a property is encoded in full if and only if the room is at least its need, and any other result is shorter |
| AmfRoundTrip.NeedIsLittle | rtmp_lib/amf.c:365-420 | the need is at most two bytes more than the encoding takes, however deep the nesting |
| AmfRoundTrip.RoundTrip | rtmp_lib/amf.c:365-796 | encoding with just the room needed and decoding gives back the property |
| AmfRoundTrip.NameKept | rtmp_lib/amf.c:371-374 | a named property is read back if and only if it is not null |
| AmfRoundTrip.PropInRoom | rtmp_lib/amf.c:365-420 | an encoding that succeeds is not longer than the room |
| AmfRoundTrip.RoomRunsOut | rtmp_lib/amf.c:890-921 | what less room can lead to: an object whose first member does not fit is encoded as the empty object |
| AmfRoundTrip.AllIsLocal | rtmp_lib/amf.c:1179-1231 | where `long` has 64 bits, decoding, an error included, depends on nothing outside its buffer |
| AmfRoundTrip.StringWidth | rtmp_lib/amf.c:755-767 | the width of `long` matters for a string if and only if its length is negative in 32 bits and passes the test of the size |
| AmfRoundTrip.AllWidth | rtmp_lib/amf.c:618-796 | without a length of 2^31 or more behind a long string's type byte, decoding is the same for both widths |
| AmfRoundTrip.EndlessString | rtmp_lib/amf.c:760 | a length of 0xFFFFFFFB uses no byte with 32 bits, so the loop stays where it is, and is an error with 64 |
| AmfRoundTrip.ListReads | rtmp_lib/amf.c:1179-1231 | a list without names is read in full if and only if no number in it looks like the end mark |
| AmfModel.DecodeAll | rtmp_lib/amf.c:1179-1231 | a result uses no more bytes than there are, and where `long` has 64 bits decoding always gets on to a result or an error |
| AmfCodec.EncodePropTo | rtmp_lib/amf.c:365-420 | the moving output pointer writes exactly the encoding, nothing outside it, and is null when there is no room |
| AmfCodec.EncodeListTo | rtmp_lib/amf.c:890-991 | the loops over members, with and without an end mark, write exactly what the value model says |
| AmfCodec.DecodePropFrom | rtmp_lib/amf.c:618-796 | the code with its early returns computes the value model's result, for either width of `long` |
| AmfCodec.DecodeFrom | rtmp_lib/amf.c:1179-1231 | the loop to the end mark computes the recursive decoding |
| AmfCodec.DecodeArrayFrom | rtmp_lib/amf.c:993-1030 | the counted loop computes the recursive decoding |
| FifoBuffer.BlocksApart | oslib/src/fifobuf.c:55-96 | in every layout the live blocks lie in the buffer and share no byte |
| FifoBuffer.PayloadIsTheirs | oslib/src/fifobuf.c:55-96 | nothing holders write into their blocks touches a size |
| FifoBuffer.AcceptedBlocks | oslib/src/fifobuf.c:122-156 | a live block can be freed if and only if it is the oldest or stands at the start of the buffer |
| FifoBuffer.OrderIsEnforced | oslib/src/fifobuf.c:133-136 | every block but the oldest is refused if and only if there are not older blocks up to the gap and newer ones from the start |
| FifoBuffer.FreeTooEarly | oslib/src/fifobuf.c:122-156 | where the order is not enforced, the pointers after the early free leave the oldest block in free space |
| FifoBuffer.EarlyFreeRun | oslib/src/fifobuf.c:55-156 | a run in 24 bytes after which all is free for the allocator while two blocks are live |
| FifoBuffer.Fifo.constructor | oslib/src/fifobuf.c:31-39 | an initialised allocator is empty and has the whole buffer |
| FifoBuffer.Fifo.GetMaxSize | oslib/src/fifobuf.c:41-53 | the size reported is the specification's for all positions of the pointers |
| FifoBuffer.GrantedWithoutRoom | oslib/src/fifobuf.c:67-83 | a block is handed out without room for the size asked for if and only if the size wraps with its header and the rest of it fits |
| FifoBuffer.Fifo.Alloc | oslib/src/fifobuf.c:55-96 | succeeds if and only if the size with its header, wrapped or not, is at most the size reported; says where the block stands, where the pointers go and which bytes are written; unwrapped, there is one block more |
| FifoBuffer.Fifo.Free | oslib/src/fifobuf.c:122-156 | says exactly which pointers are accepted and where the positions go; the oldest block is always accepted and exactly it goes |
| RtpFragments.ReassemblyIsExact | rtsp_lib/rtp_enc.c:39-189 | the packets give back the NAL unit if and only if the buffers suffice and it is not misread; otherwise nothing |
| RtpFragments.SignsAreRight | rtsp_lib/rtp_enc.c:39-189 | the marker is on the last packet only; the start bit on the first fragment only, the end bit on the last only |
| RtpEncoder.StartCodeGoes | rtsp_lib/rtp_enc.c:48-56 | behind a start code the unit is found if and only if the code is of four bytes or no other of four follows it |
| RtpEncoder.Encoder.Encode | rtsp_lib/rtp_enc.c:39-189 | fills the buffers with exactly the packets, headers with consecutive sequence numbers, and leaves the other sizes |
| Ciphers.BlowfishUndone | rtmp_lib/handshake.h:603-627 | encryption is undone by itself with the round keys reversed, for all boxes and keys |
| Ciphers.XteaUndone | rtmp_lib/handshake.h:337-362 | any number of rounds is undone by the rounds backwards |
| Ciphers.BlockUndone | rtmp_lib/rtmp.c:4394-4411 | the block TEA decoder inverts the encryption, for every key and block length from 2 |
| Ciphers.SumIsNotZero | rtmp_lib/rtmp.c:4402-4403 | the running sum reaches 0 for no smaller number of rounds, so the loop runs all of them |
| Ciphers.BfEnc | rtmp_lib/handshake.h:603-627 | the in-place loop computes the Feistel function and changes only two words |
| Ciphers.Rtmpe8Sig | rtmp_lib/handshake.h:337-362 | the bytes written are those of the 32 rounds |
| Ciphers.DecodeBlock | rtmp_lib/rtmp.c:4394-4411 | the loop until the sum is 0 computes all rounds of the decoder in place |

## Left out

- Memory pools (aki_buffer.c), the hash table, the dictionary, XML and configuration code, RTSP sessions: smaller or easier than what is here.
- RBTREE_Last, RBTREE_Prev and RBTREE_HeightMin: mirror images; the key comparison callback is the order of the integers, and the tree's size is unbounded.
- RTMPT, the queue of pending invocations, raw chunk capture and failed allocations; the channel arrays are maps.
- RTMP control messages between the messages of `Transfer`, a chunk size changed in the middle of a message among them.
- The handshake's digest offsets, key exchange and RC4; key schedules of the ciphers: tables and round keys are any functions.
- AmfModel.DecodeAll: decoding that does not get on is one outcome, `Astray`; what the code makes of going back over bytes is not described, nor of a sum with a length just below 2^31 that overflows a `long` of 32 bits.
- AmfRoundTrip.ValueReads: object members have non-empty names of less than 65536 bytes and are not null, the elements of strict arrays no names, and lengths are below 2^31.
- The switch to AMF3 (type 17): taken as a decoding error.  A number is its eight bytes, not a real.
- HTTP callbacks that fail, pause or ask to skip a body, `http_parser_parse_url`, and the parser fields after an error.
- HttpBodies.ChunkedBody: chunks are followed by no trailer fields; with them, `HttpChunks.ChunksAreGiven` counts the bytes but does not say which.
- HttpBodies.ChunkedBody: says nothing of chunk sizes within 16 of 2^64, which are refused, nor of chunk headers over the header limit.
- HttpExecute.HttpParser.Execute: the buffer and the header limit together are below 2^32, since the 32-bit count of header bytes (http/src/http_parser.c:151-158) wraps for larger ones; what the fields and events are after an error is not said.
- HttpExecute.HttpParser.RunGeneral: its bound passes over one byte unread when a value is longer than the header limit; the count has failed by then, so it is harmless.
- HttpModel: the states of the `switch` are functions from parser record to parser record, not assignments; the object is changed in place by `Execute` and its loops.
- IoQueueReports.ReportsMeetTheirRegistration: an event may still meet its registration when it is collected later; the bound is shown to be exact by `LateEvent`.
- IoQueueModel: system calls that fail, dispatching (it has no effect on the protocol), and the wrap of the reference count; what epoll reports is an input.
- RtmpRoundTrip.MessageComesThrough: the only-if half concerns reading each chunk to its exact end, not what later bytes, taken for chunks, lead to.
- FifoBuffer.Fifo.Free: after an accepted free out of order the object is no longer valid, and later calls are not described; a pointer within 3 bytes of the buffer's end, whose size lies partly outside, is excluded.
- FifoBuffer.Fifo.Alloc: after a size that has wrapped the object is no longer valid, and what is written behind the buffer's end is not in the model.
- FIFO_Unalloc, and FIFO buffers of 4 GiB or more.
- RtpEncoder.Encoder.Encode: a fragment is never put into a buffer without room for the fragment header, since the copy length in the code is then negative; null arguments are not modelled.
- RTP AAC, G.711 and G.726 packets.
