# SocketLite: models and proofs

SocketLite is a C++ networking library with a Thrift runtime, checksums, hashes, AES, codecs,
containers, timers and locks of its own. This project models ten of its parts in Dafny and proves
that the fast or stateful code has the simple meaning it is there for.

| part | modules | main results |
|---|---|---|
| Thrift protocols | Arithmetic, Options, ThriftTypes, CompactFormat, CompactRoundTrip, CompactSkip, CompactMessage, CompactProtocol, CompactBytes, ApplicationException, BinaryMessage | the stateful compact reader recovers every value tree from the stateful writer's bytes and restores its state; `skip` takes exactly one value; headers survive exactly for types below four; every type of field in literal bytes |
| Transports | Transport, BufferedTransport, FramedTransport, MemoryBuffer | buffering, framing and growing are invisible in the stream of bytes; over any calls in any order; exact conditions for the two assertions and for the doubling loops |
| CRC-32, CRC-32C | Bits, BitVectors, Crc, Crc32, Crc32Combine, Crc32cMask, CrcAnswers | sliced loops in both byte orders compute the polynomial CRC; `combine` is the checksum of the concatenation; residues and check values |
| AES | GaloisField, SBox, SBoxTable, AesTables, AesCipher, AesRounds, AesKeySchedule, Aes, AesEcb, AesAnswers | from the generated tables up: rounds and schedules are those of FIPS 197 and give its examples, decryption undoes encryption, the ECB wrapper gives every message back |
| Reader/writer lock | RWMutex | exclusion, the right unlock branch, writers that are not overtaken and freedom from deadlock in every interleaving; readers share the lock in any number |
| LRU hash table | LruHashtable, LruHistory | the linked nodes refine a recency sequence over every history; which keys are live, their order, size and eviction |
| SHA-256, MD5 | Words, BlockHash, Sha256, Md5, HashAnswers, Sha256Answers, Md5Answers | streaming over any cutting is the digest of the standard; unrolled rounds are its loop; the digests of "abc" |
| Adler-32 | Adler32 | deferred reduction never overflows and equals the definition, with the one exception stated exactly; `combine` |
| Timers | TimerSpec, TimerHistory, TimerQueue | order and exact expiry over every run; which timers are active after it, that a cancelled one never fires and one left alone does; two queue objects of the two kinds fire the same timers |
| Generator and codecs | MersenneTwister, MersenneAnswers, Base64, UrlCode, TextAnswers | in-place reload is the recurrence; round trips, with the exact condition where one fails; alphabet, vectors and escaped characters of the standards |

How the pieces are modelled:

- Code that changes state is a class whose methods update the fields the source updates (protocol
  state, buffers and pointers into them, linked nodes, key arrays, hash contexts); each method is
  tied to a function or relation on the old state, and lemmas say what that means. Pointers into a
  buffer are offsets from its start.
- Bytes of the protocols and transports are numbers below 256. Words of the checksums and hashes
  are sequences of 32 bits, bytes of AES records of eight bits, so that shifts and exclusive or are
  exact. 32- and 64-bit wrap-around is written out wherever the code can meet it.
- Table literals are taken as values of the recurrences they come from: the CRC tables from the
  polynomials, the AES tables from the generator in `aes_gen_tables`. The additive constants of
  SHA-256 and MD5 are written down as they stand in both standards.
- What a definition and the code that follows it could get wrong together is fixed by numbers from
  outside: residues and check values of the CRCs, the printed S-box and the examples of FIPS 197,
  digests of "abc", the first draw of the generator, literal bytes of every wire format. Words and
  bytes are tied to bit vectors for that (BitVectors, GaloisField), on which the operators of constants
  can be worked out.
- Where a property turns out not to hold of the code, the code is kept and the exact condition is
  proved: message types survive a compact header iff they are below four; the buffered write
  assertion fails iff the byte count wraps; the framed flush assertion holds iff the buffer is
  longer than four bytes; doubling a size ends iff one of its first 32 doublings is enough; Adler-32
  of an unreduced start is right iff it is not one byte past twice the base; an appending timer
  queue stays in order iff what it appends is not due before its last timer; a value tree comes back
  unchanged iff no empty map in it has types; Base64 lengths are right iff they do not wrap, and
  decoding reads before its input iff that is nothing but padding; percent-decoding undoes encoding
  iff the class escapes percent signs or there are none.
- The comments of TBufferTransports.h promise that `borrow` of at most the buffer size never
  returns null; that holds, and the model adds what happens to bytes read before an unexpected end
  of the stream (they are lost).

`dafny verify dfyconfig.toml` verifies all of it.

## Model

| member | source | states |
|---|---|---|
| CompactRoundTrip.RoundTrip | src/thrift/protocol/TCompactProtocol.cpp:84-281 | For every well-formed value tree (any nesting, any field ids in any order, booleans in headers or alone), parsing its encoding followed by any bytes gives the tree back (key and value types of empty maps excepted) and exactly those bytes left over |
| CompactRoundTrip.ExactRoundTrip | src/thrift/protocol/TCompactProtocol.cpp:447-469 | A well-formed tree comes back unchanged if and only if no empty map in it, at any depth, has key or value types to lose |
| CompactRoundTrip.ScalarRoundTrip | src/thrift/protocol/TCompactProtocol.cpp:166-234 | Booleans, bytes, integers, doubles and strings are read back from what was written, with the rest untouched |
| CompactRoundTrip.FieldsRoundTrip | src/thrift/protocol/TCompactProtocol.cpp:84-102 | A struct body written from any previous field id is read back field by field, whatever the ids and their order, up to the stop byte |
| CompactRoundTrip.FieldRoundTrip | src/thrift/protocol/TCompactProtocol.cpp:84-95 | One field: its header carries type and id, a boolean its value as well, and the value follows |
| CompactRoundTrip.FieldHeaderRoundTrip | src/thrift/protocol/TCompactProtocol.cpp:245-266 | Short (delta 1 to 15) and long headers are both decoded to the id and type they were made from, for every pair of previous and new id, wrapping around 16 bits |
| CompactRoundTrip.StopRoundTrip | src/thrift/protocol/TCompactProtocol.cpp:403-420 | The stop byte ends a struct and leaves the rest alone |
| CompactRoundTrip.CollectionHeaderRoundTrip | src/thrift/protocol/TCompactProtocol.cpp:272-281 | The one-byte form (below 15) and the varint form of list and set headers are read back |
| CompactRoundTrip.MapHeaderRoundTrip | src/thrift/protocol/TCompactProtocol.cpp:146-158 | Map headers are read back; an empty map is one zero byte and comes back without types |
| CompactRoundTrip.CollectionRoundTrip | src/thrift/protocol/TCompactProtocol.cpp:129-140 | Whole lists and sets are read back |
| CompactRoundTrip.MapRoundTrip | src/thrift/protocol/TCompactProtocol.cpp:146-158 | Whole maps are read back |
| CompactRoundTrip.BinaryRoundTrip | src/thrift/protocol/TCompactProtocol.cpp:225-234 | Length-prefixed strings within the limit are read back |
| CompactRoundTrip.Varint32RoundTrip | src/thrift/protocol/TCompactProtocol.cpp:286-301 | Every 32-bit number takes at most five bytes and is read back |
| CompactRoundTrip.Varint64RoundTrip | src/thrift/protocol/TCompactProtocol.cpp:306-321 | Every 64-bit number takes at most ten bytes and is read back |
| CompactRoundTrip.ZigZag32RoundTrip | src/thrift/protocol/TCompactProtocol.cpp:335-337 | Zigzag is undone for every i32 |
| CompactRoundTrip.ZigZag64RoundTrip | src/thrift/protocol/TCompactProtocol.cpp:327-329 | Zigzag is undone for every i64 |
| CompactRoundTrip.ZigZag32Is | src/thrift/protocol/TCompactProtocol.cpp:335-337 | Which number is sent: 2n for n from 0 on, and -2n - 1 for negative n |
| CompactRoundTrip.ZigZag64Is | src/thrift/protocol/TCompactProtocol.cpp:327-329 | The same for 64 bits |
| CompactRoundTrip.UnZigZagIs | src/thrift/protocol/TCompactProtocol.cpp:692-701 | Which number a received one stands for: half of an even one, and minus half of an odd one less 1; the 32-bit form gives the same below 2^32 |
| CompactRoundTrip.OneByteIff | src/thrift/protocol/TCompactProtocol.cpp:286-321 | A zigzag varint is one byte if and only if the number is from -64 to 63, and which byte |
| CompactRoundTrip.LittleEndianRoundTrip | src/thrift/protocol/TCompactProtocol.cpp:212-220 | The eight bytes of a double word give the word back |
| CompactRoundTrip.TypeCodeRoundTrip | src/thrift/protocol/TCompactProtocol.cpp:703-734 | The compact type codes are decoded to the types they stand for |
| CompactBytes.FieldByField | src/thrift/protocol/TCompactProtocol.cpp:84-102 | The bytes of a struct are those of its fields, each in view of the id before it, and a zero byte |
| CompactBytes.EveryTypeBytes | src/thrift/protocol/TCompactProtocol.cpp:84-281 | The literal bytes of a struct that has a field of every type, short and long headers, a delta of 15, and both values of a boolean |
| CompactBytes.MessageBytes | src/thrift/protocol/TCompactProtocol.cpp:67-76 | The literal bytes of a message header |
| CompactBytes.ExceptionBytes | src/thrift/TApplicationException.cpp:66-78 | The literal bytes of an application exception |
| CompactBytes.VarintRefused | src/thrift/protocol/TCompactProtocol.cpp:643-687 | A varint is refused as invalid if and only if ten bytes in a row have the high bit set, and meets the end of the input if and only if fewer do and nothing follows |
| CompactBytes.StringDecided | src/thrift/protocol/TCompactProtocol.cpp:594-626 | For every length: from 2^31 on it is a negative size, above a non-zero limit the size limit, beyond what follows the end of file, and otherwise those bytes are read |
| CompactBytes.ListDecided | src/thrift/protocol/TCompactProtocol.cpp:477-511 | The same decision for list and set headers with a size in full, and for the type code |
| CompactBytes.MapDecided | src/thrift/protocol/TCompactProtocol.cpp:447-469 | The same decision for map headers that are not empty, and for both type codes |
| CompactBytes.CodesDecided | src/thrift/protocol/TCompactProtocol.cpp:703-734 | The codes refused are 13, 14 and 15 |
| CompactFormat.ParseValue | src/thrift/protocol/TCompactProtocol.cpp:353-626 | The reader as a function of the bytes; a value takes at least one byte of them, so reading terminates on every byte string |
| CompactMessage.MessageRoundTrip | src/thrift/protocol/TCompactProtocol.cpp:67-76 | A message header gives back name and sequence id, and the message type modulo four, since the reader masks two type bits |
| CompactMessage.MessageTypeKept | src/thrift/protocol/TCompactProtocol.cpp:353-377 | A header comes back unchanged if and only if its message type is below four |
| CompactMessage.OneWayIsLost | src/thrift/protocol/TCompactProtocol.cpp:353-377 | The concrete failure: a one-way call (type 4) is read as type 0 |
| CompactSkip.SkipValue | src/thrift/protocol/TProtocol.h:311-407 | skip as a function of the bytes; it terminates on every byte string |
| CompactSkip.SkipAgreesWithRead | src/thrift/protocol/TProtocol.h:311-407 | Wherever a value of a type can be read, skip of that type consumes exactly the same bytes |
| CompactSkip.SkipFieldsAgrees | src/thrift/protocol/TProtocol.h:348-365 | The same for the fields of a struct |
| CompactSkip.SkipWritten | src/thrift/protocol/TProtocol.h:311-407 | skip over the encoding of any value of the type consumes exactly that encoding |
| CompactSkip.ExceptionFromFields | src/thrift/TApplicationException.cpp:25-64 | Whatever fields a peer writes, in any order and with any types, the result is the last string under id 1 and the last i32 under id 2, and exactly the struct is consumed |
| CompactProtocol.TCompactProtocol.constructor | src/thrift/protocol/TCompactProtocol.h:88-110 | A protocol starts with an empty stack, last id 0 and no pending boolean |
| CompactProtocol.TCompactProtocol.WriteVarint | src/thrift/protocol/TCompactProtocol.cpp:286-321 | The encoding loop through a fixed buffer of five or ten bytes produces the varint and never overruns the buffer |
| CompactProtocol.TCompactProtocol.WriteMessageBegin | src/thrift/protocol/TCompactProtocol.cpp:67-76 | Writes protocol id, version and type, sequence id and name; returns the bytes written |
| CompactProtocol.TCompactProtocol.WriteStructBegin | src/thrift/protocol/TCompactProtocol.cpp:109-113 | Pushes the last field id and starts from 0 |
| CompactProtocol.TCompactProtocol.StructEnd | src/thrift/protocol/TCompactProtocol.cpp:120-124 | Pops the last field id |
| CompactProtocol.TCompactProtocol.WriteFieldBeginInternal | src/thrift/protocol/TCompactProtocol.cpp:245-266 | Writes a short or long header and remembers the id |
| CompactProtocol.TCompactProtocol.WriteFieldBegin | src/thrift/protocol/TCompactProtocol.cpp:84-95 | Puts a boolean field off until its value is known, and writes every other header |
| CompactProtocol.TCompactProtocol.WriteBool | src/thrift/protocol/TCompactProtocol.cpp:166-181 | Writes a pending field header that carries the value, or one byte |
| CompactProtocol.TCompactProtocol.WriteI32 | src/thrift/protocol/TCompactProtocol.cpp:198-200 | Writes the zigzag varint |
| CompactProtocol.TCompactProtocol.WriteDouble | src/thrift/protocol/TCompactProtocol.cpp:212-220 | The eight bytes taken off the word one after another are its little-endian form |
| CompactProtocol.TCompactProtocol.WriteBinary | src/thrift/protocol/TCompactProtocol.cpp:229-234 | Writes length and bytes |
| CompactProtocol.TCompactProtocol.WriteCollectionBegin | src/thrift/protocol/TCompactProtocol.cpp:272-281 | Writes a list or set header; for sizes from 2^31 on, where the source compares a negative number, it says what byte comes out instead |
| CompactProtocol.TCompactProtocol.WriteMapBegin | src/thrift/protocol/TCompactProtocol.cpp:146-158 | Writes a map header |
| CompactProtocol.TCompactProtocol.WriteValue | src/thrift/protocol/TCompactProtocol.cpp:84-281 | Writing a whole tree appends exactly its encoding, the returned counts add up to its length, and last id, stack and pending boolean are as before |
| CompactProtocol.TCompactProtocol.WriteStruct | src/thrift/protocol/TCompactProtocol.cpp:109-124 | The same for a struct body, with the stack used at every level |
| CompactProtocol.TCompactProtocol.ReadByte | src/thrift/protocol/TCompactProtocol.cpp:534-539 | The next byte, or the end of file |
| CompactProtocol.TCompactProtocol.VarintFast | src/thrift/protocol/TCompactProtocol.cpp:651-668 | The borrowing loop with its shifts computes the parsed varint and its size |
| CompactProtocol.TCompactProtocol.VarintSlow | src/thrift/protocol/TCompactProtocol.cpp:670-686 | So does the byte-by-byte loop: hence both paths agree on value and bytes consumed |
| CompactProtocol.TCompactProtocol.ReadVarint64 | src/thrift/protocol/TCompactProtocol.cpp:643-687 | Either path gives the parsed varint, whether or not the transport can lend bytes |
| CompactProtocol.TCompactProtocol.ReadVarint32 | src/thrift/protocol/TCompactProtocol.cpp:632-637 | The same cut to 32 bits |
| CompactProtocol.TCompactProtocol.ReadMessageBegin | src/thrift/protocol/TCompactProtocol.cpp:353-377 | Reads a message header, with the bad-version errors |
| CompactProtocol.TCompactProtocol.ReadFieldBegin | src/thrift/protocol/TCompactProtocol.cpp:403-440 | Reads a field header, updates the last id, and keeps the value of a folded boolean |
| CompactProtocol.TCompactProtocol.ReadMapBegin | src/thrift/protocol/TCompactProtocol.cpp:447-469 | Reads a map header |
| CompactProtocol.TCompactProtocol.ReadCollectionBegin | src/thrift/protocol/TCompactProtocol.cpp:477-511 | Reads a list or set header |
| CompactProtocol.TCompactProtocol.ReadBool | src/thrift/protocol/TCompactProtocol.cpp:518-529 | Gives the folded boolean if there is one, and reads a byte otherwise |
| CompactProtocol.TCompactProtocol.ReadBinary | src/thrift/protocol/TCompactProtocol.cpp:594-626 | Reads a string, with its errors |
| CompactProtocol.TCompactProtocol.ReadValue | src/thrift/protocol/TCompactProtocol.cpp:353-626 | Reading a whole value moves exactly the bytes that the parser consumes, returns their number, and restores last id, stack and boolean state |
| CompactProtocol.TCompactProtocol.ReadWritten | src/thrift/protocol/TCompactProtocol.cpp:84-626 | Reader after writer: the bytes of any tree are read as that tree, with its byte count and the protocol state restored |
| CompactProtocol.TCompactProtocol.Skip | src/thrift/protocol/TProtocol.h:311-407 | skip on the stateful reader consumes what the skip function says, or no byte for a boolean that came with its header, and restores last id, stack and boolean state at every level |
| CompactProtocol.Accumulate | src/thrift/protocol/TCompactProtocol.cpp:652-686 | One turn of either varint loop: adding a seven-bit group below the bits already collected keeps the value equal to that of the bytes seen |
| ApplicationException.ExceptionRoundTrip | src/thrift/TApplicationException.cpp:25-78 | Reading the bytes that write produces gives the exception back, whatever the reader held before, with what follows untouched |
| ApplicationException.TApplicationException.Write | src/thrift/TApplicationException.cpp:66-78 | Writes the two-field struct and leaves the protocol as it was |
| ApplicationException.TApplicationException.Read | src/thrift/TApplicationException.cpp:25-64 | The field loop on the stateful reader does what the function says, for well-typed and unknown fields |
| ApplicationException.TApplicationException.ReadFrom | src/thrift/TApplicationException.cpp:25-64 | Reading any written struct leaves the last well-typed fields 1 and 2 and consumes exactly the struct |
| BinaryMessage.HeaderRoundTrip | src/thrift/protocol/TBinaryProtocol.cpp:28-45 | A binary message header is read back with nothing after it touched if the writer puts a version in or the reader does not insist on one, and is reported as a bad version otherwise |
| BinaryMessage.HeaderInBytes | src/thrift/protocol/TBinaryProtocol.cpp:28-45 | The literal bytes of a header in both forms |
| BinaryMessage.TBinaryProtocol.WriteMessageBegin | src/thrift/protocol/TBinaryProtocol.cpp:28-45 | Writes the versioned or the older header and returns the bytes written |
| BinaryMessage.TBinaryProtocol.ReadMessageBegin | src/thrift/protocol/TBinaryProtocol.cpp:171-200 | Reads either form, or fails as the function says |
| BinaryMessage.TBinaryProtocol.WriteString | src/thrift/protocol/TBinaryProtocol.cpp:154-161 | Writes the length in network order and the bytes |
| BinaryMessage.TBinaryProtocol.ReadStringBody | src/thrift/protocol/TBinaryProtocol.cpp:362-391 | Reads a string body, with the negative-size and limit errors |
| Transport.Upstream.ReadAll | src/thrift/transport/TTransport.h:98-112 | From an upstream that delivers pieces of any size, readAll gives exactly the bytes asked for, or fails exactly if there are fewer |
| BufferedTransport.TBufferedTransport.Read | src/thrift/transport/TBufferTransports.h:60-68 | Bytes delivered, then buffered, then upstream always make up the original stream; nothing is delivered only at its end |
| BufferedTransport.TBufferedTransport.ReadSlow | src/thrift/transport/TBufferTransports.cpp:30-62 | The same for the slow path, across a refill |
| BufferedTransport.TBufferedTransport.Peek | src/thrift/transport/TBufferTransports.h:258-264 | Tells whether there are more bytes, and takes none |
| BufferedTransport.TBufferedTransport.Borrow | src/thrift/transport/TBufferTransports.h:92-100 | Gives at least the bytes asked for without consuming any; null exactly if the request is larger than the buffer, an exception exactly if the stream is too short |
| BufferedTransport.TBufferedTransport.BorrowSlow | src/thrift/transport/TBufferTransports.cpp:113-151 | The same for the slow path, through shifting, one read and readAll; when the stream ends, the bytes then read are lost |
| BufferedTransport.TBufferedTransport.Consume | src/thrift/transport/TBufferTransports.h:105-112 | Takes bytes that are buffered, and throws for more |
| BufferedTransport.TBufferedTransport.Write | src/thrift/transport/TBufferTransports.h:79-87 | Bytes passed on, then buffered, are the bytes written so far, unless the assertion fails |
| BufferedTransport.TBufferedTransport.WriteSlow | src/thrift/transport/TBufferTransports.cpp:64-111 | The same for the slow path; the assertion that the rest fits the buffer fails if and only if 32-bit wrap-around makes the write look small (WrapsAround) |
| BufferedTransport.TBufferedTransport.Flush | src/thrift/transport/TBufferTransports.cpp:153-166 | Afterwards everything written has been passed on, and the downstream is flushed |
| BufferedTransport.WriteThatFails | src/thrift/transport/TBufferTransports.cpp:64-111 | The concrete failure: a buffer of ten that holds one byte, and a write of 2^32 - 1 more |
| BufferedTransport.Do | src/thrift/transport/TBufferTransports.h:60-112 | Each call in one contract: reading leaves what was written alone and the other way round; a borrow at the end of the stream and the failing assertion are decided exactly |
| BufferedTransport.Run | src/thrift/transport/TBufferTransports.cpp:30-166 | Any calls in any order: what is delivered, and then what is still to come, is the stream there was, and what is accepted is all that was written; a run stops only where a borrow meets the end of the stream or the assertion fails |
| FramedTransport.FramesCarryPayloads | src/thrift/transport/TBufferTransports.cpp:251-273 | The bytes of any sequence of flushes hold exactly the concatenated payloads for a reader of frames, and only whole frames |
| FramedTransport.BigEndianBack | src/thrift/transport/TBufferTransports.cpp:257-259 | The four length bytes give the length back |
| FramedTransport.FrameBytes | src/thrift/transport/TBufferTransports.cpp:251-273 | The literal bytes of a frame: the length comes first, high byte first |
| FramedTransport.FrameWriter.constructor | src/thrift/transport/TBufferTransports.h:351-358 | Starts with four bytes reserved for the length, growing a smaller buffer |
| FramedTransport.FrameWriter.Grow | src/thrift/transport/TBufferTransports.cpp:225-249 | Moves the contents to memory with room for the write, whenever some doubling gives enough (Reaches); a total that wraps around 32 bits leaves the size as it is |
| FramedTransport.FrameWriter.DoubleSize | src/thrift/transport/TBufferTransports.cpp:228-230 | The loop stops at the first size that is enough |
| FramedTransport.FrameWriter.Write | src/thrift/transport/TBufferTransports.h:79-87 | Writes join the pending payload, whenever doubling gives enough room; the copy runs past the memory if and only if the total is 2^32 or more |
| FramedTransport.WriteThatOverruns | src/thrift/transport/TBufferTransports.cpp:225-249 | The concrete failure: an empty buffer of eight that is given 2^32 - 1 bytes |
| FramedTransport.FrameWriter.Flush | src/thrift/transport/TBufferTransports.cpp:251-273 | Sends one frame with the pending payload, or nothing if there is none; a payload of 2^31 bytes or more is not sent and stays pending; the assertion holds if and only if the buffer is longer than four bytes |
| FramedTransport.FlushThatFails | src/thrift/transport/TBufferTransports.cpp:251-273 | The concrete failure: a writer of size four flushed before any write |
| Transport.ReachesSmall | src/thrift/transport/TBufferTransports.cpp:225-230 | Every size from 1 on reaches every total up to 2^31, and the sizes on the way do not wrap |
| Transport.NeverReaches | src/thrift/transport/TBufferTransports.cpp:225-230 | If none of the first 32 doublings is enough, no doubling ever is: the loop ends if and only if Reaches holds |
| Transport.PowerNeverReaches | src/thrift/transport/TBufferTransports.cpp:225-230 | A size that is a power of two, as by default, never reaches a total above 2^31 |
| Transport.OthersMayReach | src/thrift/transport/TBufferTransports.cpp:225-230 | Other sizes may, without wrapping (0x60000000 for 0xa0000000) or after it (0x8f000000 for 0xe0000000) |
| FramedTransport.FrameReader.ReadFrame | src/thrift/transport/TBufferTransports.cpp:203-223 | Opens the next frame, growing the buffer if needed; negative sizes and short streams are reported |
| FramedTransport.FrameReader.Read | src/thrift/transport/TBufferTransports.h:60-68 | Bytes delivered, then the rest of the open frame, then the payloads to come always make up the same stream; it fails exactly if the open frame holds too little and no whole frame follows |
| FramedTransport.FrameReader.ReadSlow | src/thrift/transport/TBufferTransports.cpp:169-201 | The same for the slow path, across frames |
| FramedTransport.FrameReader.ReadAll | src/thrift/transport/TTransport.h:98-112 | Gives the bytes asked for across any number of frames, exactly if there are enough |
| FramedTransport.AllWritten | src/thrift/transport/TBufferTransports.cpp:225-273 | The payloads of a run of writes and flushes, and what is not yet flushed, are the bytes written, in order and nothing else |
| FramedTransport.Do | src/thrift/transport/TBufferTransports.cpp:225-273 | One write or flush keeps the payloads sent and the bytes pending those of the run so far; the assertion fails exactly at a flush of a four-byte buffer |
| FramedTransport.SendAll | src/thrift/transport/TBufferTransports.cpp:225-273 | A client of a writer of any non-zero size that writes and flushes in any order sends exactly the frames of its payloads, if and only if before each flush the first buffer was longer than four bytes or some byte had been written |
| FramedTransport.Exchange | src/thrift/transport/TBufferTransports.cpp:169-273 | End to end, for any writes and flushes in any order: what the peer reads and what is not yet flushed are all the bytes written, for any non-zero write buffer and any read buffer, unless the assertion fails, which is decided by the same condition |
| MemoryBuffer.TMemoryBuffer.constructor | src/thrift/transport/TBufferTransports.h:394-419 | An owned buffer starts empty |
| MemoryBuffer.TMemoryBuffer.Wrap | src/thrift/transport/TBufferTransports.h:475-494 | The given memory is the contents, observed or owned |
| MemoryBuffer.TMemoryBuffer.Read | src/thrift/transport/TBufferTransports.cpp:283-311 | Takes from the front of the queue as many bytes as there are, up to the request, though the read bound lags behind |
| MemoryBuffer.TMemoryBuffer.ComputeRead | src/thrift/transport/TBufferTransports.cpp:283-300 | Brings the read bound up to date and reserves the bytes to give |
| MemoryBuffer.TMemoryBuffer.Borrow | src/thrift/transport/TBufferTransports.cpp:377-384 | Gives a prefix of the queue at least as long as asked, takes nothing, and is null exactly if there is too little |
| MemoryBuffer.TMemoryBuffer.Consume | src/thrift/transport/TBufferTransports.h:105-112 | Takes bytes up to the read bound, and throws for more |
| MemoryBuffer.TMemoryBuffer.Write | src/thrift/transport/TBufferTransports.cpp:361-367 | Appends to the queue, growing owned memory; memory of someone else is never written |
| MemoryBuffer.TMemoryBuffer.EnsureCanWrite | src/thrift/transport/TBufferTransports.cpp:329-359 | Ends with enough room and keeps the contents, whenever doubling gives enough before the pointer difference wraps (Grows); memory of someone else is refused |
| MemoryBuffer.TMemoryBuffer.DoubleSize | src/thrift/transport/TBufferTransports.cpp:341-345 | The loop itself: it stops with real room for the write |
| MemoryBuffer.GrowsSmall | src/thrift/transport/TBufferTransports.cpp:341-345 | For non-zero owned memory and totals up to 2^31 it does |
| MemoryBuffer.NeverGrows | src/thrift/transport/TBufferTransports.cpp:341-345 | Where Grows does not hold, the loop goes on for ever or stops with too little room |
| MemoryBuffer.LoopsForEver | src/thrift/transport/TBufferTransports.cpp:341-345 | The first of these: empty memory of the default size and a write of 2^31 + 1 bytes |
| MemoryBuffer.StopsAtNothing | src/thrift/transport/TBufferTransports.cpp:341-345 | The second: full memory of 2^31 bytes and one byte more, where the size doubles to zero and the room then seems enough |
| MemoryBuffer.TMemoryBuffer.GetWritePtr | src/thrift/transport/TBufferTransports.h:616-619 | Gives room at the end of the queue without changing it |
| MemoryBuffer.TMemoryBuffer.WroteBytes | src/thrift/transport/TBufferTransports.cpp:369-375 | What the client put there joins the queue, unless it is more than there is room for |
| MemoryBuffer.TMemoryBuffer.ResetBuffer | src/thrift/transport/TBufferTransports.h:540-565 | Empties the queue |
| MemoryBuffer.TMemoryBuffer.ReadEnd | src/thrift/transport/TBufferTransports.h:596-600 | Never changes the queue, and starts from the front again when it is empty |
| MemoryBuffer.BorrowThenConsume | src/thrift/transport/TBufferTransports.cpp:377-384 | After a borrow of enough bytes any part of them can be consumed, and they are the front of the queue |
| MemoryBuffer.Do | src/thrift/transport/TBufferTransports.h:60-112 | Each call in one contract: the bytes it takes and then the queue are the queue before and then the bytes it adds |
| MemoryBuffer.Run | src/thrift/transport/TBufferTransports.cpp:283-375 | Any calls in any order: the bytes taken, and then those left, are the ones that were there and then those written, for totals up to 2^31; memory of someone else takes none |
| Crc.ChecksumConcat | src/SL_Crypto_CRC32.cpp:703-722 | Feeding A and then B gives the checksum of A followed by B, from any start |
| Crc.RunLinear | src/SL_Crypto_CRC32.cpp:589-641 | The register is linear: a difference at the start comes out shifted by as many zero bytes |
| Crc.ChecksumCombines | src/SL_Crypto_CRC32.cpp:589-641 | The checksum of A followed by B is that of A moved over as many zero bits, plus that of B |
| Crc.ByteByTable | src/SL_Crypto_CRC32.cpp:480 | One lookup in the first table is eight steps of the polynomial recurrence |
| Crc.TableIsSteps | src/SL_Crypto_CRC32.cpp:465-467 | Entry n of table k is n moved over 8(k+1) zero bits |
| Crc32.LitStep | src/SL_Crypto_CRC32.cpp:465-467 | Four lookups on a little-endian word are four bytes of the bit-by-bit CRC |
| Crc32.Crc32Little | src/SL_Crypto_CRC32.cpp:471-506 | The aligned, four-bytes-at-a-time loop computes the bit-by-bit CRC-32 for every message, start value and alignment |
| Crc32.BigStep | src/SL_Crypto_CRC32.cpp:509-511 | The byte-swapped tables do on a swapped register what the others do on a plain one |
| Crc32.Crc32Big | src/SL_Crypto_CRC32.cpp:519-556 | The big-endian loop computes the same CRC-32, so the two forms agree |
| Crc32.Crc32C | src/SL_Crypto_CRC32C.cpp:356-410 | The CRC-32C loop computes the bit-by-bit CRC-32C for every message, start value and alignment, including short messages that reach no aligned byte |
| Crc32Combine.TimesIsSteps | src/SL_Crypto_CRC32.cpp:563-576 | A matrix that moves the unit vectors over n zero bits moves every vector over n zero bits |
| Crc32Combine.Gf2MatrixTimes | src/SL_Crypto_CRC32.cpp:563-576 | The loop, which stops at the last set bit, computes the matrix product |
| Crc32Combine.Gf2MatrixSquare | src/SL_Crypto_CRC32.cpp:579-586 | Squaring the operator for n zero bits gives that for 2n |
| Crc32Combine.Crc32Combine | src/SL_Crypto_CRC32.cpp:589-641 | The loop that alternates the two matrices over the bits of the length moves the first checksum over 8 times the length and adds the second; length 0 gives the first |
| Crc32Combine.CombineParts | src/SL_Crypto_CRC32.cpp:589-641 | crc32_combine_ of the checksums of A (from any start) and of B (from 0) is the checksum of A followed by B |
| CrcAnswers.ResidueOf | src/SL_Crypto_CRC32.cpp:471-556 | For any polynomial, start and message: the checksum of a message followed by its checksum, low byte first, is one value, whatever the message |
| CrcAnswers.Crc32Residue | src/SL_Crypto_CRC32.cpp:22-78 | For CRC-32 that value is 0x2144df1c |
| CrcAnswers.Crc32Row | src/SL_Crypto_CRC32.cpp:22-78 | The literals of the first table at 1, 2, 4, ..., 128, of which its other entries are sums |
| CrcAnswers.Crc32Check | src/SL_Crypto_CRC32.cpp:471-556 | CRC-32 of "123456789" is 0xcbf43926 |
| CrcAnswers.Crc32cResidue | src/SL_Crypto_CRC32C.cpp:9-74 | For CRC-32C the value of a message and its checksum is 0x48674bc7 |
| CrcAnswers.Crc32cRow | src/SL_Crypto_CRC32C.cpp:9-74 | The literals of the first CRC-32C table at the powers of two |
| CrcAnswers.Crc32cCheck | src/SL_Crypto_CRC32C.cpp:356-410 | CRC-32C of "123456789" is 0xe3069283 |
| CrcAnswers.MaskIs | src/SL_Crypto_CRC32C.cpp:281-292 | What a masked checksum is, on 32-bit vectors: turned right by 15 and 0xa282ead8 more |
| CrcAnswers.MaskOfCheck | src/SL_Crypto_CRC32C.cpp:281-292 | The stored form of the CRC-32C of "123456789" is 0xc78ab0e5 |
| Crc32cMask.MaskRoundTrip | src/SL_Crypto_CRC32C.cpp:281-292 | Unmasking undoes masking, and masking undoes unmasking |
| GaloisField.Order | src/aes.cpp:75-79 | 3 generates the field: none of its first 254 powers is 1, so the pow loop visits every non-zero byte once |
| GaloisField.PowAdd | src/aes.cpp:64 | Powers of the generator add up under the field product |
| GaloisField.MulXor | src/aes.cpp:64 | The field product distributes over exclusive or |
| SBox.InvIsInverse | src/aes.cpp:95 | 255 minus the logarithm gives the multiplicative inverse |
| SBox.MulByLogs | src/aes.cpp:64 | The product by logarithms is the product of the field (section 4.2 of FIPS 197) |
| SBox.RS | src/aes.cpp:93-105 | The reverse S-box undoes the forward one |
| SBox.SR | src/aes.cpp:93-105 | And the other way round |
| SBoxTable.SBoxIsTable | src/aes.cpp:143-177 | The S-box that is generated is the printed one (figure 7 of FIPS 197, the FSb literals), for each of the 256 bytes |
| SBoxTable.SBoxValues | src/aes.cpp:143-177 | 00 goes to 63, 01 to 7c and 53 to ed |
| AesTables.GenLogs | src/aes.cpp:75-79 | The pow and log arrays hold powers and logarithms of the generator, although the last turn overwrites log[1] |
| AesTables.GenRcon | src/aes.cpp:83-86 | The round constants are the powers of x |
| AesTables.GenSBoxes | src/aes.cpp:90-105 | The two arrays are the S-box of section 5.1.1 of FIPS 197 and its inverse |
| AesTables.MulLookup | src/aes.cpp:64 | MUL over the arrays is the field product, zeros included |
| AesTables.GenForward | src/aes.cpp:109-122 | FT0 holds the MixColumns column of every S-box value, FT1 to FT3 its rotations |
| AesTables.GenReverse | src/aes.cpp:124-135 | RT0 holds the InvMixColumns column of every reverse S-box value, RT1 to RT3 its rotations |
| AesTables.GenTables | src/aes.cpp:66-137 | All tables together |
| AesCipher.MixIsMatrix | src/aes.cpp:113-122 | The rotated columns add up to the matrix of section 5.1.3 of FIPS 197 |
| AesCipher.ShiftRows | src/aes.cpp:598-621 | Byte r of column c after SubBytes and ShiftRows is the substitute of byte r of column c + r, counted round |
| AesCipher.InvMixMix | src/aes.cpp:126-135 | InvMixColumns undoes MixColumns on every column |
| AesCipher.InvMixLinear | src/aes.cpp:551-573 | InvMixColumns is linear, which is why the round keys may go through it |
| AesCipher.Backwards | src/aes.cpp:677-763 | After j rounds of the equivalent inverse cipher the state is where encryption stood j rounds before its end |
| AesCipher.InvCipherCipher | src/aes.cpp:677-763 | Decryption undoes encryption for every block and every sequence of round keys, given the decryption schedule of section 5.3.5 of FIPS 197 |
| AesRounds.KeyTable | src/aes.cpp:530-541 | The key tables hold the InvMixColumns columns of the bytes themselves |
| AesRounds.FRoundIs | src/aes.cpp:598-621 | A line of table lookups is SubBytes, ShiftRows, MixColumns and AddRoundKey |
| AesRounds.RRoundIs | src/aes.cpp:688-711 | A line of reverse lookups is the inverse round |
| AesRounds.FLastIs | src/aes.cpp:645-667 | The last round has no MixColumns |
| AesRounds.RLastIs | src/aes.cpp:735-757 | The last inverse round has no InvMixColumns |
| AesKeySchedule.ExpansionUnique | src/aes.cpp:464-527 | The recurrence of section 5.2 of FIPS 197 fixes every round-key word, so two contexts with one key have one schedule |
| AesKeySchedule.Expand128 | src/aes.cpp:468-482 | The loop fills 44 words by the recurrence, within the array |
| AesKeySchedule.Expand192 | src/aes.cpp:484-500 | The loop fills 54 words by the recurrence |
| AesKeySchedule.Expand256 | src/aes.cpp:502-526 | The loop fills 64 words by the recurrence, with the extra S-box in the middle of a group |
| AesKeySchedule.KColumnIs | src/aes.cpp:555-558 | Four key-table lookups are InvMixColumns of the word |
| AesKeySchedule.InvertSchedule | src/aes.cpp:544-580 | drk is the encryption schedule backwards, its inner keys through InvMixColumns |
| Aes.Context.SetKey | src/aes.cpp:437-583 | For 128, 192 and 256 bits: the expanded key, its inversion and the number of rounds; any other size returns 1 and changes nothing |
| Aes.Context.Encrypt | src/aes.cpp:587-673 | The unrolled table rounds compute the cipher, and write exactly the sixteen output bytes |
| Aes.Context.Decrypt | src/aes.cpp:677-763 | The unrolled reverse rounds compute the equivalent inverse cipher |
| AesAnswers.Cipher128 | src/aes.cpp:464-673 | Appendix C.1 of FIPS 197: every expansion of the key 00 01 ... 0f takes the block 00 11 22 ... ff to 69c4e0d86a7b0430d8cdb78070b4c55a |
| AesAnswers.Cipher256 | src/aes.cpp:464-673 | Appendix C.3 of FIPS 197: every expansion of the key 00 01 ... 1f takes it to 8ea2b7ca516745bfeafc49904b496089 |
| AesAnswers.Example | src/aes.cpp:66-673 | The class itself, from generated tables and a set key to the sixteen output bytes of appendix C.1 |
| AesEcb.NeedLen | src/SL_Crypto_AES.cpp:326-338 | The predicted lengths: whole blocks and one byte more to encrypt, one byte less to decrypt |
| AesEcb.Ecb.Init | src/SL_Crypto_AES.cpp:340-354 | Both contexts are keyed with one schedule, for keys of 16, 24 and 32 bytes |
| AesEcb.Ecb.Encrypt | src/SL_Crypto_AES.cpp:369-402 | Too small a buffer gives -1 and changes nothing; otherwise the pad count and the padded blocks, and nothing past them |
| AesEcb.Ecb.Decrypt | src/SL_Crypto_AES.cpp:404-424 | A wrong length or too small a buffer gives -1; otherwise the decrypted blocks and the length less the pad count |
| AesEcb.DecipheredEnciphered | src/SL_Crypto_AES.cpp:404-424 | Blocks that decrypt the encryption of a message are that message |
| AesEcb.SealedOpens | src/SL_Crypto_AES.cpp:369-424 | Decrypting a sealed message and dropping the pad count gives the original bytes and length |
| AesEcb.SameSchedule | src/SL_Crypto_AES.cpp:340-343 | The decryption context inverts the schedule of the encryption context |
| AesRounds.MakeTables | src/aes.cpp:66-137 | All generated tables, the key tables among them, stand ready |
| AesEcb.RoundTrip | src/SL_Crypto_AES.cpp:340-424 | Generating the tables, setting a key, encrypting and decrypting gives back every non-empty message |
| RWMutex.StepInv | include/SL_Sync_RWMutex.h:32-90 | Every step of every thread keeps the invariant: ownership of the sections, the reader count, the event, exclusion and the branches |
| RWMutex.RunInv | include/SL_Sync_RWMutex.h:32-90 | So does every interleaving of any number of threads |
| RWMutex.WriterExcludes | include/SL_Sync_RWMutex.h:59-63 | While a thread is inside the write lock no other thread is inside either lock |
| RWMutex.WaiterNotOvertaken | include/SL_Sync_RWMutex.h:59-63 | From the moment a writer waits for the event until it moves, in every interleaving, no other thread gets into a lock and the reader count never grows; at count zero, outside the read section, it can move |
| RWMutex.StepPastWaiter | include/SL_Sync_RWMutex.h:32-57 | No step of another thread past a waiting writer enters a lock or raises the count |
| RWMutex.UnlockTakesRightBranch | include/SL_Sync_RWMutex.h:75-90 | The untyped unlock takes the branch of the lock its caller holds, in every reachable state |
| RWMutex.NoDeadlock | include/SL_Sync_RWMutex.h:32-90 | Whenever a thread is blocked, some thread can move or holds a lock it may release |
| RWMutex.ReaderEnters | include/SL_Sync_RWMutex.h:32-42 | Readers share: with both sections free, a thread outside that calls read_lock is inside after six or seven steps of its own, whatever the reader count, and no other thread has moved |
| RWMutex.WriterEnters | include/SL_Sync_RWMutex.h:59-63 | With the write section free and the event set, a thread outside that calls write_lock is inside after three steps of its own, and no other thread has moved |
| RWMutex.ReaderLeaves | include/SL_Sync_RWMutex.h:44-57 | With the read section free, a reader that leaves takes itself off the count by four or five steps of its own, and the last one sets the event |
| RWMutex.WriterLeaves | include/SL_Sync_RWMutex.h:65-73 | A writer leaves by two steps of its own, and the write section is free |
| RWMutex.ReadersShare | include/SL_Sync_RWMutex.h:32-42 | For any number of threads there is a run from the start after which all of them are inside the read lock at once |
| LruHashtable.Table.constructor | include/SL_LRUHashtable.h:44-50 | An empty table |
| LruHashtable.Table.AddElement | include/SL_LRUHashtable.h:83-139 | A known key moves to the front with its new data and gives false; a new one goes to the front and gives true, after the last entry has made room in a full table; the chain stays well formed |
| LruHashtable.Table.Insert | include/SL_LRUHashtable.h:98-111 | Links a new node in at the head |
| LruHashtable.Table.Update | include/SL_LRUHashtable.h:116-136 | Moves a node to the head with new data |
| LruHashtable.Table.ToFront | include/SL_LRUHashtable.h:119-136 | The pointer writes move one node to the head of a doubly linked chain and leave the order of the others |
| LruHashtable.Table.Join | include/SL_LRUHashtable.h:151-172 | The writes through the two pointers to pointers take one node out of the chain, ends included |
| LruHashtable.Table.CutLast | include/SL_LRUHashtable.h:252-261 | Cutting the tail keeps the chain well formed (with the tail read before it is freed) |
| LruHashtable.Table.GetElement | include/SL_LRUHashtable.h:275-306 | Gives the data and moves the entry to the front; nothing changes for an unknown key |
| LruHashtable.Table.RemoveElement | include/SL_LRUHashtable.h:142-175 | Gives the data and removes the entry |
| LruHashtable.Table.PopUp | include/SL_LRUHashtable.h:213-238 | Removes and gives the entry at the end |
| LruHashtable.Table.Clear | include/SL_LRUHashtable.h:267-272 | Empties the table |
| LruHashtable.Table.GetMostRecentElement | include/SL_LRUHashtable.h:309-318 | The data of the first entry |
| LruHashtable.Table.GetLeastRecentElement | include/SL_LRUHashtable.h:321-330 | The data of the last entry |
| LruHashtable.Table.GetOrderedKeys | include/SL_LRUHashtable.h:333-340 | Walking the list gives the keys in order of recency |
| LruHashtable.NodesAreKeys | include/SL_LRUHashtable.h:52-55 | The list is as long as the map is large |
| LruHashtable.EntriesIndex | include/SL_LRUHashtable.h:86 | Looking a key up in the map finds its node in the list |
| LruHistory.RunIsRecent | include/SL_LRUHashtable.h:82-340 | In every run the live keys are listed by decreasing time of their last add or get, each with the data last added, and never more than max(1, capacity) |
| LruHistory.RunIsLive | include/SL_LRUHashtable.h:82-340 | After every run the keys listed are exactly the live ones: those added and not removed, popped, cleared or evicted since (a set that is defined without any list) |
| LruHistory.RunIsUnique | include/SL_LRUHashtable.h:82-340 | The contents after a run are fixed: they are the only listing of exactly the live keys by decreasing time of use, each with the data last added |
| LruHistory.RemovedIsGone | include/SL_LRUHashtable.h:142-175 | After any run, removing a key leaves no entry with it, and every entry with another key in the same order |
| LruHistory.GotKeeps | include/SL_LRUHashtable.h:275-306 | A get loses and adds no entry |
| LruHistory.DataAfter | include/SL_LRUHashtable.h:142-306 | On the linked table: the data of a key after any history, and none after it is removed |
| LruHistory.Replay | include/SL_LRUHashtable.h:82-340 | The linked table, taken through any history of operations, holds what the run says |
| LruHistory.KeysAfter | include/SL_LRUHashtable.h:333-340 | Walking the linked nodes after any history meets the keys by decreasing time of their last add or get |
| LruHistory.EvictsLeastRecent | include/SL_LRUHashtable.h:93-96 | A new key in a full table drops exactly the live key used longest ago |
| LruHistory.LargerHoldsMore | include/SL_LRUHashtable.h:93-96 | After additions only, a smaller table holds the front part of what a larger one holds |
| Sha256.PIsRound | src/sha256.cpp:77-101 | A P line is a round of section 6.2.2 of FIPS 180-2, with the macros for choice, majority and rotation |
| Sha256.LineIsRound | src/sha256.cpp:95-101 | A line with renamed registers is the next round |
| Sha256.Context.Process | src/sha256.cpp:55-184 | The unrolled lines with rotating register names, and the schedule computed on the way, are the compression function of the standard |
| Sha256.Context.Update | src/sha256.cpp:186-223 | Whatever was fed before, the context now stands for that and the input: whole blocks compressed, the rest buffered, the length carried over two words |
| Sha256.Context.Count | src/sha256.cpp:196-200 | The carry between the two length words |
| Sha256.Context.Final | src/sha256.cpp:233-259 | The digest of the standard for everything fed, below 2^61 bytes, with the extra block when the length does not fit |
| Sha256.HashPieces | src/sha256.cpp:186-259 | Every way of cutting a message into updates gives the digest of the whole message |
| Sha256Answers.DigestOfAbc | src/sha256.cpp:25-259 | Appendix B.1 of FIPS 180-2: the digest of "abc" is ba7816bf 8f01cfea 414140de 5dae2223 b00361a3 96177a9c b410ff61 f20015ad |
| Md5.StepIsOperation | src/md5.cpp:19-31 | A STEP line is an operation of section 3.4 of RFC 1321, with the optimized F and G |
| Md5.Context.Steps | src/md5.cpp:88-161 | The unrolled lines with rotating register names are the 64 operations |
| Md5.Context.Body | src/md5.cpp:66-179 | The loop over blocks folds the compression function |
| Md5.Context.Update | src/md5.cpp:191-221 | Whatever was fed before, the context now stands for that and the input |
| Md5.Context.Final | src/md5.cpp:224-269 | The digest of RFC 1321 for everything fed, of any length, since the length counts modulo 2^64 |
| Md5.LengthBytes | src/md5.cpp:240-248 | The shifted bytes of the counter are the low 64 bits of the length, low byte first |
| Md5.HashPieces | src/md5.cpp:191-269 | Every way of cutting a message into updates gives the digest of the whole message |
| Md5Answers.DigestOfAbc | src/md5.cpp:19-269 | Appendix A.5 of RFC 1321: the digest of "abc" is 900150983cd24fb0d6963f7d28e17f72 |
| BlockHash.FoldConcat | src/md5.cpp:77-170 | Folding blocks may stop and go on at any block boundary |
| Adler32.LeftUnreduced | src/SL_Crypto_Adler32.cpp:157-170 | The concrete failure: from the start 0xfffffff0 one zero byte leaves a second sum of 65534, where the definition has 13 |
| Adler32.ComputeChecksum | src/SL_Crypto_Adler32.cpp:151-232 | From every 32-bit start the loops with deferred reduction, and the branches for one byte and for fewer than sixteen, give the definition from the reduced start, with and without division, if and only if it is not a single byte that takes the second sum to twice 65521 or more |
| Adler32.RawIsChecksum | src/SL_Crypto_Adler32.cpp:185-228 | One reduction at the end does the work of a reduction at every byte, from any sums |
| Adler32.Stretch | src/SL_Crypto_Adler32.cpp:192-228 | A run of up to 5552 bytes with one reduction at its end |
| Adler32.NoOverflow | src/SL_Crypto_Adler32.cpp:6-7 | Within 5552 bytes neither sum leaves 32 bits, even from unreduced halves |
| Adler32.NMaxIsLargest | src/SL_Crypto_Adler32.cpp:6-7 | 5552 is the largest run for which the bound holds |
| Adler32.Mod28 | src/SL_Crypto_Adler32.cpp:26-30 | Without division: the remainder for every number below 2^28 |
| Adler32.Mod | src/SL_Crypto_Adler32.cpp:31-35 | Without division: the remainder for every 32-bit number |
| Adler32.Mod63 | src/SL_Crypto_Adler32.cpp:36-48 | Without division: the remainder for every 64-bit number, with no overflow on the way |
| Adler32.ChecksumConcat | src/SL_Crypto_Adler32.cpp:126-130 | Feeding A and then B gives the checksum of A followed by B |
| Adler32.ChecksumOfWord | src/SL_Crypto_Adler32.cpp:6-24 | The checksum of "Wikipedia" from 1 is 0x11e60398 |
| Adler32.CombineIsConcat | src/SL_Crypto_Adler32.cpp:56-93 | combine of the checksums of A (from any start) and of B (from 1) is the checksum of A followed by B |
| Adler32.SL_Crypto_Adler32.Update | src/SL_Crypto_Adler32.cpp:126-130 | The class, which starts from 0, holds the checksum of everything fed |
| Adler32.SL_Crypto_Adler32.Final | src/SL_Crypto_Adler32.cpp:132-139 | Gives it and starts afresh |
| TimerSpec.InsertedSorted | src/SL_Seda_TimerQueue.cpp:66-86 | Inserting behind the last earlier deadline keeps the list in order |
| TimerSpec.DueIsAllDue | src/SL_Seda_TimerQueue.cpp:141-189 | Expiry of an ordered list takes every timer that is due and nothing else |
| TimerSpec.SortingStaysSorted | src/SL_Seda_TimerQueue.cpp:54-189 | Every operation on the sorting queue keeps its list in order, whatever the intervals and the clock readings |
| TimerSpec.SortingRunSorted | src/SL_Seda_TimerQueue.cpp:54-189 | So does every run of it from the start |
| TimerSpec.SortingFiresDue | src/SL_Seda_TimerQueue.cpp:141-189 | After every run of the sorting queue an expiry that advances the clock fires exactly the timers that are due and keeps exactly the others |
| TimerSpec.AppendingStaysSorted | src/SL_Seda_TimerQueue.cpp:259-343 | Every operation on the appending queue keeps its list in order while the clock does not go back |
| TimerSpec.AppendingRunSorted | src/SL_Seda_TimerQueue.cpp:259-343 | So does every run whose clock does not go back |
| TimerSpec.AppendingFiresDue | src/SL_Seda_TimerQueue.cpp:304-343 | After every such run an expiry that advances the clock fires exactly the due timers |
| TimerSpec.AppendingSortedIff | src/SL_Seda_TimerQueue.cpp:259-343 | Exactly when one operation on the appending queue keeps its list in order: what it appends is not due before the last of the others |
| TimerSpec.AppendingRunSortedIff | src/SL_Seda_TimerQueue.cpp:259-343 | The list of the appending queue is in order throughout a run if and only if nothing was ever appended that is due before the last timer |
| TimerSpec.FiresDueIff | src/SL_Seda_TimerQueue.cpp:141-189 | Expiry takes exactly the due timers, whatever the clock reads, if and only if the list is in order |
| TimerSpec.ClockGoingBack | src/SL_Seda_TimerQueue.cpp:259-343 | The concrete failure otherwise: set at 10 and then at 5, with an interval of 10, a timer due at 15 does not fire at 15 |
| TimerSpec.StepNumbered | src/SL_Seda_TimerQueue.cpp:54-189 | No two active timers share a number, after any operation on either queue |
| TimerSpec.StepAlike | src/SL_Seda_TimerQueue.cpp:244-343 | One operation on the sorting and on the appending queue fires the same timers and keeps the same timers |
| TimerSpec.RunsAlike | src/SL_Seda_TimerQueue.cpp:244-343 | Over every run from the start with one interval and a clock that does not go back, the appending queue fires at each operation the same multiset of timers, with deadlines and parameters, as the sorting queue |
| TimerHistory.StepAgrees | src/SL_Seda_TimerQueue.cpp:54-343 | One operation on an ordered list is the operation on a table of timers by number, and an expiry that advances the clock fires exactly the entries of the table that are due |
| TimerHistory.SortingRunAgrees | src/SL_Seda_TimerQueue.cpp:54-189 | After every run of the sorting queue exactly those timers are active that were set and neither cancelled nor fired since, each once and with its last deadline |
| TimerHistory.AppendingRunAgrees | src/SL_Seda_TimerQueue.cpp:259-343 | So they are in the appending queue, while the clock does not go back |
| TimerHistory.CancelledNeverFires | src/SL_Seda_TimerQueue.cpp:91-103 | A cancelled timer is off the list for good, whatever was done before and is done after, and no later expiry fires it |
| TimerHistory.SetFires | src/SL_Seda_TimerQueue.cpp:54-189 | A timer that is set and then neither cancelled nor updated is due at the time of setting plus its interval, stays active and unfired until then, and the first expiry that reaches that time fires it |
| TimerHistory.OneRun | src/SL_Seda_TimerQueue.cpp:54-189 | A run in numbers, with a timer cancelled, one put off and one on time |
| TimerQueue.Queue.constructor | src/SL_Seda_TimerQueue.cpp:18-37 | Every timer of the pool is free |
| TimerQueue.Queue.Place | src/SL_Seda_TimerQueue.cpp:66-86 | The scan from the back puts a timer where the specification does |
| TimerQueue.Queue.SetTimer | src/SL_Seda_TimerQueue.cpp:54-89 | Is the set step: a free timer with its parameter, interval and deadline is put in; null exactly if none is free; order and sharing of the pool are kept |
| TimerQueue.Queue.CancelTimer | src/SL_Seda_TimerQueue.cpp:91-103 | Is the cancel step for an active timer, which becomes free and stays marked; an inactive one gives -1 and changes nothing |
| TimerQueue.CancelledIsStale | src/SL_Seda_TimerQueue.cpp:91-103 | The handle of a cancelled timer is marked as active and out of the active list, so that the check of the flag lets it through again |
| TimerQueue.Queue.UpdateTimer | src/SL_Seda_TimerQueue.cpp:105-139 | Is the update step: due one interval of its own from now, at its new place; an inactive timer gives -1 and changes nothing |
| TimerQueue.Queue.Expire | src/SL_Seda_TimerQueue.cpp:141-189 | Is the expiry step: if the clock has advanced, fires from the front and frees; a list in order (always, for the sorting queue) loses exactly its due timers |
| TimerQueue.Queue.FireDue | src/SL_Seda_TimerQueue.cpp:151-180 | The loop takes the front timers up to the first that is not due, in order |
| TimerQueue.FiredIsStale | src/SL_Seda_TimerQueue.cpp:141-189 | So is the handle of a timer exactly if it has fired |
| TimerQueue.Queue.Apply | src/SL_Seda_TimerQueue.cpp:54-343 | Every operation on the class is the step of the state machine, and keeps order, numbers and sharing of the pool |
| TimerQueue.RunOps | src/SL_Seda_TimerQueue.cpp:54-343 | Every run on a queue object fires what the run of the state machine fires and ends in its state |
| TimerQueue.Compare | src/SL_Seda_TimerQueue.cpp:54-343 | Two queue objects, one sorting and one appending, put through one run with one interval and a clock that does not go back, fire the same timers at every operation |
| MersenneTwister.HalfStep | src/SL_Crypto_RaknetRand.cpp:150-160 | Which words the next one comes from, and that the loops find them still old or already new where they look |
| MersenneTwister.Generator.Seed | src/SL_Crypto_RaknetRand.cpp:85-137 | The first state, from an odd seed |
| MersenneTwister.Generator.Reload | src/SL_Crypto_RaknetRand.cpp:139-166 | The three in-place parts produce the next 624 words of the sequence; the word past the state is read and never used |
| MersenneTwister.Generator.RandomInt | src/SL_Crypto_RaknetRand.cpp:34-51 | Draw number n is the tempered word 624 + n of the sequence, across any number of reloads, with next and left in step; an unseeded generator takes 4357 |
| MersenneAnswers.FirstNumber | src/SL_Crypto_RaknetRand.cpp:34-166 | In numbers: word 624 of the sequence from seed 4357, tempered, is 3510405877 |
| MersenneAnswers.FirstDraw | src/SL_Crypto_RaknetRand.cpp:34-166 | So that is what an unseeded generator draws first |
| Base64.ShiftsCut | src/SL_Crypto_Base64.cpp:71-78 | The shifts and masks of the encoder cut three bytes, as one number of 24 bits, into four of six |
| Base64.GroupBack | src/SL_Crypto_Base64.cpp:169-192 | The shifts of the decoder put them together again |
| TextAnswers.Alphabet | src/SL_Crypto_Base64.cpp:3-31 | The encoding table is table 1 of RFC 4648 |
| TextAnswers.Vectors | src/SL_Crypto_Base64.cpp:50-132 | The only encodings of "f", "fo", "foo" and "foobar" are those of section 10 of RFC 4648 |
| Base64.NeededLength | src/SL_Crypto_Base64.cpp:33-48 | The predicted length is four characters for every three bytes or part of them if and only if the input is shorter than 2^30 bytes |
| Base64.NeededBack | src/SL_Crypto_Base64.cpp:45-47 | The length predicted for decoding is three bytes for every four characters if and only if three times the input length is below 2^32 |
| Base64.Encode | src/SL_Crypto_Base64.cpp:50-132 | Too small a predicted length gives -1; otherwise the encoding with its padding and nothing past it, or a write past the output if that is shorter than the encoding, which takes 2^30 bytes or more |
| Base64.Decode | src/SL_Crypto_Base64.cpp:139-205 | An incomplete group or too small a buffer gives -1; past that, input that is nothing but padding is read before its start, an output shorter than the decoded bytes is written past its end, which takes a wrapped length, and all other input is decoded, with the length the wrapped prediction makes of it |
| Base64.PaddingOnly | src/SL_Crypto_Base64.cpp:150-157 | The concrete failure: four padding characters |
| Base64.WrappedLength | src/SL_Crypto_Base64.cpp:143 | The concrete wrap: for 0x55555558 characters room for two bytes is enough to be let in |
| Base64.PadsOfEncoding | src/SL_Crypto_Base64.cpp:150-157 | An encoding ends in exactly the padding its length calls for |
| Base64.DecodeEncode | src/SL_Crypto_Base64.cpp:139-205 | Whatever decodes an encoding gives the bytes that were encoded |
| Base64.RoundTrip | src/SL_Crypto_Base64.cpp:33-205 | Through buffers of the predicted sizes, decode undoes encode for every non-empty input below 2^30 bytes |
| UrlCode.EscapesPercent | src/SL_Crypto_UrlCode.cpp:24-139 | Every class but refresh escapes the percent sign |
| UrlCode.DigitsPlain | src/SL_Crypto_UrlCode.cpp:24-139 | No class escapes a hexadecimal digit |
| TextAnswers.ComponentEscapes | src/SL_Crypto_UrlCode.cpp:61-79 | A URI component has everything escaped but the unreserved characters of section 2.3 of RFC 3986 |
| TextAnswers.EscapesListed | src/SL_Crypto_UrlCode.cpp:23-141 | Which bytes each of the seven classes escapes, as a list of characters |
| TextAnswers.PieceIs | src/SL_Crypto_UrlCode.cpp:20-178 | An escaped byte of a URI component is a percent sign and two hexadecimal digits in capitals, any other is itself |
| UrlCode.EncodedLength | src/SL_Crypto_UrlCode.cpp:157-178 | The encoded length is the input length plus twice the number of escaped bytes |
| UrlCode.CountEscapes | src/SL_Crypto_UrlCode.cpp:141-155 | Without an output buffer the number of escaped bytes is counted |
| UrlCode.Encode | src/SL_Crypto_UrlCode.cpp:157-178 | The loop writes the encoding and nothing past it |
| UrlCode.Decode | src/SL_Crypto_UrlCode.cpp:181-255 | The state machine with its success flag, for every input |
| UrlCode.AfterPiece | src/SL_Crypto_UrlCode.cpp:193-251 | What the decoder makes of one encoded byte, in each of its states |
| UrlCode.Lags | src/SL_Crypto_UrlCode.cpp:193-251 | After an unescaped percent sign a decoder that reproduces the input stays behind it to the end |
| UrlCode.RoundTrip | src/SL_Crypto_UrlCode.cpp:141-255 | Decoding undoes encoding and reports success if and only if the class escapes percent signs or the input holds none |
| UrlCode.RefreshLosesPercent | src/SL_Crypto_UrlCode.cpp:141-255 | The concrete failure: under refresh the bytes %41 come back as A |

## Left out

- Binary protocol beyond its message header: value trees in TBinaryProtocol have no delta stack, no folded booleans and no varints, and would repeat the compact proofs with easier steps.
- CompactRoundTrip.RoundTrip: asks for sizes below 2^31 and within the reader's limits, which is what a signed size field and the limits of the reader allow.
- CompactProtocol.TCompactProtocol.ReadVarint64: models `borrow` as TMemoryBuffer has it, lending everything there is when that is at least the ten bytes asked for, or as never lending, as TFramedTransport may.
- CompactProtocol.TCompactProtocol.WriteValue: returns byte counts as unbounded numbers; the source adds them in 32 bits. A boolean field's name is taken to be given, as generated code always does.
- Double values: opaque 64-bit words; conversions to and from floating point are not modelled.
- BufferedTransport.TBufferedTransport.BorrowSlow: read buffers are below 2^31 bytes, since the source keeps the missing count in a signed 32-bit number.
- FramedTransport.FrameWriter.Grow: asks for a total that doubling reaches, unless it wraps; where it does not, the loop does not end (Transport.NeverReaches).
- FramedTransport.SendAll: no more than 2^31 - 4 bytes are written between two flushes, which any buffer grows to and the signed length of a frame holds.
- MemoryBuffer.TMemoryBuffer.EnsureCanWrite: for owned memory asks for Grows, in which the pointer difference is taken in 32 bits; otherwise the source loops for ever or goes on with too little memory (MemoryBuffer.NeverGrows, LoopsForEver, StopsAtNothing).
- MemoryBuffer.Run: owned memory is not empty and the total stays within 2^31, so that every write grows it.
- MemoryBuffer.TMemoryBuffer.ResetBuffer: the form that takes a new buffer is a construction and a swap and is not modelled, nor is reading into a string, which is the slow read.
- Crc32.Crc32C: models the loops on data of any length; the source asserts that there is some. The early return for null data in both CRC classes, the eight-at-a-time table loop without SOCKETITE_CRC32_BYFOUR, and CRC16 and CRC64 are not modelled.
- Aes.Context.SetKey: the lazy generation of the global tables is modelled by handing finished tables to the constructor; of the FIXED_TABLES literals only FSb is (SBoxTable.SBoxIsTable).
- AesAnswers.Cipher256: the example of appendix C.2 of FIPS 197, for 192 bits, is not worked out.
- AesEcb.Ecb.Encrypt: buffer lengths are unbounded, so the wrap of a 32-bit length near 2^32 is not modelled; input and output do not overlap. Modes other than ECB return 0 in this build and are left out.
- AesEcb.Ecb.Init: ignores the result of `aes_set_key`, as the source does; nothing is claimed for other key sizes.
- RWMutex.NoDeadlock: threads do not nest acquisitions (critical sections are re-entrant in the source); the try-locks, which always fail, the destructor's wait and the pthread branch are not modelled. Fairness is not claimed.
- LruHashtable.Table.PopUp: reads the tail's neighbour before the node is freed, which is the value the source means to read.
- LruHistory.RunIsRecent: capacity is fixed over a run; changing it with `init` is not modelled.
- Sha256.Context.Final: limited to messages below 2^61 bytes, where FIPS 180-2 is defined. OpenSSL-backed hashes are not modelled.
- Md5.Context.Body: loads words byte by byte in little-endian order; the direct load on little-endian machines is the same on memory it may read.
- Adler32.ComputeChecksum: null data, for which the source returns 1, is not modelled.
- TimerQueue.Queue.CancelTimer: a timer marked as active is in the active list, which stale handles are not (TimerQueue.CancelledIsStale, FiredIsStale); what the list class does with those is not part of this model. Null handles return 0 in the source and are left out, as are the event and handler objects and handlers that call back into the queue; deadlines do not wrap.
- TimerQueue.Queue.UpdateTimer: the same.
- TimerQueue.Queue.SetTimer: numbers each setting, which the source does not, so that two queues can be compared. The list class is not part of this model; its lists are sequences.
- MersenneTwister.Generator.RandomInt: leaves out the final `abs`, ranges, floating-point and character functions, and seeding from the clock.
- Base64.Decode: the reads and writes outside the buffers end the modelled call, and nothing is claimed about what the source makes of the memory there.
- TextAnswers.EscapesListed: follows the bitmaps; the comments beside them leave out the semicolon for `args` and list a percent sign for `refresh`.
- UrlCode.Decode: input is below 2^31 bytes, since the source counts in a signed number, and the output buffer is as long as the input.
- Sockets, runners, thread groups, TLS, file I/O, logging, allocation failure, factories, the disruptor and the circular buffer: plumbing, declarations, or easy members beside the above.
