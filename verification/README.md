# Verified models of the signalling stack

The repository ships a voice application together with the C++ that carries its signalling: the
WebSocket framing of websocketpp, the JSON document, writer and allocator of rapidjson, the
Socket.IO client, and the NAL unit scanner of libdatachannel. This project models the parts of
that code with the most logic in them and proves what they are for.

| files | what they model |
|---|---|
| `MachineWords.dfy`, `FrameMasking.dfy` | masking of WebSocket payloads, word by word and chunk by chunk, against one byte-wise pass |
| `FrameHeader.dfy` | building and reading the 2 to 14 bytes of a frame header |
| `Utf8Grammar.dfy`, `Utf8Validator.dfy`, `Utf8Codec.dfy`, `Bytes.dfy` | the grammar of RFC 3629, the automaton of websocketpp and the codec of rapidjson |
| `JsonValue.dfy`, `JsonDocument.dfy` | value trees, the events they send, the stack that rebuilds them, the deep copy |
| `JsonText.dfy`, `JsonWriter.dfy` | the writer with its level stack, a recursive print, and a reader of RFC 8259 that both are held against |
| `PoolAllocator.dfy` | the chunk list of the memory pool, live blocks and their contents |
| `SioMessage.dfy`, `SioPacket.dfy`, `SioReassembly.dfy`, `SioWire.dfy` | Socket.IO messages as JSON with attachments, packets as text, reassembly of payload streams, and all of it in a row |
| `SioClient.dfy` | connect, close, reconnect and backoff as a state machine |
| `SioSocket.dfy`, `SioSocketThreads.dfy` | queueing of packets, with atomic handlers and with interleaved threads |
| `Uri.dfy`, `Base64.dfy`, `NalUnit.dfy`, `Text.dfy`, `Widths.dfy` | URIs, base64, start codes, the text helpers they share, and integer widths |

Code that changes fields or buffers in place is modelled by classes and array methods, each tied
to a function of the old state; what the code promises is proved about these functions. Reference
definitions are written independently of the code: the UTF-8 grammar, the JSON reader, one
byte-wise masking pass, deliveries told by looking back at the stream, reconnects counted in a run.
Wire formats, constants and alphabets that a writer and a reader share are stated once more as
literals.

## What turned out not to hold

Each of these has a lemma with the exact condition and a concrete run or value. For the order in
which overlapping calls send, the condition suffices and is not necessary.

- `RAPIDJSON_ALIGN` masks with a 32-bit number: sizes above 0xFFFFFFFC reserve less than was asked for (`MallocKeepsIff`, `ReallocKeepsIff`, `TruncatedSizesOverlap`).
- A deep copy of a container changes a number of type kNumberType with default content (`CopyIsSameIff`, `DefaultNumberInArray`).
- Lowering the reconnect attempts during a run can leave more reconnects than configured (`NewLimitIsKeptIff`, `LimitExceededHappens`).
- A connection that opens while the client is closing cannot be closed by the client (`OrphanedIff`, `OpenedWhileClosingStays`, `OrphanedHappens`).
- close() does not stop an attempt that the reconnecting listener closes on, nor the attempt of a connect() that the network thread has not got round to yet (`DialsWhileClosingIff`, `DialsWhileClosingHappens`).
- After connect_impl refuses a URI the client stays opening, and connect() does nothing until a close() (`StuckIff`, `StuckHappens`, `ConnectGetsThroughIff`).
- With overlapping calls a connected socket can keep a queued packet, and its queue is tended exactly under `TendedIff` (`ConnectedWithQueue`). A disconnect can then drop packets, also one queued in the middle of it (`DroppedByDisconnect`, `DroppedWhileDisconnecting`); with the handlers on one network thread, as the client calls them, these two ways are all (`NeverImminentIff`), and in every interleaving `BecomesImminentIff` says which steps prepare a drop. Packets can overtake each other (`Overtaken`), but not when senders come one at a time (`SendersKeepOrder`); one call at a time drops nothing either (`OrderKept`, `NothingDroppedInTurn`).
- Doubles come back only if their texts are read as the same number: -0.0 is printed as 0.0 and lost (`BodyDecodesIff`, `NegativeZeroIsLost`).
- Objects that use the key `_placeholder` do not come back, unless its value is false (`RoundTripIff`, which takes a failed RAPIDJSON_ASSERT for no result; with NDEBUG, GetBool reads any value but true as false, and then an object whose reserved key maps to a number does come back); packets with an id and no message, or with a bare number, boolean or null as message, do not come back (`ParseUndoesAccept`, `CarriedIff`).
- A binary header that announces no attachment is delivered, without its message, only when the next attachment arrives, and that attachment is lost (`MessageIffAnnounced`, `UnannouncedLosesMessage`).
- `validator::decode` returns true on an empty piece after a rejection (`EmptyPieceAfterReject`). Its comments speak of an error result where the code returns true for success; the model follows the code.
- The comment of `word_mask_circ` has the output rounded up to whole words; the code writes exactly the length, and so does the model. The comment of the memory pool says that Realloc only allocates new memory; the code also grows the last block in place.

## Model

| member | source | states |
|---|---|---|
| FrameMasking.ByteMask | socket.io-client-cpp/lib/websocketpp/websocketpp/frame.hpp:644-655 | the masked range is the byte-wise mask of the old input with the key from the given offset on; everything outside the range is unchanged, also when input and output are one buffer |
| FrameMasking.WordMaskExact | socket.io-client-cpp/lib/websocketpp/websocketpp/frame.hpp:702-717 | masking word by word and then the tail gives the same bytes as one byte-wise pass with the four-byte key; nothing past the length changes |
| FrameMasking.WordMaskCirc | socket.io-client-cpp/lib/websocketpp/websocketpp/frame.hpp:768-789 | the output is the byte-wise mask with the memory image of the prepared word, and the returned word is the prepared key rotated by the length modulo the word size |
| FrameMasking.ByteMaskCirc | socket.io-client-cpp/lib/websocketpp/websocketpp/frame.hpp:830-841 | the output is the mask with the first four bytes of the word; the returned word is rotated by the length modulo four |
| MachineWords.CircshiftImage | socket.io-client-cpp/lib/websocketpp/websocketpp/frame.hpp:612-622 | rotating a key word rotates its image in memory: byte j of the rotated word is byte (j + offset) mod size of the old one, for either byte order and either size |
| MachineWords.Circle32Refines | socket.io-client-cpp/lib/websocketpp/websocketpp/frame.hpp:612-622 | the shift-and-or of a 32-bit machine word is the rotation of its octets, for every offset |
| MachineWords.Circle64Refines | socket.io-client-cpp/lib/websocketpp/websocketpp/frame.hpp:612-622 | the same for a 64-bit machine word |
| MachineWords.Xor32Refines | socket.io-client-cpp/lib/websocketpp/websocketpp/frame.hpp:702-717 | xor of 32-bit words is the octet-wise xor, so one word operation masks four bytes |
| MachineWords.Xor64Refines | socket.io-client-cpp/lib/websocketpp/websocketpp/frame.hpp:768-789 | the same for 64-bit words and eight bytes |
| MachineWords.PrepareRefines | socket.io-client-cpp/lib/websocketpp/websocketpp/frame.hpp:595-604 | the 64-bit prepared key holds the four key octets twice |
| FrameMasking.MaskChunksFrom | socket.io-client-cpp/lib/websocketpp/websocketpp/frame.hpp:768-789 | from any position on, masking chunk after chunk with the key that the chunk before returned is one byte-wise pass, and the last key returned continues it |
| FrameMasking.MaskingInChunks | socket.io-client-cpp/lib/websocketpp/websocketpp/frame.hpp:830-841 | however a payload is cut, and whichever of the two routines masks each chunk, the result is one byte-wise pass over the whole payload, for both word sizes and byte orders (section 5.3 of RFC 6455) |
| FrameMasking.MaskedTwice | socket.io-client-cpp/lib/websocketpp/websocketpp/frame.hpp:644-655 | masking twice with the same key restores the data |
| FrameMasking.OctetMasked | socket.io-client-cpp/lib/websocketpp/websocketpp/frame.hpp:644-655 | octet i of the data is combined by exclusive or with octet i modulo 4 of the key |
| FrameMasking.UnmaskingInOtherChunks | socket.io-client-cpp/lib/websocketpp/websocketpp/frame.hpp:768-789 | a receiver with another word size, byte order and cut of the payload gets the sender's payload back |
| FrameHeader.BasicHeader.constructor | socket.io-client-cpp/lib/websocketpp/websocketpp/frame.hpp:194-228 | the two octets bit by bit as section 5.2 of RFC 6455 draws them: FIN, RSV1 to RSV3 and four bits of opcode; the mask bit, and the size itself up to 125, 126 up to 65535, else 127; and they read back to the same |
| FrameHeader.BasicHeader.SetFin | socket.io-client-cpp/lib/websocketpp/websocketpp/frame.hpp:330-332 | the flag reads back as the value, and no other bit of the octet changes |
| FrameHeader.BasicHeader.SetMasked | socket.io-client-cpp/lib/websocketpp/websocketpp/frame.hpp:411-413 | the mask bit reads back as the value, and the length code stays |
| FrameHeader.ExtendedHeader.Masked | socket.io-client-cpp/lib/websocketpp/websocketpp/frame.hpp:246-256 | the size field in network order, then the key, then zeros |
| FrameHeader.ExtendedHeader.CopyPayload | socket.io-client-cpp/lib/websocketpp/websocketpp/frame.hpp:260-274 | writes the size in zero, two or eight network-order bytes and returns how many |
| FrameHeader.PrepareHeader | socket.io-client-cpp/lib/websocketpp/websocketpp/frame.hpp:489-502 | the string has exactly the length that the second octet announces, begins with the two octets, and goes on with a prefix of the extended header |
| FrameHeader.SizeReads | socket.io-client-cpp/lib/websocketpp/websocketpp/frame.hpp:445-477 | the readers of the second octet find the size, the key's offset and the header's length, whichever length form was used |
| FrameHeader.HeaderReadsBack | socket.io-client-cpp/lib/websocketpp/websocketpp/frame.hpp:516-585 | a header followed by any bytes reads back as the same fields, size and masking key (zeros when unmasked) |
| FrameHeader.HeaderIsShortest | socket.io-client-cpp/lib/websocketpp/websocketpp/frame.hpp:445-458 | no header with the same mask bit that reads as the same size is shorter, whatever its octets (section 5.2 of RFC 6455) |
| FrameHeader.BuildHeader | socket.io-client-cpp/lib/websocketpp/websocketpp/frame.hpp:489-502 | for all fields, 64-bit sizes and keys, byte by byte: the two octets of section 5.2 of RFC 6455, the size as zero, two or eight base-256 digits with the most significant first, and the key; no longer than any header that reads as the same size, and read back to the same fields, size and key before any payload |
| Utf8Validator.Validator.Decode | socket.io-client-cpp/lib/websocketpp/websocketpp/utf8_validator.hpp:104-114 | the state after a piece, and false as soon as the piece makes the automaton reject |
| Utf8Validator.Validate | socket.io-client-cpp/lib/websocketpp/websocketpp/utf8_validator.hpp:143-149 | true exactly when the string is a concatenation of the UTF8-char sequences of section 4 of RFC 3629 |
| Utf8Validator.AcceptedIffWellFormed | socket.io-client-cpp/lib/websocketpp/websocketpp/utf8_validator.hpp:45-78 | running the table from accept ends in accept exactly for the concatenations of that grammar, both directions |
| Utf8Validator.CharRuns | socket.io-client-cpp/lib/websocketpp/websocketpp/utf8_validator.hpp:69-78 | from accept, one character of the grammar leads back to accept, only at its end, and leaves its code point |
| Utf8Validator.TextRuns | socket.io-client-cpp/lib/websocketpp/websocketpp/utf8_validator.hpp:69-78 | over a whole text the automaton returns to accept once per character and the code points it leaves are those of the characters, in order |
| Utf8Validator.RejectIsForever | socket.io-client-cpp/lib/websocketpp/websocketpp/utf8_validator.hpp:45-78 | no input leads out of the reject state |
| Utf8Validator.FeedIsRun | socket.io-client-cpp/lib/websocketpp/websocketpp/utf8_validator.hpp:104-114 | decode's early exit does not change the state that a run over the whole piece would reach |
| Utf8Validator.PiecesGiveTheVerdict | socket.io-client-cpp/lib/websocketpp/websocketpp/utf8_validator.hpp:104-126 | however the input is split over calls of decode, complete() is true exactly for the well-formed whole, and then the last decode was true |
| Utf8Validator.EmptyPieceAfterReject | socket.io-client-cpp/lib/websocketpp/websocketpp/utf8_validator.hpp:104-114 | after a rejection decode is false on every piece but the empty one, on which it still returns true |
| Utf8Codec.InputStream.Decode | socket.io-client-cpp/lib/rapidjson/include/rapidjson/encodings.h:129-155 | true exactly when the bytes ahead begin with a character of the grammar; then it consumes that character and returns its code point; in any case it consumes what the first byte announces |
| Utf8Codec.OutputStream.Encode | socket.io-client-cpp/lib/rapidjson/include/rapidjson/encodings.h:107-127 | appends the one to four bytes of the code point |
| Utf8Codec.EncodedIsChar | socket.io-client-cpp/lib/rapidjson/include/rapidjson/encodings.h:107-127 | the bytes written are a character of the grammar exactly when the code point is no surrogate, and then the character with that number |
| Utf8Codec.CharIsEncoded | socket.io-client-cpp/lib/rapidjson/include/rapidjson/encodings.h:107-127 | every character of the grammar is what Encode writes for its number |
| Utf8Codec.EncodeThenDecode | socket.io-client-cpp/lib/rapidjson/include/rapidjson/encodings.h:107-155 | decoding what was encoded, whatever follows it, succeeds exactly for non-surrogates, gives the number back and consumes the bytes written |
| Utf8Codec.DecoderAgreesWithAutomaton | socket.io-client-cpp/lib/websocketpp/websocketpp/utf8_validator.hpp:69-78 | what Decode consumes on success is exactly what takes the automaton from accept to accept for the first time, with the same code point |
| Base64.Base64Encode | socket.io-client-cpp/lib/websocketpp/websocketpp/base64/base64.hpp:66-112 | the loop with its three-byte buffer writes the encoding of section 4 of RFC 4648, including the padded last group |
| Base64.Base64Decode | socket.io-client-cpp/lib/websocketpp/websocketpp/base64/base64.hpp:131-174 | the loop reads symbols up to the first other character, full groups and the partial last one |
| Base64.DecodingOfEncoding | socket.io-client-cpp/lib/websocketpp/websocketpp/base64/base64.hpp:131-174 | decoding the encoding gives every byte string back |
| Base64.EncodingLength | socket.io-client-cpp/lib/websocketpp/websocketpp/base64/base64.hpp:66-112 | the encoding of n bytes has 4 * ceil(n / 3) characters |
| Base64.EncodeThenDecode | socket.io-client-cpp/lib/websocketpp/websocketpp/base64/base64.hpp:66-174 | both loops one after the other return the input |
| Base64.Alphabet | socket.io-client-cpp/lib/websocketpp/websocketpp/base64/base64.hpp:43-46 | symbol i is the i-th of A to Z, a to z, 0 to 9, + and / |
| Base64.FoundIff | socket.io-client-cpp/lib/websocketpp/websocketpp/base64/base64.hpp:55-60 | a character is found at the place it has in the alphabet, and nowhere exactly when it has none |
| Base64.GroupEncodes | socket.io-client-cpp/lib/websocketpp/websocketpp/base64/base64.hpp:75-88 | three bytes become four symbols: six bits, two and four, four and two, six |
| Base64.RestEncodes | socket.io-client-cpp/lib/websocketpp/websocketpp/base64/base64.hpp:91-109 | one byte left gives two symbols and ==, two give three symbols and = |
| Base64.GroupDecodes | socket.io-client-cpp/lib/websocketpp/websocketpp/base64/base64.hpp:139-154 | four symbols give three bytes: six bits and two, four and four, two and six |
| Base64.RestDecodes | socket.io-client-cpp/lib/websocketpp/websocketpp/base64/base64.hpp:157-171 | two symbols left give one byte, three give two, and one alone nothing |
| Base64.BodyIs | socket.io-client-cpp/lib/websocketpp/websocketpp/base64/base64.hpp:139-139 | what is decoded is the longest prefix of characters of the alphabet, which = is not in |
| NalUnit.ScanFindsFirstCode | libdatachannel/include/rtc/nalunit.hpp:105-146 | for every byte string and separator kind but Length: the automaton is in a match state exactly when an allowed start code has ended in the string, reports long exactly when long codes are allowed and three zeros precede the first such 01, and stays there (Annex B of ITU-T H.264) |
| NalUnit.FindStartCode | libdatachannel/include/rtc/nalunit.hpp:105-146 | the same, for a loop that feeds the bytes one by one |
| NalUnit.LongFound | libdatachannel/include/rtc/nalunit.hpp:105-146 | looking for long codes, a match is reported exactly when 00 00 00 01 occurs, and as long |
| NalUnit.ShortFound | libdatachannel/include/rtc/nalunit.hpp:105-146 | looking for short codes or for both, a match is reported exactly when 00 00 01 occurs |
| NalUnit.FirstReported | libdatachannel/include/rtc/nalunit.hpp:105-146 | the first 00 01 behind a 00 is reported as long exactly when both are looked for and one more zero precedes it |
| Uri.Parse | socket.io-client-cpp/lib/websocketpp/websocketpp/uri.hpp:51-168 | the parsing constructor, cursor and state by cursor and state, gives the fields that the scheme, host and port parts determine, or no valid URI |
| Uri.ReadBracketedHost | socket.io-client-cpp/lib/websocketpp/websocketpp/uri.hpp:84-119 | a host in brackets up to the first closing one, and what must follow it |
| Uri.ReadPlainHost | socket.io-client-cpp/lib/websocketpp/websocketpp/uri.hpp:120-137 | a host up to the first slash or colon |
| Uri.RoundTripIffPrintable | socket.io-client-cpp/lib/websocketpp/websocketpp/uri.hpp:274-292 | parsing str() returns the same URI exactly when the scheme is one of the four and goes with the secure flag, the port is 1 to 65535, the resource starts with a slash, and the host has no slash, no colon and no bracket at its start |
| Uri.Printed | socket.io-client-cpp/lib/websocketpp/websocketpp/uri.hpp:274-286 | str() leaves the port out exactly when it is 443 with a secure scheme and 80 with the other |
| Uri.ParsedWithPort | socket.io-client-cpp/lib/websocketpp/websocketpp/uri.hpp:51-168 | for each scheme, host with or without brackets, port text and path: each is what stands in its place, or no valid URI when the port text is no number from 1 to 65535 |
| Uri.ParsedWithoutPort | socket.io-client-cpp/lib/websocketpp/websocketpp/uri.hpp:51-168 | without a port text the port is 80, or 443 for wss and https; without a path the resource is a slash |
| Uri.PortIs | socket.io-client-cpp/lib/websocketpp/websocketpp/uri.hpp:321-341 | the scheme's own port for an empty text, otherwise its number if that is from 1 to 65535 |
| Uri.BadBracket | socket.io-client-cpp/lib/websocketpp/websocketpp/uri.hpp:84-119 | a bracket that is not closed, or is followed by neither port nor path, is no valid URI |
| Uri.NoScheme | socket.io-client-cpp/lib/websocketpp/websocketpp/uri.hpp:56-78 | so is a text that does not begin with one of the four schemes and have something behind it |
| JsonValue.ConstructorsAgree | socket.io-client-cpp/lib/rapidjson/include/rapidjson/document.h:499-535 | the flags and raw bits of a number depend on the integer only, not on which of the four constructors made it |
| JsonValue.UnionReads | socket.io-client-cpp/lib/rapidjson/include/rapidjson/document.h:499-535 | every union member that a flag allows to read holds the number that was stored |
| JsonDocument.Accept | socket.io-client-cpp/lib/rapidjson/include/rapidjson/document.h:1433-1473 | for every tree and any prior stack: the stack keeps its contents and gets exactly one value on top, the rebuilt tree |
| JsonDocument.Document.EndObject | socket.io-client-cpp/lib/rapidjson/include/rapidjson/document.h:1892-1896 | pops the names and values and makes them the members of the object below, in order |
| JsonDocument.Document.EndArray | socket.io-client-cpp/lib/rapidjson/include/rapidjson/document.h:1900-1904 | pops the elements into the array below, in order |
| JsonDocument.RebuiltIsSameIff | socket.io-client-cpp/lib/rapidjson/include/rapidjson/document.h:1872-1904 | the value on the stack equals the source in member order, strings, storage and number flags exactly when no number in it is a default value of type kNumberType |
| JsonDocument.DeepCopy | socket.io-client-cpp/lib/rapidjson/include/rapidjson/document.h:1939-1961 | containers are copied through the handler of a document of their own, everything else directly |
| JsonDocument.CopyIsSameIff | socket.io-client-cpp/lib/rapidjson/include/rapidjson/document.h:1939-1961 | the deep copy equals its source exactly when it is itself a number or holds no default number |
| JsonDocument.DefaultNumberInArray | socket.io-client-cpp/lib/rapidjson/include/rapidjson/document.h:458-472 | a default number inside an array comes out of a deep copy without its double flag |
| JsonWriter.Writer.Prefix | socket.io-client-cpp/lib/rapidjson/include/rapidjson/writer.h:323-341 | the separator that the innermost level calls for, and that level's counter one up |
| JsonWriter.Writer.WriteString | socket.io-client-cpp/lib/rapidjson/include/rapidjson/writer.h:250-316 | the loop writes the quoted string with the escapes of section 7 of RFC 8259 |
| JsonWriter.Accept | socket.io-client-cpp/lib/rapidjson/include/rapidjson/document.h:1433-1473 | wherever a value may stand, its events append the separator of the place and the recursive print of the value, and the level stack returns to its depth with one value more counted |
| JsonWriter.WriteDocument | socket.io-client-cpp/lib/rapidjson/include/rapidjson/writer.h:128-174 | a new writer's text for any tree is its recursive print, the writer is complete, and the grammar of RFC 8259, numbers included, gives the tree's meaning back and consumes all of it |
| JsonText.QuotedReads | socket.io-client-cpp/lib/rapidjson/include/rapidjson/writer.h:250-316 | unescaping what WriteString wrote by section 7 of RFC 8259 gives the original bytes, whatever follows |
| JsonText.PrintedReads | socket.io-client-cpp/lib/rapidjson/include/rapidjson/writer.h:128-174 | the print of every tree, with anything but a number character behind it, is read by the grammar of RFC 8259 as that tree, numbers by the production of its section 6, and reading stops at its end |
| JsonText.ValuePrinted | socket.io-client-cpp/lib/rapidjson/include/rapidjson/document.h:1433-1473 | literals, quoted strings, and elements or name and value pairs in their order, each after a comma but the first |
| JsonText.EscapeIs | socket.io-client-cpp/lib/rapidjson/include/rapidjson/writer.h:250-316 | which bytes are escaped and by what: quote and backslash, the five short forms, and u00 with two capital hexadecimal digits for the other control characters |
| JsonText.NumberPrinted | socket.io-client-cpp/lib/rapidjson/include/rapidjson/document.h:1462-1467 | every integer from -2^63 to 2^64 - 1 is printed as that integer, every double as that double, whichever flags it has |
| PoolAllocator.AlignRoundsUpIff | socket.io-client-cpp/lib/rapidjson/include/rapidjson/allocators.h:168-176 | RAPIDJSON_ALIGN rounds up exactly for sizes up to 0xFFFFFFFC; its mask has 32 bits |
| PoolAllocator.MallocIs | socket.io-client-cpp/lib/rapidjson/include/rapidjson/allocators.h:168-176 | a block lies at the mark of the first chunk when the rest is enough for the aligned size, otherwise at the beginning of a new chunk, as large as the pool was told or as the block needs; the mark moves by the aligned size |
| PoolAllocator.ReallocIs | socket.io-client-cpp/lib/rapidjson/include/rapidjson/allocators.h:179-201 | a block stays exactly when it shrinks, or ends at the mark and has room to grow, and then the mark moves by the aligned growth; otherwise it is allocated anew |
| PoolAllocator.EveryRunAligned | socket.io-client-cpp/lib/rapidjson/include/rapidjson/allocators.h:168-201 | every pointer that any sequence of calls returns is a multiple of four, if those of the base allocator are |
| PoolAllocator.MemoryPoolAllocator.Malloc | socket.io-client-cpp/lib/rapidjson/include/rapidjson/allocators.h:168-176 | a new chunk in front if the first one is full, its mark moved by the aligned size, and the old mark as pointer; the rest of the list unchanged |
| PoolAllocator.MemoryPoolAllocator.Realloc | socket.io-client-cpp/lib/rapidjson/include/rapidjson/allocators.h:179-201 | null allocates; smaller returns the same pointer; the last block grows in place when there is room; otherwise a new block with the old bytes copied; the whole new list and memory are stated |
| PoolAllocator.MemoryPoolAllocator.AddChunk | socket.io-client-cpp/lib/rapidjson/include/rapidjson/allocators.h:215-223 | one chunk more in front of an unchanged list |
| PoolAllocator.MemoryPoolAllocator.Clear | socket.io-client-cpp/lib/rapidjson/include/rapidjson/allocators.h:139-145 | frees the chunks in front of the user's buffer and nothing else; the buffer's mark stays |
| PoolAllocator.MemoryPoolAllocator.Capacity | socket.io-client-cpp/lib/rapidjson/include/rapidjson/allocators.h:150-155 | the sum of the capacities along the list |
| PoolAllocator.MemoryPoolAllocator.Size | socket.io-client-cpp/lib/rapidjson/include/rapidjson/allocators.h:160-165 | the sum of the used parts along the list |
| PoolAllocator.SizeWithinCapacity | socket.io-client-cpp/lib/rapidjson/include/rapidjson/allocators.h:150-165 | what is used never exceeds what there is |
| PoolAllocator.MallocKeepsIff | socket.io-client-cpp/lib/rapidjson/include/rapidjson/allocators.h:168-176 | after Malloc all live blocks, the new one among them, are disjoint and inside the used part of a chunk, with every size within its capacity and chunks apart, exactly when the size is at most 0xFFFFFFFC |
| PoolAllocator.ReallocKeepsIff | socket.io-client-cpp/lib/rapidjson/include/rapidjson/allocators.h:179-201 | Realloc of a live block with its true size keeps the same, exactly when the newly reserved part is at most 0xFFFFFFFC |
| PoolAllocator.HomeIsUnique | socket.io-client-cpp/lib/rapidjson/include/rapidjson/allocators.h:168-176 | a block lies in the used part of one chunk only, even when it is empty |
| PoolAllocator.LastBlockIsInHead | socket.io-client-cpp/lib/rapidjson/include/rapidjson/allocators.h:188-195 | the test by address for the last allocation is right: a live block that ends at the mark is in the first chunk, whatever chunk lies next to it in memory |
| PoolAllocator.ReallocKeepsContents | socket.io-client-cpp/lib/rapidjson/include/rapidjson/allocators.h:179-201 | the block keeps its old bytes, and every other live block stays where it is with the bytes it had |
| PoolAllocator.CopyIsSound | socket.io-client-cpp/lib/rapidjson/include/rapidjson/allocators.h:198-200 | source and target of the copy do not overlap |
| PoolAllocator.NewPoolsKeep | socket.io-client-cpp/lib/rapidjson/include/rapidjson/allocators.h:104-128 | both constructors begin with a pool that is in order: empty, or with the user's buffer as its only chunk |
| PoolAllocator.EveryRunKeeps | socket.io-client-cpp/lib/rapidjson/include/rapidjson/allocators.h:168-201 | after any sequence of Malloc and Realloc calls that fit, live blocks are disjoint and housed |
| PoolAllocator.TruncatedSizesOverlap | socket.io-client-cpp/lib/rapidjson/include/rapidjson/allocators.h:168-176 | a size of 2^32 reserves nothing, and the next block overlaps it |
| SioMessage.Encoder.AcceptMessage | socket.io-client-cpp/src/internal/sio_packet.cpp:81-129 | the JSON value of the message, and the list of attachments grown by exactly its binary leaves in traversal order |
| SioMessage.Encoder.AcceptArray | socket.io-client-cpp/src/internal/sio_packet.cpp:59-67 | the elements one after the other, all appending to the same list |
| SioMessage.Encoder.AcceptObject | socket.io-client-cpp/src/internal/sio_packet.cpp:69-79 | the members in key order, names copied, all appending to the same list |
| SioMessage.RoundTripIff | socket.io-client-cpp/src/internal/sio_packet.cpp:131-188 | from_json of the encoded tree, its leaves at any position of the list, is the tree exactly when no object in it gives the key _placeholder a value other than false |
| SioMessage.ObjectDecodesTo | socket.io-client-cpp/src/internal/sio_packet.cpp:154-177 | any JSON object, its members in any order and names repeated or not, that decodes to a map: the keys ascend, they are exactly the names of the members, and each has what the last member of that name decodes to |
| SioMessage.DecodesToMapIff | socket.io-client-cpp/src/internal/sio_packet.cpp:154-177 | an object decodes to a map exactly when its first member named _placeholder, if it has one, is false, and every member decodes |
| SioMessage.PlaceholderDecodesTo | socket.io-client-cpp/src/internal/sio_packet.cpp:157-167 | an object whose first _placeholder is true is the attachment with its num, and a null pointer when there is none with that number |
| SioMessage.BadPlaceholder | socket.io-client-cpp/src/internal/sio_packet.cpp:157-167 | an object whose _placeholder is no boolean, or true without an int for num, fails an assertion |
| SioMessage.ArrayDecodesTo | socket.io-client-cpp/src/internal/sio_packet.cpp:146-153 | the elements decode one by one, in order |
| SioMessage.ScalarsDecodeTo | socket.io-client-cpp/src/internal/sio_packet.cpp:131-145 | null, booleans, strings and doubles to what they are; an integer to itself below 2^63 and to a null pointer from there on |
| SioMessage.ScalarsEncodeTo | socket.io-client-cpp/src/internal/sio_packet.cpp:31-57 | each kind of leaf, and for binary data the object with _placeholder true and the attachment's number as num |
| SioMessage.ElementsEncodeTo | socket.io-client-cpp/src/internal/sio_packet.cpp:59-67 | element i is encoded with the number of attachments before it |
| SioMessage.MembersEncodeTo | socket.io-client-cpp/src/internal/sio_packet.cpp:69-79 | so is member i, whose name is the key |
| SioMessage.Numbering | socket.io-client-cpp/src/internal/sio_packet.cpp:47-57 | the placeholders in the encoded tree are numbered consecutively from the number of attachments before it, in traversal order, across nested arrays and objects |
| SioMessage.EncodeThenDecode | socket.io-client-cpp/src/internal/sio_packet.cpp:47-188 | encoding and decoding a whole message: the buffers are its binary leaves, and the tree comes back exactly under that condition |
| SioPacket.Packet.Accept | socket.io-client-cpp/src/internal/sio_packet.cpp:341-392 | the text of the packet, its attachments, and the type raised to its binary form when there are any |
| SioPacket.Packet.Parse | socket.io-client-cpp/src/internal/sio_packet.cpp:266-339 | the fields after reading any text, exceptions of the number conversions included |
| SioPacket.Packet.ParseBuffer | socket.io-client-cpp/src/internal/sio_packet.cpp:246-264 | takes one attachment; the last one completes the message with all attachments in order |
| SioPacket.ParseUndoesAccept | socket.io-client-cpp/src/internal/sio_packet.cpp:266-392 | type, attachment count, namespace, id and JSON text come back exactly when the namespace is empty or starts with a slash and has no comma, the JSON starts with a bracket, brace or quote, no id goes without a message, and a binary type goes with attachments, fewer than 2^32 |
| SioPacket.ControlComesBack | socket.io-client-cpp/src/internal/sio_packet.cpp:266-346 | a control packet's one digit is read back as its frame, with no message, id or attachments |
| SioPacket.PrintedDigits | socket.io-client-cpp/src/internal/sio_packet.cpp:341-363 | an event begins with 42 and an acknowledgement with 43 without attachments, 45 and 46 with them; every other type with its own digit |
| SioPacket.PrintedText | socket.io-client-cpp/src/internal/sio_packet.cpp:364-391 | behind the two digits: the attachment count and a hyphen if there are any, the namespace unless it is the default one, a comma if an id or message follows it, the id unless it is negative, and the JSON text |
| Text.NumberReads | socket.io-client-cpp/src/internal/sio_packet.cpp:322-325 | stoi, stoul and atoi find the number that spaces, an optional sign and digits at the beginning stand for, whatever follows, and none without digits |
| SioPacket.ControlWithJson | socket.io-client-cpp/src/internal/sio_packet.cpp:266-339 | a control packet's digit with JSON text behind it is read as that frame with that message |
| SioPacket.CountIs | socket.io-client-cpp/src/internal/sio_packet.cpp:282-286 | the attachment count is what stands before the first hyphen; without a hyphen it is all that follows the type, and the rest is read from the front again |
| SioPacket.NamespaceIs | socket.io-client-cpp/src/internal/sio_packet.cpp:289-316 | the namespace goes from its slash to the first comma of the whole text, or to the end when that comma stands before it; JSON is looked for behind the comma in either case |
| SioPacket.StoiLimits | socket.io-client-cpp/src/internal/sio_packet.cpp:324-324 | an id is read exactly up to 2^31 - 1, or 2^31 with a minus, and throws beyond |
| SioPacket.StoulLimits | socket.io-client-cpp/src/internal/sio_packet.cpp:284-284 | a count below 2^64 is cut to 32 bits, with a minus its two's complement is, and it throws beyond |
| SioPacket.KnownKind | socket.io-client-cpp/src/internal/sio_packet.cpp:275-339 | a text whose second digit is 0 to 6 has that type, and only 5 and 6 ask for attachments |
| SioPacket.UnknownKindIgnored | socket.io-client-cpp/src/internal/sio_packet.cpp:275-280 | any other second character ends the reading there |
| SioReassembly.PacketManager.Encode | socket.io-client-cpp/src/internal/sio_packet.cpp:436-466 | the encode callback gets the packet's text as text and then each binary leaf as it is, as binary and in order |
| SioPacket.TailShape | socket.io-client-cpp/src/internal/sio_packet.cpp:289-325 | whatever is read, the namespace starts with a slash, JSON text with a bracket, brace or quote, and an id has JSON behind it |
| SioReassembly.PacketManager.PutPayload | socket.io-client-cpp/src/internal/sio_packet.cpp:468-509 | one step of the reassembly on any payload, the partial packet and the deliveries after it; an exception leaves both as they were |
| SioReassembly.SortIs | socket.io-client-cpp/src/internal/sio_packet.cpp:468-509 | what begins with byte 4 is an attachment; anything else is delivered as it was parsed, control packets as well as messages, unless it is a message for which parse() asks for attachments, or parse() throws |
| SioReassembly.ControlDelivered | socket.io-client-cpp/src/internal/sio_packet.cpp:496-508 | in every run, a control payload that is read adds exactly that packet to the deliveries and leaves the partial packet as it was |
| SioReassembly.MessageDelivered | socket.io-client-cpp/src/internal/sio_packet.cpp:475-486 | in every run, a message is delivered at once or becomes the partial packet, as parse() says; a throw changes nothing |
| SioReassembly.PingWhileWaiting | socket.io-client-cpp/src/internal/sio_packet.cpp:468-509 | a ping between a header and its attachment: both packets are delivered, the ping first |
| SioReassembly.OpenDelivered | socket.io-client-cpp/src/internal/sio_packet.cpp:496-508 | the opening packet of a connection is delivered with its JSON |
| SioReassembly.PacketManager.Reset | socket.io-client-cpp/src/internal/sio_packet.cpp:431-434 | the partial packet is gone, deliveries are not |
| SioReassembly.Reassembles | socket.io-client-cpp/src/internal/sio_packet.cpp:468-509 | over every stream, the packets delivered are those told by looking back: each complete packet at once, and each header together with the attachments since it, when the last of them arrives; the partial packet is the latest header with fewer attachments than it needs |
| SioReassembly.DeliveredWithTheLast | socket.io-client-cpp/src/internal/sio_packet.cpp:246-264 | a header announcing n >= 1 attachments is delivered once, with the n-th attachment after it, attachments in order of arrival; what came between was delivered before it |
| SioReassembly.DeliveredInFull | socket.io-client-cpp/src/internal/sio_packet.cpp:468-509 | any header, also one that announces nothing, is delivered with the last attachment it needs, what came between before it |
| SioReassembly.MessageIffAnnounced | socket.io-client-cpp/src/internal/sio_packet.cpp:246-264 | what is delivered for a header has a message exactly when the header announced at least one attachment |
| SioReassembly.UnannouncedLosesMessage | socket.io-client-cpp/src/internal/sio_packet.cpp:326-330 | the text 450-[] and one attachment payload: delivered without its message, and the attachment is gone |
| SioReassembly.WhileWaiting | socket.io-client-cpp/src/internal/sio_packet.cpp:468-509 | until then complete packets pass through and leave the partial packet as it is |
| SioReassembly.OpeningForgets | socket.io-client-cpp/src/internal/sio_packet.cpp:326-330 | after a new header or a reset nothing depends on the packet that was partial before |
| SioWire.CarriedIff | socket.io-client-cpp/src/internal/sio_packet.cpp:341-392 | a message's JSON text can be carried exactly when it is a string, binary, array or object; bare numbers, booleans and null cannot |
| SioWire.TextIsUnderstood | socket.io-client-cpp/src/internal/sio_packet.cpp:266-392 | the text of an event or acknowledgement is taken as complete or as a header, as its binary leaves say, with all fields |
| SioWire.SentIsDelivered | socket.io-client-cpp/src/internal/sio_packet.cpp:436-509 | the text of a message followed by one attachment payload for each binary leaf is delivered as one packet, of type 2, or 5 with attachments, for an event and 3 or 6 for an acknowledgement, with the same namespace, id, JSON text and the payloads in order, whatever was partial before |
| SioWire.BodyDecodesIff | socket.io-client-cpp/src/internal/sio_packet.cpp:131-188 | reading the JSON text by the grammar and applying from_json with the leaves gives the message back exactly when no object in it gives _placeholder a value other than false and each of its numbers is read from its text as that number; the attachments' numbers and number texts are taken to be read |
| SioWire.MessageArrives | socket.io-client-cpp/src/internal/sio_packet.cpp:436-509 | what encode sends for a message whose leaves begin with byte 4 is delivered as one packet, of type 2, 3, 5 or 6 as it is an event or an acknowledgement without or with leaves, and the message is rebuilt from it exactly under those two conditions |
| SioWire.OneTextOneNumber | socket.io-client-cpp/lib/rapidjson/include/rapidjson/writer.h:242-248 | two doubles with one text cannot both come back, whatever reads them |
| SioWire.NegativeZeroIsLost | socket.io-client-cpp/lib/rapidjson/include/rapidjson/internal/dtoa.h:200-206 | both zeros are printed as 0.0, so an array with -0.0 does not come back where one with 0.0 does |
| SioClient.ClientImpl.TimeoutReconnect | socket.io-client-cpp/src/internal/sio_client_impl.cpp:344-359 | the whole state after the reconnect timer: nothing unless closed, else one more reconnect and one more attempt, also when the listener closes |
| SioClient.ClientImpl.OnFail | socket.io-client-cpp/src/internal/sio_client_impl.cpp:394-420 | the whole state after a failed attempt: closing stays closing, otherwise closed, and a timer exactly if attempts are left and retries are not aborted |
| SioClient.ClientImpl.OnOpen | socket.io-client-cpp/src/internal/sio_client_impl.cpp:422-437 | the whole state after an attempt succeeds |
| SioClient.ClientImpl.OnClose | socket.io-client-cpp/src/internal/sio_client_impl.cpp:439-488 | the whole state after a connection ends, and a reconnect timer exactly if it ended abnormally, the client was not closing, attempts are left and retries are not aborted |
| SioClient.ClientImpl.ConnectFinishes | socket.io-client-cpp/src/internal/sio_client_impl.cpp:104-124 | the whole state after the part of connect() behind the join |
| SioClient.ClientImpl.RunTask | socket.io-client-cpp/src/internal/sio_client_impl.cpp:302-319 | the oldest posted handler runs: connect_impl or close_impl |
| SioClient.LostConnectionRetriesIff | socket.io-client-cpp/src/internal/sio_client_impl.cpp:439-488 | in every reachable state: a connection that ends leaves a reconnect timer running exactly when it ended abnormally, the client was not closing, attempts are left and retries are not aborted; m_con is gone, and the client closed, or closing when the listener of the retry closes it |
| SioClient.FailedAttemptRetriesIff | socket.io-client-cpp/src/internal/sio_client_impl.cpp:394-420 | the same for an attempt that fails |
| SioClient.WaitsIff | socket.io-client-cpp/src/internal/sio_client_impl.cpp:394-488 | in every run the reconnect timer is running exactly when a retry has been announced and since then it has not expired and neither connect(), a close() in the network thread nor the ping timeout has cancelled it |
| SioClient.OpenedIff | socket.io-client-cpp/src/internal/sio_client_impl.cpp:422-437 | in every run the client is opened exactly when a connection has opened while it was not closing, and neither a close, the end of the connection nor a new connect() has come since |
| SioClient.ConIff | socket.io-client-cpp/src/internal/sio_client_impl.cpp:422-488 | in every run m_con is set exactly when a connection has opened while the client was not closing, and nothing went down since |
| SioClient.OpeningIff | socket.io-client-cpp/src/internal/sio_client_impl.cpp:81-126 | in every run the client is opening exactly when a connect() got through or a reconnect was dispatched that its listener did not close, and neither a close nor the outcome of the attempt has come since |
| SioClient.ClosingIff | socket.io-client-cpp/src/internal/sio_client_impl.cpp:158-177 | in every run the client is closing exactly when some close has come, and neither the end of a connection nor a connect() since |
| SioClient.AbortedIff | socket.io-client-cpp/src/internal/sio_client_impl.cpp:158-177 | in every run retries are aborted exactly when some close has come and no connect() got through since |
| SioClient.CountsMove | socket.io-client-cpp/src/internal/sio_client_impl.cpp:302-437 | which steps add and take away expired timers, attempts and connections, and no others do; an attempt is started by the connect_impl of a connect() or of a reconnect alone |
| SioClient.QueueMoves | socket.io-client-cpp/src/internal/sio_client_impl.cpp:104-177 | which steps post a handler, at the end, and that the oldest is run |
| SioClient.LoopMoves | socket.io-client-cpp/src/internal/sio_client_impl.cpp:104-177 | the loop runs from a connect() until it ends by itself, and the thread is there from a connect() until a sync_close() that joined it |
| SioClient.CallerMoves | socket.io-client-cpp/src/internal/sio_client_impl.cpp:81-177 | connect() goes on to join unless it finds the client opening or opened with a thread, sync_close() joins exactly when there is a thread, and each goes on only when the loop is over |
| SioClient.SyncCloseLeavesNothing | socket.io-client-cpp/src/internal/sio_client_impl.cpp:166-177 | in every run, when a sync_close() that joined returns, no timer, attempt or connection is left, and the client is closing or closed |
| SioClient.SettingsMove | socket.io-client-cpp/src/internal/sio_client_impl.h:121-125 | attempts and delays are what was set last; setting one delay past the other moves the other along |
| SioClient.AtMostOne | socket.io-client-cpp/src/internal/sio_client_impl.cpp:81-126 | in every run at most one of these: a timer that may still call, an attempt about to start, an attempt, a live connection; with the connection state that each implies |
| SioClient.NoReconnectAfterClose | socket.io-client-cpp/src/internal/sio_client_impl.cpp:158-177 | between a close(), from any thread, from a listener inside a handler, or from on_open and on_fail themselves, and the next connect() that gets through, no reconnect is dispatched, whatever calls and handlers come in between |
| SioClient.MadeIsReconnects | socket.io-client-cpp/src/internal/sio_client_impl.cpp:344-359 | m_reconn_made is the number of reconnects in the run since the last connect() or successful open, and never wraps around |
| SioClient.AttemptsAreLimited | socket.io-client-cpp/src/internal/sio_client_impl.cpp:394-420 | that number stays within the configured attempts in every run in which the limit is never set below what was made and what is pending |
| SioClient.NewLimitIsKeptIff | socket.io-client-cpp/src/internal/sio_client_impl.h:121-121 | set_reconnect_attempts in the middle of a run is kept by all continuations exactly when the new limit is at least the reconnects made plus the one whose timer is already set |
| SioClient.LimitExceededHappens | socket.io-client-cpp/src/internal/sio_client_impl.cpp:406-415 | a run in which the first attempt has failed, its timer is set, and a limit of 0 set then is exceeded |
| SioClient.BecomesOrphanedIff | socket.io-client-cpp/src/internal/sio_client_impl.cpp:422-428 | in one step a live connection without m_con comes about exactly when a connection opens while the client is closing |
| SioClient.StaysOrphanedIff | socket.io-client-cpp/src/internal/sio_client_impl.cpp:302-319 | it stays, with the client closing, exactly as long as the other end does not close it |
| SioClient.OrphanedIff | socket.io-client-cpp/src/internal/sio_client_impl.cpp:422-437 | in every run there is a connection that the client cannot close exactly when one opened while it was closing and has not ended since; it is the only one then |
| SioClient.OpenedWhileClosingStays | socket.io-client-cpp/src/internal/sio_client_impl.cpp:422-428 | from such an opening on, through every continuation without on_close, there is one live connection, no m_con, and the client is closing |
| SioClient.OrphanedHappens | socket.io-client-cpp/src/internal/sio_client_impl.cpp:158-164 | connect(), close(), and the attempt succeeds: a run that reaches such a connection |
| SioClient.DialsWhileClosingIff | socket.io-client-cpp/src/internal/sio_client_impl.cpp:344-359 | a step starts an attempt and leaves the client closing exactly in two cases: the reconnecting listener closes just before an attempt that connect_impl accepts, or the connect_impl of a connect() is run, and accepted, after a close() |
| SioClient.DialsWhileClosingHappens | socket.io-client-cpp/src/internal/sio_client_impl.cpp:158-164 | both happen: a run with close() from the listener, and connect() followed by close() |
| SioClient.StuckIff | socket.io-client-cpp/src/internal/sio_client_impl.cpp:236-300 | in every run the client is opening with nothing pending exactly when connect_impl refused an attempt and neither close() nor a connect() that was already waiting has come since |
| SioClient.StuckHappens | socket.io-client-cpp/src/internal/sio_client_impl.cpp:263-299 | a run: connect() with a URI or proxy that connect_impl refuses |
| SioClient.ConnectGetsThroughIff | socket.io-client-cpp/src/internal/sio_client_impl.cpp:81-104 | a connect() can come to its last part, the network taking its course, exactly when it finds the client closing or closed; otherwise it has returned |
| SioClient.LoopCanEnd | socket.io-client-cpp/src/internal/sio_client_impl.cpp:166-177 | from every reachable state the loop can come to its end by handlers alone, so no join waits for what cannot happen |
| SioClient.ClientImpl.NextDelay | socket.io-client-cpp/src/internal/sio_client_impl.cpp:361-366 | never more than the maximum, nor less than the configured delay when that is at most the maximum, which every run keeps |
| SioClient.DelayIsBetween | socket.io-client-cpp/src/internal/sio_client_impl.cpp:361-366 | the configured delay is a lower bound and the maximum an upper bound of the wait |
| SioClient.DelayGrows | socket.io-client-cpp/src/internal/sio_client_impl.cpp:361-366 | the wait never decreases as the number of reconnects grows |
| SioClient.DelayIff | socket.io-client-cpp/src/internal/sio_client_impl.cpp:361-366 | the wait is the largest whole number of milliseconds m with m * 2^n <= delay * 3^n and m <= maximum, n being the reconnects made, at most 32 |
| SioClient.DefaultDelays | socket.io-client-cpp/src/internal/sio_client_impl.cpp:361-366 | with the settings of a new client it is 5000, 7500, 11250, 16875 and from then on 25000 |
| SioClient.BackoffInEveryRun | socket.io-client-cpp/src/internal/sio_client_impl.h:123-125 | the bounds hold after any sequence of setter calls and handlers |
| SioSocket.Socket.SendPacket | socket.io-client-cpp/src/sio_socket.cpp:508-532 | connected: the queue and then the packet are sent; not connected: the packet is queued; after on_close: it is thrown away |
| SioSocket.Socket.OnConnected | socket.io-client-cpp/src/sio_socket.cpp:316-341 | whatever the listener emits or closes, then the rest of the queue, is sent in order |
| SioSocket.Socket.OnDisconnect | socket.io-client-cpp/src/sio_socket.cpp:370-381 | a connected socket drops its queue, an unconnected one keeps it |
| SioSocket.Socket.OnClose | socket.io-client-cpp/src/sio_socket.cpp:343-363 | forgets the client and drops the queue |
| SioSocket.NothingIsLost | socket.io-client-cpp/src/sio_socket.cpp:268-285 | in every run with re-entrant listeners, sent, then queued, then dropped packets are the submitted ones in order, each once; a connected socket has an empty queue; nothing is dropped before on_close |
| SioSocket.UntilClose | socket.io-client-cpp/src/sio_socket.cpp:316-381 | until on_close the packets passed to the client followed by the queue are exactly the submitted sequence |
| SioSocket.SilentAfterClose | socket.io-client-cpp/src/sio_socket.cpp:343-363 | after on_close nothing is sent or queued any more |
| SioSocket.ConnectedIff | socket.io-client-cpp/src/sio_socket.cpp:316-381 | in every run the socket is connected exactly when on_connected has come, and neither on_disconnect since nor on_close at all; it has its client exactly until on_close |
| SioSocket.EmittedGoes | socket.io-client-cpp/src/sio_socket.cpp:508-532 | a packet is sent at once by a connected socket, queued by another, and lost without a client |
| SioSocket.CloseSends | socket.io-client-cpp/src/sio_socket.cpp:298-314 | close() sends its packet from a connected socket and does nothing in another |
| SioSocket.HandlersSend | socket.io-client-cpp/src/sio_socket.cpp:316-381 | on_connected sends what has waited; on_disconnect and on_close send nothing, and the first leaves an unconnected queue as it is |
| SioSocketThreads.Conserved | socket.io-client-cpp/src/sio_socket.cpp:508-532 | when threads interleave at every field access and lock, each packet is sent, queued, dropped or in a call's hand as often in all as it was submitted |
| SioSocketThreads.OrderKept | socket.io-client-cpp/src/sio_socket.cpp:268-285 | when a call begins only after all earlier ones have ended, disconnects, closes and listeners included: sent, the packet taken from the queue, queue, dropped, and the packet just given are the submitted ones in order, at every step inside a call |
| SioSocketThreads.SendersKeepOrder | socket.io-client-cpp/src/sio_socket.cpp:316-341 | with send_packet, close() and on_connected one at a time, and on_disconnect and on_close overlapping them freely, sent packets, the one taken from the queue, the queue and the one just given are in the order of submission, some possibly dropped |
| SioSocketThreads.NothingDroppedInTurn | socket.io-client-cpp/src/sio_socket.cpp:370-381 | under the same condition and without on_close nothing is dropped, so sent packets and the queue are the submitted sequence |
| SioSocketThreads.BecomesImminentIff | socket.io-client-cpp/src/sio_socket.cpp:370-381 | in every interleaving a step brings about a state in which on_disconnect would next drop packets exactly when on_disconnect clears the flag with packets in the queue, or a packet is queued between that and the drop |
| SioSocketThreads.HandlerMakesImminentIff | socket.io-client-cpp/src/sio_socket.cpp:316-381 | with on_connected and on_disconnect on one network thread, the first case is that of a connected socket whose queue nobody tends |
| SioSocketThreads.NeverImminentIff | socket.io-client-cpp/src/sio_socket.cpp:316-381 | over whole runs without on_close and with one network thread: no step could have dropped a packet exactly when no on_disconnect clears the flag over an untended queue and no packet is queued between a clearing and its drop |
| SioSocketThreads.NothingDropped | socket.io-client-cpp/src/sio_socket.cpp:370-381 | then nothing is dropped |
| SioSocketThreads.TimelyPushesAreKept | socket.io-client-cpp/src/sio_socket.cpp:508-532 | a condition on pushes alone: nothing is dropped when packets queued late are queued while on_connected is draining and none is queued just before a drop |
| SioSocketThreads.ActionAlone | socket.io-client-cpp/src/sio_socket.cpp:298-314 | a call of send_packet or close() that no other call interrupts is the one step it is among atomic handlers, with or without a client, on its own or inside a listener |
| SioSocketThreads.ConnectedAlone | socket.io-client-cpp/src/sio_socket.cpp:316-341 | so is on_connected, whatever its listener emits or closes |
| SioSocketThreads.DisconnectAlone | socket.io-client-cpp/src/sio_socket.cpp:370-381 | so is on_disconnect |
| SioSocketThreads.CloseAlone | socket.io-client-cpp/src/sio_socket.cpp:343-363 | so is on_close |
| SioSocketThreads.StaysTendedIff | socket.io-client-cpp/src/sio_socket.cpp:508-532 | a connected socket's queue that is empty or being drained by on_connected stays so through a step exactly when the step does not queue a packet after the socket became connected, or does so while on_connected is draining |
| SioSocketThreads.TendedIff | socket.io-client-cpp/src/sio_socket.cpp:316-341 | over a whole run the same: at all times empty or being drained exactly when every such late push comes while on_connected is draining |
| SioSocketThreads.EmptyWhenQuiet | socket.io-client-cpp/src/sio_socket.cpp:316-341 | then a connected socket with no call under way has an empty queue |
| SioSocketThreads.ConnectedWithQueue | socket.io-client-cpp/src/sio_socket.cpp:508-532 | an interleaving after which a connected socket with no call under way has a packet in its queue |
| SioSocketThreads.DroppedByDisconnect | socket.io-client-cpp/src/sio_socket.cpp:370-381 | and one in which on_disconnect then drops it |
| SioSocketThreads.DroppedWhileDisconnecting | socket.io-client-cpp/src/sio_socket.cpp:370-381 | and one, without any late push, in which a packet queued between on_disconnect's clearing of the flag and its drop is dropped |
| SioSocketThreads.Overtaken | socket.io-client-cpp/src/sio_socket.cpp:508-532 | and one in which packets are sent in another order than they were submitted |

## Left out

- The application's own files (`webrtc.cpp`, `signalmanager.cpp`, the audio classes) and the signalling server: Qt, audio devices and calls into libraries, with little logic of their own.
- Most of libdatachannel, opus, `connection.hpp`, `endpoint.hpp`: declarations whose bodies are not part of this model.
- JSON text parsing: `reader.h` is not part of this model. The receiving side of a packet keeps the JSON text that the parser would be given; `JsonText.ReadValue` is the grammar of RFC 8259, without white space, and no model of that parser.
- Texts of numbers: dtoa and itoa are a parameter (`NumberText`). Where text is read back, the texts of the numbers in the value at hand are assumed to be numbers by the production of section 6 of RFC 8259, which NaN and infinities have not; what number a text is read as is a parameter too.
- Lengths of strings above 2^32, which `accept_message` narrows to SizeType.
- `internal/stack.h` is a sequence; `reserve`, capacities of arrays and objects, and the storage of strings beyond inline, copied or referenced are not modelled. Inline strings hold up to 15 bytes, as with 8-byte pointers.
- `utf8d` and the table of `GetRange` are written as runs of equal entries.
- Machine words of masking are sequences of octets; bit-vector lemmas tie shifts, or and xor on 32-bit and 64-bit words to them. Bytes outside the frame code are bounded integers, and strings are sequences of chars that stand for bytes.
- Uri.Parse: `atoi` on numbers beyond an int is undefined in C; such ports count as invalid here.
- Memory addresses lie below 2^63, and the base allocator always returns fresh memory; a failed allocation is not modelled. Sums in `Capacity` and `Size` do not wrap around.
- PoolAllocator.MemoryPoolAllocator.Realloc: a non-null pointer after `Clear`, when there is no chunk, is excluded; the code would read through a null pointer.
- Sockets, TLS, proxies, HTTP headers, logging, ping timers and real time: a timer is a pending wait or an expired handler, a connection attempt is a count, and the outcome of an attempt is an event's parameter. `connect()` is three steps (cancel, check, finish), the last of which waits until the run loop has ended.
- Other listeners of the client than the reconnect, reconnecting and socket-opened ones act at the end of their handler and are separate steps.
- SioPacket.Packet.Parse: `stoul` reads a 64-bit unsigned long, as on Linux and macOS; where it has 32 bits, counts from 2^32 on would throw.
- SioClient.DelayGrows: delays are computed in exact arithmetic; rounding of doubles in `next_delay` is not modelled.
- Acknowledgement callbacks, event bindings and connection timers of a socket: maps with one entry per call.
- SioSocketThreads.Conserved: a call that finds the client gone after it checked stops there; the code would read through a null pointer.
- End-to-end encode and put_payload for arbitrary attachments: attachments are sent as they are, while the receiver takes only payloads that begin with byte 4; `MessageArrives` is about messages whose leaves do.
- `encode_query_string`: bytes below 0x10 are padded with a blank, so decoding does not undo it.
- File streams, byte order marks, UTF-16 and UTF-32, `PrettyWriter`: repeats of what is proved, or plain input and output.
