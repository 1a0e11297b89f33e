# Verified models of the nanopb codec and three Alamofire state machines

FlyEventsApp vendors two pieces of code whose correctness is not visible from any
one function: the Protocol Buffers codec **nanopb 0.3.9.10** and the networking
library **Alamofire**. This project models both in Dafny and proves what they
promise.

## The codec

The encoder and the decoder are driven by tables of field descriptors.
`Descriptors.dfy` models the tables as a finite tree and a C struct with statically
allocated fields as a value. `Wire.dfy`, `EncodeSpec.dfy` and `DecodeSpec.dfy` say
as functions on byte sequences what is written and what reading does; the laws of
the codec are lemmas about these functions:

- `RoundTrip.dfy`, `Normal.dfy`: decoding undoes encoding, with the exact condition;
- `Preservation.dfy`: what every accepted input leaves behind, and that it is stable;
- `NormEncoding.dfy`: the normal form is encoded like the message;
- `Merge.dfy`, `RecordOrder.dfy`: concatenated input merges, the last scalar wins, the order of
  fields and unknown fields do not matter;
- `Arrays.dfy`: packed and unpacked arrays are interchangeable;
- `RequiredCheck.dfy`, `Absent.dfy`: which records the check for required fields asks for, and what
  a field without record holds;
- `WireFormat.dfy`, `FieldLimits.dfy`: the bytes of a record with the numbers of the format, and
  exactly what each field type accepts;
- `Framing.dfy`: delimited and null-terminated messages in one stream.

The C code itself is imperative, and so is its model. `InputStream.dfy`,
`FieldIterator.dfy`, `RequiredFields.dfy`, `Decoder.dfy`, `OutputStream.dfy` and
`Encoder.dfy` hold the streams and the wrap-around iterator as classes, the bitset
as an array of words, and the loops, substreams and the two-pass encoder as methods.
Each method is proved to compute the function of the specification, for every input
and for failure as well as success. `EndToEnd.dfy` puts both directions together.

The wire format is that of the Protocol Buffers Encoding specification, sections
"Base 128 Varints", "Message Structure", "Signed Integers", "Packed Repeated Fields"
and "Last One Wins". `Bits.dfy` holds the machine-word arithmetic: the bitwise OR is
defined bit by bit, casts are written out as remainders. All lemmas are proved with
automatic induction switched off, so each proof is what its body says.

What a descriptor must satisfy is `Descriptors.WfDesc`: distinct nonzero tags below
2^29, integer sizes of 1, 2, 4 or 8 bytes, room for the size member of bytes fields
and for the terminator of strings, default values that fit their field, and no
explicit default for singular fields without has-flag. `Descriptors.MsgOK` says that
a value inhabits the C type of its field, and how much more is known of it. `Encoder.Sized` says that no part of the
encoding is longer than a `size_t` can count.

One law is false as it stands: the encoder accepts a string that fills its buffer
without a terminator (pb_encode.c:873-897), the decoder rejects it
(pb_decode.c:1487-1523); `RoundTrip.FullStringRejected` is such a message.
`RoundTrip.MessageRoundTrip` therefore says exactly when a message is read back: when
every encoded string leaves room (`Normal.Fits`).

## The state machines

Each of the four modules has the same shape: the sections that run under a lock are
functions on the locked state; an event is one such section, or a piece of work that
runs between two of them; a run is any sequence of enabled events; invariants are
proved for all runs; and a class with the original's fields and methods is proved
to compute the section functions.

- `RefreshQueue.dfy`: credential refresh, its waiting operations and its rate limit;
- `SerializerPipeline.dfy`: response serializers, retries and cancellation;
- `StreamCompletion.dfy`: the counting of executing stream parsers;
- `TaskMap.dfy`: the two-way map between requests and tasks.

Some properties hold under a condition only. Each is proved to hold exactly then, and a
run shows what happens otherwise:

- a flush calls every completion unless a serializer is appended between its two locked
  sections (`FlushComplete`, `AppendDuringFlushIsLost`);
- at the end every completion was called unless a pending retry of a serializer was
  dropped because of a cancellation (`QuiescentComplete`, `CancelledRetryStalls`);
- one pass runs at a time unless one is started while a serializer runs, which appends
  after the first flush make possible (`OnePassIff`, `LateAppendsRunTwice`); then even
  a completion can be called twice (`LateAppendCalledTwice`);
- stream completions come last unless data for a stream arrives once one is on its way
  (`CompletionsComeLastIff`, `DataAfterCompletion`).

## Model

| member | source | states |
|---|---|---|
| `RoundTrip.MessageRoundTrip` | FlyEventsApp/Pods/nanopb/pb_decode.c:934-1096 | Whole-message round trip, exactly: for every well-formed descriptor tree and every message of its type whose encoding is below 2^32 bytes, decoding the encoding into defaults succeeds if and only if every encoded string leaves room for its terminator, consumes everything, and yields the normal form of the message |
| `RoundTrip.FullStringRejected` | FlyEventsApp/Pods/nanopb/pb_decode.c:1496-1517 | A message on which the round trip fails: its string fills the array, is encoded, and is rejected by the decoder |
| `RoundTrip.CanonicalRoundTrip` | FlyEventsApp/Pods/nanopb/pb_encode.c:528-550 | A message whose absent optionals hold their defaults, whose unselected oneofs are clear and whose strings hold no NUL is decoded to itself |
| `RoundTrip.MessageLoop` | FlyEventsApp/Pods/nanopb/pb_decode.c:952-1030 | The same inside a longer input: the record loop reaches what follows the encoding with the normal form in place, or gets stuck |
| `RoundTrip.FieldRoundTrip` | FlyEventsApp/Pods/nanopb/pb_decode.c:406-483 | The records of one field take the loop from the fields before it to the fields up to it, or get it stuck when a string does not fit |
| `RoundTrip.ArrayFieldRoundTrip` | FlyEventsApp/Pods/nanopb/pb_encode.c:147-236 | The encoding of an array, packed or one record per element, counted or of fixed count, is read back as its elements |
| `RoundTrip.ValueRoundTrip` | FlyEventsApp/Pods/nanopb/pb_decode.c:1525-1547 | A value of any type, submessages included, is read back from its encoding whatever follows |
| `Normal.CanonicalKept` | FlyEventsApp/Pods/nanopb/pb_encode.c:341-426 | A message whose absent optionals hold their defaults, whose unselected oneofs are clear and whose present strings hold no NUL is its own normal form |
| `Normal.NothingLostIff` | FlyEventsApp/Pods/nanopb/pb_encode.c:341-426 | and only such a message is |
| `NormEncoding.NormEncodes` | FlyEventsApp/Pods/nanopb/pb_encode.c:528-550 | The normal form differs from the message only in what the encoding does not carry: when every which-member is 0 or the tag of a member, both have the same encoding |
| `NormEncoding.NormIsZero` | FlyEventsApp/Pods/nanopb/pb_encode.c:240-337 | Taking the normal form does not change which proto3 values are left out |
| `Normal.ZeroIsDefault` | FlyEventsApp/Pods/nanopb/pb_encode.c:240-337 | A proto3 singular value that the encoder leaves out is what the decoder puts there by default, field by field for submessages |
| `Preservation.DecodePreserves` | FlyEventsApp/Pods/nanopb/pb_decode.c:934-1082 | Whatever the input, a successful decode keeps at every depth each of these: values of the right type; counts at most array_size, fixed-count arrays full or untouched, strings and bytes within their buffers; absent optionals at their defaults and unselected oneofs clear |
| `Preservation.DefaultsOK` | FlyEventsApp/Pods/nanopb/pb_decode.c:845-928 | The defaults are such a message |
| `Preservation.DecodedEncodes` | FlyEventsApp/Pods/nanopb/pb_encode.c:341-426 | Whatever a decode leaves behind can be encoded, and all its strings fit |
| `Preservation.AcceptedIsStable` | FlyEventsApp/Pods/nanopb/pb_decode.c:1084-1096 | Any accepted input, with fields in any order, repeated, merged or unknown, for descriptors without fixed-count arrays, decodes to a message whose encoding decodes to its normal form, which is the message itself exactly when no string present in it holds a NUL |
| `Preservation.CompleteIsStable` | FlyEventsApp/Pods/nanopb/pb_decode.c:1032-1037 | The same for any descriptors, when the fixed-count arrays were filled |
| `Preservation.RigourWeakens` | FlyEventsApp/Pods/nanopb/pb_decode.c:934-1082 | Every struct that the encoder accepts or the decoder leaves is one that decoding accepts; without fixed-count arrays a decoded one is fit for encoding |
| `Merge.MergeConcat` | FlyEventsApp/Pods/nanopb/pb_decode.c:934-1030 | For messages without required and fixed-count fields, decoding a ++ b is decoding a and then b into the same struct |
| `Merge.LoopConcat` | FlyEventsApp/Pods/nanopb/pb_decode.c:952-1030 | The record loop on a ++ b is the loop on a followed by the loop on b; a zero tag in a ends the message there |
| `Merge.SubmessagesMerge` | FlyEventsApp/Pods/nanopb/pb_decode.c:1537-1542 | Two records of a singular submessage decode like one record with the concatenated payloads |
| `RecordOrder.RequiredSubmessagesMerge` | FlyEventsApp/Pods/nanopb/pb_decode.c:1525-1547 | With required fields in the submessage: two records of it are rejected unless each is complete on its own, and then decode like one record with the concatenated payloads |
| `RecordOrder.RecordsCommute` | FlyEventsApp/Pods/nanopb/pb_decode.c:966-1029 | Two records of declared fields that share no storage, neither of fixed count, may be exchanged |
| `RecordOrder.LoopIgnoresSeen` | FlyEventsApp/Pods/nanopb/pb_decode.c:1021-1026 | Which required fields were seen before does not influence the record loop |
| `Merge.LastScalarWins` | FlyEventsApp/Pods/nanopb/pb_decode.c:414-422 | Of two records of a singular scalar, string or bytes field, whatever else the message holds, the second alone decides |
| `Merge.KnownRecord` | FlyEventsApp/Pods/nanopb/pb_decode.c:966-1019 | A record of a declared field is dispatched to that field |
| `Merge.UnknownRecordSkipped` | FlyEventsApp/Pods/nanopb/pb_decode.c:966-995 | A record with an undeclared nonzero tag and a payload that can be skipped leaves the loop state alone |
| `Merge.ZeroTagRecord` | FlyEventsApp/Pods/nanopb/pb_decode.c:948-995 | The tag 0 with a nonzero wire type does not end the input: after it an empty message reads a 32-bit varint whatever the wire type, any other message skips a payload of that wire type |
| `Merge.UnknownFieldsIgnored` | FlyEventsApp/Pods/nanopb/pb_decode.c:321-331 | Inserting such a record between two records does not change the decoded message |
| `Merge.DecRecordExtends` | FlyEventsApp/Pods/nanopb/pb_decode.c:372-400 | Decoding a record never looks past it: what follows is left as it is |
| `Arrays.ChunkingIrrelevant` | FlyEventsApp/Pods/nanopb/pb_decode.c:424-464 | Any cut of a list of elements into packed chunks, single records or a mixture appends the same elements; it is rejected exactly when the array would overflow |
| `Arrays.PackedRecord` | FlyEventsApp/Pods/nanopb/pb_decode.c:425-453 | One packed record appends its elements, or is rejected when they do not fit |
| `Arrays.PlainRecords` | FlyEventsApp/Pods/nanopb/pb_decode.c:454-464 | One record per element appends them, or is rejected when they do not fit |
| `Arrays.ScalarRoundTrip` | FlyEventsApp/Pods/nanopb/pb_decode.c:1334-1428 | Every scalar and buffer type reads back every value of its width |
| `Arrays.SignedSurvives` | FlyEventsApp/Pods/nanopb/pb_decode.c:1353-1362 | Cutting a sign-extended 64-bit varint to 32 bits keeps every value of a field of up to 32 bits |
| `Framing.StreamRoundTrip` | FlyEventsApp/Pods/nanopb/pb_decode.c:1113-1132 | Messages written one after the other, delimited by length or by a zero tag, are read back one call at a time, and the calls together leave exactly what follows |
| `Framing.FramedOne` | FlyEventsApp/Pods/nanopb/pb_encode.c:552-565 | One framed message is read back and exactly the bytes after its frame are left |
| `EndToEnd.Transfer` | FlyEventsApp/Pods/nanopb/pb_encode.c:528-550 | Encoding into a buffer of capacity n and decoding from it: sent exactly when the message has an encoding of at most n bytes, received exactly when all strings fit, as the normal form, and nothing beyond the capacity is touched |
| `RequiredCheck.RequiredFieldsChecked` | FlyEventsApp/Pods/nanopb/pb_decode.c:1039-1079 | Input whose records are all valid is accepted exactly when the last fixed-count array is complete and each of the first 64 required fields has at least one record, in whatever order and number |
| `RequiredCheck.SeenIsDecoded` | FlyEventsApp/Pods/nanopb/pb_decode.c:1021-1026 | The numbers marked by the loop are those of the required fields that were decoded |
| `RequiredCheck.RequiredNumbered` | FlyEventsApp/Pods/nanopb/pb_common.c:74-79 | Required fields are numbered without gaps |
| `WireFormat.RecordBytes` | FlyEventsApp/Pods/nanopb/pb_encode.c:675-707 | What a record is, byte for byte and with the numbers of the format: the varint of 8 times the tag plus 0 for bool and the varint types, 1 for 64-bit, 5 for 32-bit and 2 for the others, then the number as varint, zigzag varint or little-endian word, or the length and the bytes; there is none exactly for bytes beyond their buffer and for submessages that cannot be encoded |
| `WireFormat.ArrayBytes` | FlyEventsApp/Pods/nanopb/pb_encode.c:147-236 | What an array is: nothing when empty, an error when too long, one record of wire type 2 with its elements back to back for the scalar types, else one record per element |
| `WireFormat.MessageBytes` | FlyEventsApp/Pods/nanopb/pb_encode.c:528-550 | A message is the records of its fields in descriptor order |
| `WireFormat.SingularOmitted` | FlyEventsApp/Pods/nanopb/pb_encode.c:240-337 | A proto3 field without has-flag adds no bytes exactly when its number is 0, its buffer is empty, or no field of its submessage is set, field by field |
| `WireFormat.CStringMeaning` | FlyEventsApp/Pods/nanopb/pb_encode.c:886-894 | A string is what stands before the first NUL, and at most its array |
| `FieldLimits.ScalarStored` | FlyEventsApp/Pods/nanopb/pb_decode.c:1334-1523 | For every input of every scalar and buffer type, exactly what is accepted, what is stored and what is left: integers whose number, cut to 32 bits for signed fields of up to 32, lies in the range of their 1, 2, 4 or 8 bytes; bytes with four bytes to spare, strings with one |
| `FieldLimits.WireTypeIgnored` | FlyEventsApp/Pods/nanopb/pb_decode.c:406-483 | The wire type with which a declared field arrives makes no difference, except to tell a packed array |
| `Absent.AbsentHoldsDefault` | FlyEventsApp/Pods/nanopb/pb_decode.c:845-928 | After decoding, a field without record holds the default of its descriptor, or else 0, empty, all zero bytes or a submessage of which the same holds; its has-flag is false, its count 0, its which-member 0 |
| `Absent.UntouchedKept` | FlyEventsApp/Pods/nanopb/pb_decode.c:934-1082 | Decoding on top of a struct, what has no record keeps its contents |
| `Absent.EmptyInputGivesDefault` | FlyEventsApp/Pods/nanopb/pb_decode.c:887-896 | The empty input gives an optional field with default 5 the value 5 |
| `RecordOrder.FixedCountRestarts` | FlyEventsApp/Pods/nanopb/pb_decode.c:997-1019 | When reception of a fixed-count array starts, what it held does not matter |
| `Wire.SkipMeaning` | FlyEventsApp/Pods/nanopb/pb_decode.c:321-331 | What each wire type means to the skipper: 0 up to and including the first byte below 128, 1 eight bytes, 2 a length and that many bytes, 5 four bytes, each exactly if they are there; the others fail |
| `Wire.VarintAccepted` | FlyEventsApp/Pods/nanopb/pb_decode.c:255-275 | A 64-bit varint is accepted exactly when one of the first ten bytes is below 128, and reads up to it |
| `Wire.VarintGroups` | FlyEventsApp/Pods/nanopb/pb_encode.c:613-625 | Byte i of an encoded varint holds the group of bits 7i to 7i + 6, and the continuation bit unless it is the last |
| `Wire.LittleEndianBytes` | FlyEventsApp/Pods/nanopb/pb_encode.c:641-666 | Byte i of a fixed-width number holds bits 8i to 8i + 7 |
| `Wire.ZigZagEnumerates` | FlyEventsApp/Pods/nanopb/pb_decode.c:1285-1297 | Consecutive zigzag codes stand for 0, -1, 1, -2, 2 and so on |
| `Wire.VarintRoundTrip` | FlyEventsApp/Pods/nanopb/pb_encode.c:608-628 | Decoding inverts encoding for every 64-bit value, which takes 1 to 10 bytes, and leaves trailing input alone |
| `Wire.VarintMinimal` | FlyEventsApp/Pods/nanopb/pb_encode.c:608-628 | No shorter nonempty sequence of groups has the same value |
| `Wire.EncVarintLength` | FlyEventsApp/Pods/nanopb/pb_encode.c:613-625 | A value takes at most k bytes exactly when it is below 2^(7k) |
| `Wire.Varint32OnEncoded` | FlyEventsApp/Pods/nanopb/pb_decode.c:187-247 | The 32-bit decoder on the encoding of any 64-bit value, exactly: it yields the low 32 bits if and only if the value is below 2^32, or the groups above bit 34 are each all zero or all one with bits 31 and 63 set; otherwise it reports overflow |
| `Wire.Varint32Small` | FlyEventsApp/Pods/nanopb/pb_decode.c:187-247 | In particular it reads back every value below 2^32 |
| `Wire.Varint32Overflows` | FlyEventsApp/Pods/nanopb/pb_decode.c:226-229 | In particular values from 2^32 to below 2^63 are reported as overflow |
| `Wire.Varint32SignExtended` | FlyEventsApp/Pods/nanopb/pb_decode.c:221-230 | In particular a negative 32-bit number, sign-extended to 64 bits, yields its low 32 bits |
| `Wire.StepLow` | FlyEventsApp/Pods/nanopb/pb_decode.c:231-234 | ORing in a group that ends below bit 32 adds it |
| `Wire.ZigZagRoundTrip` | FlyEventsApp/Pods/nanopb/pb_encode.c:630-639 | Zigzag is undone, and maps exactly the 64-bit signed numbers to 64-bit unsigned ones |
| `Wire.FixedRoundTrip` | FlyEventsApp/Pods/nanopb/pb_encode.c:641-666 | Fixed-width little-endian numbers of 4 and 8 bytes are read back |
| `Wire.PayloadRoundTrip` | FlyEventsApp/Pods/nanopb/pb_decode.c:372-400 | A length-prefixed payload of less than 2^32 bytes is split off exactly |
| `Wire.TagRoundTrip` | FlyEventsApp/Pods/nanopb/pb_encode.c:669-673 | A tag below 2^29 and its wire type are read back |
| `Wire.SkipFieldExtends` | FlyEventsApp/Pods/nanopb/pb_decode.c:321-331 | Skipping a payload does not depend on what follows it |
| `Bits.OrDisjoint` | FlyEventsApp/Pods/nanopb/pb_decode.c:261-271 | ORing words without common bits adds them |
| `Bits.OrInsertsBit` | FlyEventsApp/Pods/nanopb/pb_decode.c:1024-1025 | ORing in one bit adds its number to the set that the word stands for |
| `Bits.WordFull` | FlyEventsApp/Pods/nanopb/pb_decode.c:1062-1067 | A word is all ones exactly when all its numbers are in the set |
| `Bits.ToSignedInverts` | FlyEventsApp/Pods/nanopb/pb_decode.c:1359-1374 | Reinterpreting a two's-complement word gives back every number of its width |
| `InputStream.IStream.FromBuffer` | FlyEventsApp/Pods/nanopb/pb_decode.c:159-185 | A stream over the first bytes of a buffer |
| `InputStream.IStream.ReadByte` | FlyEventsApp/Pods/nanopb/pb_decode.c:141-157 | Takes the first unread byte, or fails at the end |
| `InputStream.IStream.Read` | FlyEventsApp/Pods/nanopb/pb_decode.c:87-137 | Copies the next count bytes, only if there are that many |
| `InputStream.IStream.Skip` | FlyEventsApp/Pods/nanopb/pb_decode.c:102-137 | Drops the next count bytes, only if there are that many |
| `InputStream.DecodeVarint` | FlyEventsApp/Pods/nanopb/pb_decode.c:255-275 | The loop with its OR-ed groups computes the 64-bit varint decoder; the position advances by the drop in bytes_left |
| `InputStream.DecodeVarint32Eof` | FlyEventsApp/Pods/nanopb/pb_decode.c:187-247 | The 32-bit loop, with its 8-bit bit position, sign-extension tolerance and end-of-stream report |
| `InputStream.DecodeVarint32` | FlyEventsApp/Pods/nanopb/pb_decode.c:249-253 | The same without the report |
| `InputStream.DecodeSVarint` | FlyEventsApp/Pods/nanopb/pb_decode.c:1285-1297 | Zigzag by complement and shift |
| `InputStream.DecodeFixed` | FlyEventsApp/Pods/nanopb/pb_decode.c:1299-1332 | Four or eight bytes ORed together are the little-endian number |
| `InputStream.SkipVarint` | FlyEventsApp/Pods/nanopb/pb_decode.c:278-287 | Skips exactly the bytes up to one below 0x80 |
| `InputStream.SkipString` | FlyEventsApp/Pods/nanopb/pb_decode.c:289-296 | Skips a length and that many bytes |
| `InputStream.Skip` | FlyEventsApp/Pods/nanopb/pb_decode.c:321-331 | Skips the bytes that the wire type, as a number, calls for, if they are there; types 3, 4, 6 and 7 fail |
| `InputStream.DecodeTag` | FlyEventsApp/Pods/nanopb/pb_decode.c:298-319 | Splits a tag, and reports both ends of a message: no more input, or a zero |
| `InputStream.MakeSubstream` | FlyEventsApp/Pods/nanopb/pb_decode.c:372-385 | The substream reads exactly the payload, and the parent's count excludes it |
| `InputStream.CloseSubstream` | FlyEventsApp/Pods/nanopb/pb_decode.c:387-400 | The parent continues where the substream ends, also when it was not read to its end |
| `FieldIterator.FieldIter.constructor` | FlyEventsApp/Pods/nanopb/pb_common.c:8-27 | A new iterator is valid: address and required-field number are those of position 0 |
| `FieldIterator.FieldIter.Begin` | FlyEventsApp/Pods/nanopb/pb_common.c:8-27 | Back at the first field, with what the descriptors determine for it |
| `FieldIterator.FieldIter.Next` | FlyEventsApp/Pods/nanopb/pb_common.c:29-85 | One position on, or back at the start from the last; address and required-field number stay what the descriptors up to the position determine |
| `FieldIterator.FieldIter.Find` | FlyEventsApp/Pods/nanopb/pb_common.c:87-104 | From any position: finds the field with the tag if there is one, else ends where it started |
| `FieldIterator.DataAtMember` | FlyEventsApp/Pods/nanopb/pb_common.c:50-83 | The address accumulated from the incremental offsets is that of the struct member, through arrays and oneofs, and so is that of its has-flag, count or which-member |
| `FieldIterator.DataAtHome` | FlyEventsApp/Pods/nanopb/pb_common.c:53-59 | The members of a oneof have one address |
| `RequiredFields.MarkSeen` | FlyEventsApp/Pods/nanopb/pb_decode.c:1021-1026 | Setting the bit keeps the two words in step with the set of numbers seen; numbers from 64 on are not tracked |
| `RequiredFields.AllSeen` | FlyEventsApp/Pods/nanopb/pb_decode.c:1039-1079 | The final check on words and remaining bits passes exactly when each of the first min(n, 64) required fields was seen |
| `RequiredFields.InsertRepresented` | FlyEventsApp/Pods/nanopb/pb_decode.c:1021-1026 | One bit set is one member added |
| `RequiredFields.PartialWord` | FlyEventsApp/Pods/nanopb/pb_decode.c:1069-1077 | The last word equals the shifted constant exactly when its first r numbers were seen and nothing else can have been |
| `Decoder.DecBool` | FlyEventsApp/Pods/nanopb/pb_decode.c:1334-1343 | Any nonzero varint is true; computes the specification on the unread bytes and leaves the rest |
| `Decoder.DecVarintField` | FlyEventsApp/Pods/nanopb/pb_decode.c:1345-1380 | Signed integers of 1, 2, 4 and 8 bytes with the 32-bit cut and the range check; computes the specification on the unread bytes and leaves the rest |
| `Decoder.DecUVarint` | FlyEventsApp/Pods/nanopb/pb_decode.c:1382-1404 | Unsigned integers with the range check; computes the specification on the unread bytes and leaves the rest |
| `Decoder.DecSVarint` | FlyEventsApp/Pods/nanopb/pb_decode.c:1406-1428 | Zigzag integers with the range check; computes the specification on the unread bytes and leaves the rest |
| `Decoder.StoreSigned` | FlyEventsApp/Pods/nanopb/pb_decode.c:1365-1379 | The assignment to the field reports the values that do not fit |
| `Decoder.DecFixedField` | FlyEventsApp/Pods/nanopb/pb_decode.c:1430-1445 | 32-bit and 64-bit words; computes the specification on the unread bytes and leaves the rest |
| `Decoder.DecBytes` | FlyEventsApp/Pods/nanopb/pb_decode.c:1447-1485 | Bytes that fit behind their size member; computes the specification on the unread bytes and leaves the rest |
| `Decoder.DecString` | FlyEventsApp/Pods/nanopb/pb_decode.c:1487-1523 | Strings that leave room for the terminator; computes the specification on the unread bytes and leaves the rest |
| `Decoder.DecFixedLengthBytes` | FlyEventsApp/Pods/nanopb/pb_decode.c:1549-1570 | Exactly data_size bytes, or none for all zeros; computes the specification on the unread bytes and leaves the rest |
| `Decoder.FieldDefault` | FlyEventsApp/Pods/nanopb/pb_decode.c:845-915 | The slot of a field after it is set to its default: what the descriptor gives, or else zero, empty or nothing set |
| `Decoder.SetToDefaults` | FlyEventsApp/Pods/nanopb/pb_decode.c:917-928 | Walking the iterator leaves every field, nested ones included, with what the descriptor gives, or else zero, empty or nothing set |
| `Decoder.DecSubmessage` | FlyEventsApp/Pods/nanopb/pb_decode.c:1525-1547 | Decodes in a length-limited substream: into defaults for array entries, else on top of what is there |
| `Decoder.DecodePacked` | FlyEventsApp/Pods/nanopb/pb_decode.c:425-453 | A packed record appends to the array, and fails if the array overflows or bytes remain |
| `Decoder.DecodeElements` | FlyEventsApp/Pods/nanopb/pb_decode.c:436-447 | The element loop, which stops when the array is full |
| `Decoder.DecodeStaticField` | FlyEventsApp/Pods/nanopb/pb_decode.c:406-483 | The new contents of a field's slot and of its count, for required, optional, repeated and oneof fields |
| `Decoder.Prepare` | FlyEventsApp/Pods/nanopb/pb_decode.c:997-1026 | Starts the counter of a fixed-count array, rejecting an incomplete earlier one, and marks required fields |
| `Decoder.DecodeFound` | FlyEventsApp/Pods/nanopb/pb_decode.c:997-1029 | Bookkeeping and decoding of one declared field |
| `Decoder.DecodeUndeclared` | FlyEventsApp/Pods/nanopb/pb_decode.c:966-995 | Skips an undeclared field; in an empty message tag 0 finds the terminator and is decoded as a bool |
| `Decoder.DecodeTurn` | FlyEventsApp/Pods/nanopb/pb_decode.c:952-1030 | One turn of the record loop strictly lowers bytes_left and keeps the end of the stream |
| `Decoder.CountRequired` | FlyEventsApp/Pods/nanopb/pb_decode.c:1040-1058 | Walking to the end of the list yields the number of required fields, from any position |
| `Decoder.FinalChecks` | FlyEventsApp/Pods/nanopb/pb_decode.c:1032-1079 | Passes exactly when the last fixed-count array is complete and the first 64 required fields were seen |
| `Decoder.DecodeNoinit` | FlyEventsApp/Pods/nanopb/pb_decode.c:934-1082 | The whole decoder over streams, iterator, bitset and substreams computes the specification function, consumes what it says and keeps the end of the stream |
| `Decoder.Decode` | FlyEventsApp/Pods/nanopb/pb_decode.c:1084-1096 | The same into defaults |
| `Decoder.DecodeDelimited` | FlyEventsApp/Pods/nanopb/pb_decode.c:1113-1126 | One message with a length prefix |
| `Decoder.DecodeNullTerminated` | FlyEventsApp/Pods/nanopb/pb_decode.c:1128-1132 | One message ended by a zero tag |
| `OutputStream.OStream.FromBuffer` | FlyEventsApp/Pods/nanopb/pb_encode.c:86-101 | A stream that writes to a buffer and accepts size bytes |
| `OutputStream.OStream.Write` | FlyEventsApp/Pods/nanopb/pb_encode.c:103-124 | Emits the bytes exactly when they fit or the stream only counts; on failure nothing changes |
| `OutputStream.OStream.BufWrite` | FlyEventsApp/Pods/nanopb/pb_encode.c:74-84 | Puts the bytes at the position, advances it, and changes nothing else |
| `OutputStream.EncodeVarint` | FlyEventsApp/Pods/nanopb/pb_encode.c:608-628 | Emits the varint of any 64-bit value, through its buffer |
| `OutputStream.FillVarint` | FlyEventsApp/Pods/nanopb/pb_encode.c:619-625 | The loop fills the buffer with the varint |
| `OutputStream.EncodeSVarint` | FlyEventsApp/Pods/nanopb/pb_encode.c:630-639 | Emits the zigzag varint |
| `OutputStream.EncodeFixed` | FlyEventsApp/Pods/nanopb/pb_encode.c:641-666 | Emits the little-endian bytes |
| `OutputStream.EncodeTag` | FlyEventsApp/Pods/nanopb/pb_encode.c:669-673 | Emits tag and wire type |
| `OutputStream.EncodeString` | FlyEventsApp/Pods/nanopb/pb_encode.c:709-715 | Emits a length-prefixed payload |
| `OutputStream.EmitsThen` | FlyEventsApp/Pods/nanopb/pb_encode.c:103-124 | Output one after the other is output of the concatenation, with success exactly when all of it fits |
| `Encoder.EncInteger` | FlyEventsApp/Pods/nanopb/pb_encode.c:776-833 | Emits the varint of an integer of 1, 2, 4 or 8 bytes; other sizes fail |
| `Encoder.StringLength` | FlyEventsApp/Pods/nanopb/pb_encode.c:873-897 | The length of a string up to its NUL, at most data_size |
| `Encoder.EncodeScalar` | FlyEventsApp/Pods/nanopb/pb_encode.c:769-911 | Emits what the encoding of a scalar or buffer field is, or fails |
| `Encoder.CheckProto3Default` | FlyEventsApp/Pods/nanopb/pb_encode.c:240-337 | Decides whether a field of a proto3 submessage holds its default |
| `Encoder.CheckZero` | FlyEventsApp/Pods/nanopb/pb_encode.c:273-337 | Decides whether a proto3 singular value is left out |
| `Encoder.CheckAllDefault` | FlyEventsApp/Pods/nanopb/pb_encode.c:298-311 | Walks all fields of a submessage |
| `Encoder.EncodeSubmessage` | FlyEventsApp/Pods/nanopb/pb_encode.c:717-765 | Sizing pass, prefix and writing pass emit exactly the length-prefixed encoding: the prefix is right at every depth |
| `Encoder.EncodeSized` | FlyEventsApp/Pods/nanopb/pb_encode.c:737-764 | The writing pass into a substream of the announced size always fills it, so "submsg size changed" cannot arise |
| `Encoder.PackedSize` | FlyEventsApp/Pods/nanopb/pb_encode.c:169-189 | The size of a packed array is that of its elements back to back |
| `Encoder.EncodeItems` | FlyEventsApp/Pods/nanopb/pb_encode.c:197-204 | Emits the elements back to back |
| `Encoder.EncodeEach` | FlyEventsApp/Pods/nanopb/pb_encode.c:208-233 | Emits one record per element |
| `Encoder.EncodePackedBody` | FlyEventsApp/Pods/nanopb/pb_encode.c:169-204 | Emits the right length prefix and the elements |
| `Encoder.EncodeArray` | FlyEventsApp/Pods/nanopb/pb_encode.c:147-236 | Emits an array in the form its type calls for; more elements than array_size fail, none emit nothing |
| `Encoder.EncodeTaggedValue` | FlyEventsApp/Pods/nanopb/pb_encode.c:675-707 | Emits the record that WireFormat.RecordBytes spells out |
| `Encoder.EncodeBasicField` | FlyEventsApp/Pods/nanopb/pb_encode.c:341-426 | Emits exactly the records of one field |
| `Encoder.EncodeFields` | FlyEventsApp/Pods/nanopb/pb_encode.c:535-546 | The field loop emits the fields in descriptor order |
| `Encoder.Encode` | FlyEventsApp/Pods/nanopb/pb_encode.c:528-550 | Emits exactly the encoding of the message; into a buffer it succeeds exactly when that fits, counting it succeeds exactly when there is one |
| `Encoder.GetEncodedSize` | FlyEventsApp/Pods/nanopb/pb_encode.c:567-576 | The length of the encoding, when there is one: with Encode, encoding into a buffer succeeds exactly when the sizing pass does and the buffer has that size |
| `Encoder.EncodeDelimited` | FlyEventsApp/Pods/nanopb/pb_encode.c:552-555 | Emits the delimited form |
| `Encoder.EncodeNullTerminated` | FlyEventsApp/Pods/nanopb/pb_encode.c:557-565 | Emits the encoding and a zero byte |
| `RefreshQueue.ReachableSafe` | FlyEventsApp/Pods/Alamofire/Source/AuthenticationInterceptor.swift:250-353 | In every reachable state of any interleaving: operations wait only while a refresh is under way, exactly one refresh is then outstanding and otherwise none, every submitted completion is in exactly one place, none is called twice |
| `RefreshQueue.ReachableRateBounded` | FlyEventsApp/Pods/Alamofire/Source/AuthenticationInterceptor.swift:330-368 | In every run, no closed time window of the configured length, wherever it lies, contains more of the refreshes that the run started than allowed, although the clock is read twice per refresh |
| `RefreshQueue.NothingForgotten` | FlyEventsApp/Pods/Alamofire/Source/AuthenticationInterceptor.swift:370-402 | Once nothing is outstanding, queued or waiting, each submitted completion was called exactly once |
| `RefreshQueue.ReachableCredential` | FlyEventsApp/Pods/Alamofire/Source/AuthenticationInterceptor.swift:370-371 | In every run the stored credential is the one written last, by the user or by a successful refresh, judged by the events alone |
| `RefreshQueue.AdaptsAnswered` | FlyEventsApp/Pods/Alamofire/Source/AuthenticationInterceptor.swift:250-274 | In every run a request was adapted with the credential written last when its section ran, which did not require a refresh then; it failed for want of a credential only when there was none, and otherwise with the error of the refresh that held it |
| `RefreshQueue.ExcessiveIff` | FlyEventsApp/Pods/Alamofire/Source/AuthenticationInterceptor.swift:355-368 | A refresh is excessive exactly when a window is set and at least the allowed number of timestamps fall into the interval before the clock reading |
| `RefreshQueue.StepRefreshes` | FlyEventsApp/Pods/Alamofire/Source/AuthenticationInterceptor.swift:330-402 | What each step does to the refreshes: one that is asked for within the allowance is started and stamped and nothing fails; beyond it, it fails at once; a refresh that ends does so with the result it was called back with; nothing else happens |
| `RefreshQueue.RetriesAnswered` | FlyEventsApp/Pods/Alamofire/Source/AuthenticationInterceptor.swift:319-402 | In every run a retry that passed the checks is answered with the result of the first refresh that ends after it got the lock: retried on success, given up with that very error on failure, an excessive refresh included |
| `RefreshQueue.EffectsAnswering` | FlyEventsApp/Pods/Alamofire/Source/AuthenticationInterceptor.swift:370-402 | Ending a refresh hands exactly the waiting operations to the batch of that refresh |
| `RefreshQueue.StepQueueSafe` | FlyEventsApp/Pods/Alamofire/Source/AuthenticationInterceptor.swift:250-402 | Every step keeps the queue property |
| `RefreshQueue.StepPlaces` | FlyEventsApp/Pods/Alamofire/Source/AuthenticationInterceptor.swift:250-402 | Every step moves completions without losing or copying any; only a submission adds one |
| `RefreshQueue.SpacedBoundsWindow` | FlyEventsApp/Pods/Alamofire/Source/AuthenticationInterceptor.swift:355-368 | Timestamps that each passed the check bound every window |
| `RefreshQueue.RefreshKeepsWindow` | FlyEventsApp/Pods/Alamofire/Source/AuthenticationInterceptor.swift:330-338 | A refresh that passes the check at one reading may be stamped at a later one |
| `RefreshQueue.AuthenticationInterceptor.IsRefreshExcessive` | FlyEventsApp/Pods/Alamofire/Source/AuthenticationInterceptor.swift:355-368 | The loop over the timestamps decides whether the number of those in the interval before the clock reading reaches the allowed number |
| `RefreshQueue.AuthenticationInterceptor.CheckRetry` | FlyEventsApp/Pods/Alamofire/Source/AuthenticationInterceptor.swift:295-317 | Before the lock: exactly when a request goes on to the queue, is retried at once, or is given up and how |
| `SerializerPipeline.PipelineSafe` | FlyEventsApp/Pods/Alamofire/Source/Request.swift:554-610 | In every reachable state, serializers being appended before the first flush, over any number of retries: at most one serializer runs, it is the first without a kept completion, completions belong to the first serializers in order, and those called are a prefix of the registration order |
| `SerializerPipeline.FlushComplete` | FlyEventsApp/Pods/Alamofire/Source/Request.swift:569-601 | A flush calls one completion per serializer, in registration order, each having run once since the last reset, exactly when none was appended between the two locked sections; those that were are removed unrun |
| `SerializerPipeline.AppendDuringFlushIsLost` | FlyEventsApp/Pods/Alamofire/Source/Request.swift:569-593 | A run in which a serializer appended between the two sections is lost |
| `SerializerPipeline.QuiescentComplete` | FlyEventsApp/Pods/Alamofire/Source/Session.swift:1202-1217 | When nothing can happen any more, every completion was called except those lost to a flush, if and only if in the run no pending retry of a serializer was dropped at the check for cancellation; if one was, no completion was called |
| `SerializerPipeline.OnePassIff` | FlyEventsApp/Pods/Alamofire/Source/Request.swift:513-526 | In any run, appends after the first flush included, at most one pass over the serializers is under way throughout if and only if no processing step and no finish() that finds isFinishing unset starts one while a serializer runs |
| `SerializerPipeline.SequentialSafe` | FlyEventsApp/Pods/Alamofire/Source/Request.swift:541-610 | In any run in which passes and resets begin only when no serializer runs, one runs at a time and is the next in order, and no completion is called more often than its serializer was registered |
| `SerializerPipeline.InTimeSequential` | FlyEventsApp/Pods/Alamofire/Source/Request.swift:533-549 | Serializers appended before the first flush never make a pass or a reset begin while one runs |
| `SerializerPipeline.LateAppendCalledTwice` | FlyEventsApp/Pods/Alamofire/Source/Request.swift:541-543 | A run with one serializer appended after the first flush and a cancellation while it runs: its completion is called twice |
| `SerializerPipeline.LateAppendsRunTwice` | FlyEventsApp/Pods/Alamofire/Source/Request.swift:541-543 | A run with two such appends: the first serializer runs twice at a time |
| `SerializerPipeline.CancelledRetryStalls` | FlyEventsApp/Pods/Alamofire/Source/Session.swift:1202-1217 | A run in which a serializer asks for a retry, the request is cancelled before it, and the completion is never called |
| `SerializerPipeline.CancelledForever` | FlyEventsApp/Pods/Alamofire/Source/Request.swift:50-63 | No run leaves the cancelled state |
| `SerializerPipeline.StepKeepsTerminal` | FlyEventsApp/Pods/Alamofire/Source/Request.swift:533-549 | Only an append leaves the finished state, to resumed |
| `SerializerPipeline.RunState` | FlyEventsApp/Pods/Alamofire/Source/Request.swift:669-731 | In every run the state is what the events alone make it: cancel, suspend and resume reach their state from those that allow it, a flush finishes all but a cancelled request, an append reopens a finished one, and nothing else changes it |
| `SerializerPipeline.TransitionsAllowed` | FlyEventsApp/Pods/Alamofire/Source/Request.swift:50-63 | The transition table: anything from initialized; else to another state than initialized, and not from a terminal one |
| `SerializerPipeline.StepInv` | FlyEventsApp/Pods/Alamofire/Source/Request.swift:493-625 | Every step keeps order, accounting and the count of those who may act on the request |
| `StreamCompletion.ReachableCounted` | FlyEventsApp/Pods/Alamofire/Source/Request.swift:1316-1330 | In every reachable state the counter is the number of parser calls made and not finished, completions wait only while it is positive, and each that reached the lock is in exactly one place |
| `StreamCompletion.ParsersGivenData` | FlyEventsApp/Pods/Alamofire/Source/Request.swift:1316-1330 | In every run the parser calls that have finished, are at work or wait are together exactly one per received data and stream added before, with that data; those that wait are the latest, in order of arrival |
| `StreamCompletion.StreamGivenData` | FlyEventsApp/Pods/Alamofire/Source/Request.swift:1316-1330 | For each stream, what its parser has been or will be called with is exactly the data received since the stream was added, in order |
| `StreamCompletion.DecidedAtZero` | FlyEventsApp/Pods/Alamofire/Source/Request.swift:1393-1412 | A completion leaves the lock only in a step that ends with the counter at zero, and at zero none waits |
| `StreamCompletion.CompletionsComeLastIff` | FlyEventsApp/Pods/Alamofire/Source/ResponseSerialization.swift:1239-1249 | In any run, no completion is on its way while a parser has anything left to do, if and only if no data for a stream is received once a completion is on its way |
| `StreamCompletion.CompletionsComeLast` | FlyEventsApp/Pods/Alamofire/Source/ResponseSerialization.swift:1239-1249 | In such a run, once a completion is on its way every parser has finished and no completion waits |
| `StreamCompletion.DataAfterCompletion` | FlyEventsApp/Pods/Alamofire/Source/Request.swift:1316-1330 | A run in which data comes too late: a completion was handed on and a parser is at work |
| `StreamCompletion.NothingWaits` | FlyEventsApp/Pods/Alamofire/Source/ResponseSerialization.swift:1239-1249 | When nothing is left to do, every completion that reached the lock was scheduled, once |
| `StreamCompletion.DataStreamRequest.DidReceive` | FlyEventsApp/Pods/Alamofire/Source/Request.swift:1316-1330 | One call per registered parser, in order, with the received data |
| `StreamCompletion.DataStreamRequest.UpdateAndCompleteIfPossible` | FlyEventsApp/Pods/Alamofire/Source/ResponseSerialization.swift:1239-1249 | Hands on waiting completions only at zero, then all of them, and loses none |
| `TaskMap.ReachableTracked` | FlyEventsApp/Pods/Alamofire/Source/RequestTaskMap.swift:115-148 | Any interleaving of insertions of requests and tasks not in the map, a request that comes back with its next task included, and of one completion and one metrics event per inserted task: no consistency failure, the dictionaries stay inverse with events for the same tasks, a task stays until both events came, and exactly one of the two calls returned true |
| `TaskMap.EventResult` | FlyEventsApp/Pods/Alamofire/Source/RequestTaskMap.swift:115-148 | A call returns true, and its task leaves, exactly when the other event came before |
| `TaskMap.EventFails` | FlyEventsApp/Pods/Alamofire/Source/RequestTaskMap.swift:115-148 | A call is a consistency failure exactly when its task is not in the map or its event has come before |
| `TaskMap.AssociateConsistent` | FlyEventsApp/Pods/Alamofire/Source/RequestTaskMap.swift:47-87 | An association keeps the map one-to-one if and only if neither side has another partner |
| `TaskMap.ReassociationBreaks` | FlyEventsApp/Pods/Alamofire/Source/RequestTaskMap.swift:60-64 | A request that is given a second task leaves the first one dangling |
| `TaskMap.DisassociateConsistent` | FlyEventsApp/Pods/Alamofire/Source/RequestTaskMap.swift:50-58 | Removing a pair keeps the map one-to-one |
| `TaskMap.CountsAgree` | FlyEventsApp/Pods/Alamofire/Source/RequestTaskMap.swift:89-112 | The sizes that the count properties insist on agree in a consistent map |
| `TaskMap.RequestTaskMap.SetTask` | FlyEventsApp/Pods/Alamofire/Source/RequestTaskMap.swift:47-66 | Sets or clears the task of a request; setting keeps the map one-to-one when neither side is taken, clearing always does |
| `TaskMap.RequestTaskMap.SetRequest` | FlyEventsApp/Pods/Alamofire/Source/RequestTaskMap.swift:68-87 | The same from the side of the task |
| `TaskMap.RequestTaskMap.DisassociateIfNecessaryAfterGatheringMetrics` | FlyEventsApp/Pods/Alamofire/Source/RequestTaskMap.swift:115-125 | Keeps the map one-to-one, and returns true exactly when the task has left it |
| `TaskMap.RequestTaskMap.DisassociateIfNecessaryAfterCompleting` | FlyEventsApp/Pods/Alamofire/Source/RequestTaskMap.swift:127-148 | Keeps the map one-to-one, and returns true exactly when the task has left it |

## Left out

- Pointer, callback and extension fields, custom streams, and builds without 64-bit integers or with `PB_BUFFER_ONLY`: static fields and memory buffers only, with `PB_FIELD_32BIT` as the pod's build settings define it.
- In-place update of the destination struct: submessages lie inline in the C struct, so a message is a value that the methods take and return; streams, iterator and bitset are updated in place. Reuse of storage by a oneof that changes its member is therefore not modelled: the payload of an unselected oneof is `Unset`.
- The elements that a fixed-count array holds before any is received, and what setting defaults does to them: such an array counts as empty until its first record.
- Preservation.AcceptedIsStable: for descriptors without fixed-count arrays, or with these filled (`Preservation.CompleteIsStable`); an array without any element still holds what was there before.
- RecordOrder.RequiredSubmessagesMerge: for submessages without fixed-count arrays; a second record starts such an array anew, a longer one overflows it.
- NormEncoding.NormEncodes: for which-members that are 0 or a member tag; another value makes a proto3 submessage count as present.
- Releasing the old member of a oneof: the pod's build settings also define `PB_ENABLE_MALLOC`, under which a record of a oneof first looks up the member named by the old which-value (pb_decode.c:1137-1168) and fails when there is none; the model follows the build without it.
- A terminator that an empty message's tag-0 record would write to: the value is dropped.
- Sums of `size_t` that wrap, and struct layout and alignment.
- Error strings: every failure is one value. The position of a parent stream after a failed decode is bounded but not determined.
- The wire type of a declared field is not compared with its type, as in the original, except to recognise packed arrays.
- Tag 0 with a nonzero wire type is followed as the code does; the laws about inserted records ask for nonzero tags.
- RequiredFields.AllSeen: says nothing about required fields from the 65th on, which the original does not track.
- RefreshQueue.ReachableSafe: does not say that no refresh is redundant; the credential is read before the lock is taken, and whether it requires a refresh is an input to the locked section. The authenticator calls back once per refresh, and the credential passed to it is not modelled.
- SerializerPipeline.PipelineSafe: for serializers appended before the first flush; `SerializerPipeline.SequentialSafe` says what holds otherwise. Calls of `finish` by a session that is torn down are not part of the model, nor are validators, progress and the contents of responses.
- SerializerPipeline.QuiescentComplete: that a quiescent state is reached at all depends on queues and the URL loading system, which are not modelled. The same holds for the other machines.
- TaskMap.ReachableTracked: for platforms that gather metrics; elsewhere completion alone removes the task.
- URL sessions, dispatch queues, locks, Combine and async wrappers, event monitors, multipart streams, and the app's own view controllers and view models: input and output, library glue and user interface.
