# Generated message code of BlueWorkspaceBuild: a Dafny model

The `proto/` directory of the repository holds generated C++ for three families of messages: the
MindSpore IR (proto2, `mindspore_anf_ir.pb.cc`), TensorBoard tensors (proto3, `tensor.pb.cc`), and
TensorBoard events and summaries (proto3 with oneofs, `event.pb.cc`, `summary.pb.cc`,
`histogram.pb.cc`). For every message the generated code spells out a parser that dispatches on tags,
a printer that goes by field number, a size calculator that fills caches, and `MergeFrom`, `CopyFrom`
and `Clear`. This project models that code and proves that the parts fit together.

It has three layers.

* **Logical messages.** `Wire.dfy` defines the bytes: varints, tags, length prefixes, fixed words and
  records, as in the sections "Base 128 Varints", "Message Structure", "Length-Delimited Records" and
  "Packed Repeated Fields" of the Protocol Buffers Encoding guide; `Utf8.dfy` is section 4 of RFC 3629.
  `Schemas.dfy` and `Repository.dfy` say for each of the forty message types what the `switch` of its
  parser knows: field number, kind, presence, packing, oneof. `Messages.dfy` (merge) and `Codec.dfy`
  (print, parse) are written once over these tables. The laws are proved for every well-formed table
  and then stated for the repository's own messages in `Theorems.dfy`. `Switches.dfy` has the switch of
  each of the forty parsers, with its tag bytes, and the statements of each printer; `GeneratedCode.dfy`
  gives them their meaning without the tables and proves that they parse and print what the tables say. `Floats.dfy`
  says which number a bit pattern is, as section 3.4 of IEEE 754.
* **Objects as values.** `Objects.dfy` is, once for all proto2 messages, what the code keeps in memory:
  has-bits, values that stay behind when a bit is cleared, submessages that stay allocated and spare
  elements, each again such an object. Clearing, merging and parsing work on the bits, and a parse may
  fail anywhere and leave any object half parsed.
* **Classes.** `HistogramProto.dfy`, `ValueProto.dfy`, `TensorProto.dfy` and `EventProto.dfy` are
  classes with the fields of the generated ones, updated in place: has-bits and retained submessages,
  cached sizes, the tagged union and its owned pointers. Each method is proved to do to the logical
  message what the first layer says. `Parsing.dfy` and `Printing.dfy` hold what the parse loops, the
  printers and the size calculators share. `Ownership.dfy` is the account of who owns which submessage
  of an `Event`, as a state machine whose runs are all permitted sequences of calls.

The main results:

* for all forty message types, parsers and printers that follow the switches, tags and conditions of the
  code do to every message and every input what the laws below are proved for; the bytes are pinned
  down to the bit: which byte of a varint or a fixed word carries which bits, and checked strings are
  exactly the encodings of sequences of Unicode scalar values;
* parsing what `b` prints into `a` gives exactly `a.MergeFrom(b)`, unknown fields included, and is
  refused exactly when `b` holds a checked string that is not UTF-8 or a value too long for its prefix;
* for an input of any origin, parsing it into a message is merging what it parses to exactly under a
  condition on what the message holds; for graphs and tensors of the IR always;
* whatever was parsed prints to a normal form: accepted again, equal up to the negative zero of singular
  proto3 floating-point fields, and printing to itself;
* whatever parsing and merging build keeps only unknown fields its own parser leaves alone, at every
  depth, values of closed enums diverted by `WriteVarint` among them;
* parsing is a fold over the input; repeated numbers may be split over packed and single records at
  will; the last run of records of a oneof decides, and a submessage is parsed from its joined contents;
* over any history of parses, failed ones included, merges, copies and clears, what has its bit not set
  is zero, empty, null or hollow at every depth, so that a copy shows just what the original shows and
  nothing that was retained can be observed;
* merging has the empty message as unit, and is associative exactly when no oneof is switched away from
  a submessage and back without that submessage being overwritten; graphs form a monoid;
* the inner do-while loops give what the dispatch loop gives, wherever they leave and however tags are
  encoded;
* size calculators and printers agree although they visit the fields in different orders, and a printer
  that takes its length prefixes from caches writes the right bytes after `ByteSizeLong`, through any
  nesting of tensors and variants, and the caches are stale after a change;
* every submessage of an event is held by the event, owned by the program or destroyed, and only one of
  these, in every run, also through parses, merges and copies, which evict and create members, and
  when several events exchange submessages.

Two places where the code does not do what one might expect are kept as they are.
`DataType_IsValid` takes an `int`, so the 64-bit value is narrowed before it is tested: a varint of
2^32 + 1 counts as 1. A singular proto3 floating-point field is printed and merged only if it does not
compare equal to zero, so a negative zero is lost in a round trip while a NaN is kept.

The presence word of `ValueProto` is the set of its bits; `HasBits.dfy` ties it to the 32-bit word and
its masks. Nothing here was executed.

## Model

| member | source | states |
|---|---|---|
| Wire.FixedBytes | proto/event.pb.cc:842-846 | byte i of a fixed word holds bits 8i to 8i+7 of the number, the least significant first |
| Wire.FixedValueBytes | proto/event.pb.cc:740-745 | the number read from fixed bytes has byte i as its bits 8i to 8i+7, and no others |
| Wire.VarintBytes | proto/mindspore_anf_ir.pb.cc:4775-4780 | byte i of a varint holds seven bits of the number, and all bytes but the last are marked |
| Wire.VarintLengthIff | proto/mindspore_anf_ir.pb.cc:4775-4780 | a varint takes k bytes or fewer exactly if the number is below 128^k |
| Wire.ReadersOfVarint | proto/event.pb.cc:736-751 | what any varint, minimal or not, is read as: at most ten bytes for a value and five for a tag or a length, high bits dropped, lengths up to 2^31 - 17 |
| Wire.ReadersNeedAnEnd | proto/event.pb.cc:736-751 | a varint that does not end is read by none of them |
| Utf8.ValidIffText | proto/event.pb.cc:754-762 | checked strings are accepted exactly if they are encodings of Unicode scalar values put end to end |
| Schemas.WireRoundTrip | proto/event.pb.cc:2337-2383 | every value of every integer, bool and enum kind is restored by printing it sign-extended to 64 bits and narrowing what is read |
| Schemas.FromWireInRange | proto/tensor.pb.cc:350-358 | what a 64-bit varint is narrowed to is in the range of the field's kind, or the closed enum refused it |
| Schemas.FromWireKeepsLowBits | proto/mindspore_anf_ir.pb.cc:1011-1036 | a bool is false exactly for the varint 0; any other number keeps the low 32 or 64 bits of the varint |
| Schemas.ClosedEnumAcceptsIff | proto/mindspore_anf_ir.pb.cc:1000-1010 | a closed enum takes exactly the varints whose low 32 bits are a declared value |
| Schemas.NarrowedEnum | proto/mindspore_anf_ir.pb.cc:1000-1011 | exactly the varints of 2^32 and more whose low 32 bits are a declared value are stored as another value than was read |
| Schemas.NegativeTakesTenBytes | proto/event.pb.cc:2401-2406 | negative values always take ten varint bytes |
| Repository.RepoIsWf | proto/mindspore_anf_ir.pb.cc:998-1221 | the tables of all forty message types are well formed: numbers ascend and are in range, and kinds go with presence and packing |
| GeneratedCode.ParserIsDescribed | proto/mindspore_anf_ir.pb.cc:4589-4713 | for all forty types, the switch of the parser with its own tag bytes gives on every message and every input what parsing over the tables gives |
| GeneratedCode.PrinterIsDescribed | proto/mindspore_anf_ir.pb.cc:4715-4808 | for all forty types, the statements of the printer with their field numbers and conditions write what serializing over the tables gives |
| GeneratedCode.CaseIsFound | proto/summary.pb.cc:1990-2086 | the switch takes, for every tag, the case of the field the table finds, and none if there is none |
| GeneratedCode.NewIsEmpty | proto/summary.pb.cc:1422-1429 | what the constructor leaves is the empty message: zero where no presence is kept |
| MasterLaw.ParseOfEncodeAll | proto/mindspore_anf_ir.pb.cc:990-1243 | a printed record list is read back record by record; it is refused at the first length prefix that is too long |
| MasterLaw.UnknownsAreKept | proto/mindspore_anf_ir.pb.cc:1222-1233 | re-parsing serialized unknown fields appends the same list in the same order and touches no known field |
| MasterLaw.UnpackOfPack | proto/tensor.pb.cc:539-546 | the elements of a packed record are read back exactly |
| MasterLaw.DecodeOfPrinted | proto/mindspore_anf_ir.pb.cc:1051-1075 | reading one printed value gives the value adopted by what is there: submessages are merged |
| MasterLaw.ApplySlot | proto/tensor.pb.cc:423-465 | parsing the records of one field is merging that field, whatever its kind and packing |
| MasterLaw.ParseOfSerialize | proto/mindspore_anf_ir.pb.cc:1584-1638 | master law for every well-formed table: parsing what b prints into a is merging b into a, or failure exactly when b is not readable |
| Theorems.ParsingMerges | proto/mindspore_anf_ir.pb.cc:6032-6262 | the master law for all message types of the repository |
| Theorems.CleanMessagesMerge | proto/summary.pb.cc:1990-2172 | within the size limit, with oneofs: parsing merges exactly if every checked string encodes a sequence of Unicode scalar values, and fails otherwise |
| Theorems.IrMessagesMerge | proto/mindspore_anf_ir.pb.cc:4589-4942 | for the recursive Value, Node and Graph family parsing always succeeds and merges |
| NormalForm.ParseKeepsWf | proto/mindspore_anf_ir.pb.cc:1004-1008 | what a parse leaves is well formed at every depth: typed, one oneof member, unknown fields its own parser would again leave alone |
| NormalForm.MergeKeepsWf | proto/mindspore_anf_ir.pb.cc:3493-3516 | so does a merge |
| NormalForm.ParseKeepsClean | proto/event.pb.cc:754-762 | parsing admits no malformed UTF-8 into a checked string |
| RoundTrip.ZeroTest | proto/summary.pb.cc:1546-1549 | the zero test holds of the default value and of negative zeros, and of no other value of any kind |
| Floats.ZeroTestIsComparison | proto/summary.pb.cc:1672-1674 | on floats and doubles it is the comparison with zero of the number that the bits stand for |
| RoundTrip.CopyPrintsTheSame | proto/histogram.pb.cc:105-114 | a copy made by Clear and MergeFrom serializes to the same bytes as the original and as its bitwise copy |
| RoundTrip.CopyIsSame | proto/histogram.pb.cc:387-425 | such a copy is equal to the original exactly if no singular proto3 field holds a negative zero |
| RoundTrip.RoundTrips | proto/histogram.pb.cc:161-298 | parsing a printed message gives its copy if it is readable, and the message itself exactly if it also holds no negative zero |
| RoundTrip.ShortIsReadable | proto/event.pb.cc:836-922 | a message with well-formed strings within the size limit is readable |
| RoundTrip.ReadableIsClean | proto/event.pb.cc:754-762 | a readable message has well-formed strings |
| RoundTrip.PrintIsNormalForm | proto/tensor.pb.cc:291-633 | for every accepted input, what was parsed prints to bytes that are accepted exactly if it is readable, as within the size limit it always is; they then give the same message up to negative zeros, and print to themselves |
| RoundTrip.ExactIsCanonical | proto/mindspore_anf_ir.pb.cc:990-1401 | types without implicit floating-point fields, at any depth, hold no negative zero that would be lost |
| Theorems.ExactNormalForm | proto/mindspore_anf_ir.pb.cc:990-1401 | for the IR and tensor families a readable normal form parses to exactly the same message |
| Theorems.HistogramCanonical | proto/histogram.pb.cc:246-290 | the round trip of a histogram is the identity exactly if none of its five singular doubles is a negative zero; NaNs and buckets keep their bits |
| Theorems.NegativeZeroIsLost | proto/histogram.pb.cc:251-255 | a histogram whose minimum is negative zero is not restored |
| Streams.ParseIsFold | proto/mindspore_anf_ir.pb.cc:994-1235 | parsing a concatenation is parsing its parts in turn, with nested limits respected at every depth |
| Streams.RechunkingIsInvisible | proto/mindspore_anf_ir.pb.cc:1092-1150 | records of a repeated number, packed and single in any mix, contribute just their sequence of elements |
| Streams.JoiningPackedRecords | proto/mindspore_anf_ir.pb.cc:6406-6482 | two packed records and the one of their joined payloads mean the same |
| Streams.UnpackIff | proto/mindspore_anf_ir.pb.cc:1086-1088 | a packed payload is read exactly if it is made of whole elements, and then into these |
| Streams.OnlyMembersMatter | proto/event.pb.cc:740-813 | records that set no oneof member do not matter to the oneof, wherever they stand |
| Streams.LastOneofRunWins | proto/event.pb.cc:754-806 | the final case is that of the last well-typed oneof record, and its content comes from the last run of records of that case alone |
| Streams.OneofOfInput | proto/event.pb.cc:732-834 | after any accepted input the member of its last member record is the one that is set; a submessage is what parsing the joined contents of the last run makes, any other member the last value |
| Streams.RunsOfSubmessagesMerge | proto/event.pb.h:2197-2204 | a run of records for one submessage is parsed as the concatenation of their contents |
| MergeAlgebra.EmptyIsRightUnit | proto/mindspore_anf_ir.pb.cc:6248-6262 | merging an empty message in changes nothing |
| MergeAlgebra.OverwrittenIff | proto/mindspore_anf_ir.pb.cc:1584-1638 | a merge hides what was there exactly if everything there is overwritten, at every depth |
| MergeAlgebra.HiddenIff | proto/mindspore_anf_ir.pb.cc:3493-3516 | a merge gives just its argument exactly if each field of the argument hides what was there, submessages at every depth |
| MergeAlgebra.AssocIff | proto/mindspore_anf_ir.pb.cc:3493-3516 | merging is associative exactly unless a oneof is switched away from a submessage and back to it without overwriting it |
| MergeAlgebra.PlainAssociates | proto/mindspore_anf_ir.pb.cc:6248-6262 | types whose singular submessages are in no oneof always associate |
| Theorems.GraphsFormAMonoid | proto/mindspore_anf_ir.pb.cc:6248-6262 | merging graphs is associative, with the empty graph as two-sided unit |
| Theorems.ValuesAssociate | proto/mindspore_anf_ir.pb.cc:1584-1638 | merging values is associative unless the oneof inside type_val switches case in the middle argument and back in the last |
| Theorems.SwitchingBackDoesNotAssociate | proto/mindspore_anf_ir.pb.cc:3493-3516 | three types that switch back and do not associate |
| Theorems.TypesDoNotAssociate | proto/mindspore_anf_ir.pb.cc:3493-3516 | the same in the repository's tables |
| AnyInput.ParseAlike | proto/mindspore_anf_ir.pb.cc:990-1243 | whether an input is accepted does not depend on the message it is parsed into |
| AnyInput.InputMergesIff | proto/mindspore_anf_ir.pb.cc:1584-1638 | for every accepted input, parsing it into a message is merging what it parses to exactly if no explicit zero is stored over a proto3 value, no element loses a negative zero, and after a oneof was switched away and back the last submessage hides what was there, at every depth |
| Theorems.GraphInputsMerge | proto/mindspore_anf_ir.pb.cc:6032-6262 | for graphs, tensors and shapes of the IR it always is |
| Theorems.ExplicitZeroIsNotMerged | proto/event.pb.cc:2336-2442 | an explicit zero is stored by a parse and ignored by a merge |
| Theorems.HugeDataTypeIsNarrowed | proto/mindspore_anf_ir.pb.cc:730-790 | a varint of 2^32 + 1 is taken for the declared value 1 |
| Objects.ViewIsWf | proto/mindspore_anf_ir.pb.cc:1004-1008 | what an object shows is a well-formed message |
| Objects.ClearIsBare | proto/mindspore_anf_ir.pb.cc:942-988 | although it visits only what has its bit set, Clear leaves nothing set at any depth |
| Objects.MergeRefines | proto/mindspore_anf_ir.pb.cc:1584-1638 | merging objects by their bits, into retained and spare ones, shows the merge of what they show and keeps the invariant |
| Objects.ParseRefines | proto/mindspore_anf_ir.pb.cc:990-1243 | parsing into objects accepts what the specification accepts, shows what it gives, and keeps the invariant also where it fails, whatever a failed read left behind |
| Objects.HistoryKeepsInv | proto/mindspore_anf_ir.pb.cc:1236-1241 | over any history of parses, failed or not, merges, copies and clears the invariant holds at every depth |
| Objects.UnsetIsHollow | proto/mindspore_anf_ir.pb.cc:1764-1782 | so what has its bit not set is zero, empty, null or an object in which again nothing is kept |
| Objects.CopyForgetsHistory | proto/mindspore_anf_ir.pb.cc:1647-1652 | a copy shows what the original shows, whatever happened to either before |
| Objects.StaleChildLeaks | proto/mindspore_anf_ir.pb.cc:958-976 | without the invariant it would not: what a retained submessage still shows comes to light in the copy |
| Objects.ParseLooksTheSame | proto/mindspore_anf_ir.pb.cc:990-1243 | objects that show the same message show the same after the same parse, even one that fails |
| Objects.RetainedIsInvisible | proto/mindspore_anf_ir.pb.cc:1601-1637 | what an object retained cannot be observed by merging or parsing |
| Objects.ReadObject | proto/mindspore_anf_ir.pb.cc:1056-1075 | a nested parse goes on with the object that is there, which stays half parsed if it fails |
| Objects.ReadElements | proto/mindspore_anf_ir.pb.cc:1167-1214 | the do-while loop of a repeated submessage parses each element into a spare object or a new one, with the outcome of the dispatch loop |
| Theorems.IrForgetsHistory | proto/mindspore_anf_ir.pb.cc:1764-1782 | all this for every message of the IR |
| Parsing.LowByteTestIsExact | proto/mindspore_anf_ir.pb.cc:998-1001 | after the switch on the field number, comparing the low byte of the tag is comparing the whole tag |
| Parsing.OneTurn | proto/mindspore_anf_ir.pb.cc:994-1235 | one turn of the dispatch loop makes progress, keeps the message well formed and does not change the outcome of the parse |
| Parsing.ClosedEnumTurn | proto/mindspore_anf_ir.pb.cc:1000-1011 | a declared enum value sets the field, any other goes to the unknown fields |
| Parsing.UnusualTurn | proto/mindspore_anf_ir.pb.cc:1222-1233 | a record no case takes is kept as an unknown field |
| Parsing.RunStep | proto/mindspore_anf_ir.pb.cc:1095-1102 | one more turn of an inner loop appends one element, as the dispatch loop would |
| Parsing.ReadRun | proto/mindspore_anf_ir.pb.cc:1167-1214 | the do-while loop on one tag gives the same outcome as returning to the dispatch for every record, for any choice of DataAvailable and any encoding of the tags |
| Parsing.ReadRepeated | proto/mindspore_anf_ir.pb.cc:1076-1090 | a repeated field accepts packed and single records and appends their elements |
| Parsing.ReadStored | proto/event.pb.cc:754-769 | reading a string sets the field, clears its oneof siblings, and fails on malformed UTF-8 if the field is checked |
| Parsing.ReadStoredMessage | proto/event.pb.cc:771-798 | a nested parse goes on with the submessage that is there |
| Parsing.ReadEnum | proto/mindspore_anf_ir.pb.cc:1000-1011 | reading a closed enum, either outcome |
| Parsing.ReadUnknown | proto/mindspore_anf_ir.pb.cc:1222-1233 | the unknown field is appended, or the whole parse fails |
| Printing.SerializedSize | proto/mindspore_anf_ir.pb.cc:1403-1567 | the field sizes, in whatever order they are added up, make the length of what is printed |
| Printing.PrefixSizeIsExact | proto/tensor.pb.cc:644-656 | the length prefix measured through a narrowed int is right below 2 GiB, wrong from there to 4 GiB, and beyond that right only where the low half happens to take as many bytes |
| Printing.PackedFieldSize | proto/tensor.pb.cc:674-686 | below 2 GiB a calculator adds for a packed field what the printer writes |
| Printing.FieldSizeIsSum | proto/mindspore_anf_ir.pb.cc:1411-1440 | the size of an unpacked repeated field is a tag for each element and the sizes of the elements |
| Printing.CachedPrefix | proto/tensor.pb.cc:539-546 | a prefix taken from a cache that holds the size of what follows makes the right record |
| Printing.PrintCachedPacked | proto/tensor.pb.cc:559-566 | a packed field whose size comes from its cache is printed right if the cache is |
| Printing.PrintFixedPacked | proto/tensor.pb.cc:528-536 | a packed field of fixed-size elements needs no cache |
| Printing.PrintRepeated | proto/mindspore_anf_ir.pb.cc:1315-1354 | one record per element, in order |
| Printing.AddVarintSizes | proto/tensor.pb.cc:674-686 | the summed varint sizes are the length of the packed payload |
| HistogramProtos.HistogramProto.Clear | proto/histogram.pb.cc:147-159 | the message becomes the empty one |
| HistogramProtos.HistogramProto.MergeFrom | proto/histogram.pb.cc:387-411 | the message becomes the merge of both; neither zero overwrites, every NaN does |
| HistogramProtos.HistogramProto.CopyFrom | proto/histogram.pb.cc:420-425 | the message becomes the copy by Clear and MergeFrom |
| HistogramProtos.HistogramProto.Clone | proto/histogram.pb.cc:105-114 | the copy constructor keeps every bit |
| HistogramProtos.HistogramProto.ByteSizeLong | proto/histogram.pb.cc:300-370 | the result is the serialized size plus the error of the two packed prefixes, none below 2 GiB |
| HistogramProtos.HistogramProto.InternalSerialize | proto/histogram.pb.cc:246-298 | the printer writes the serialized message |
| HistogramProtos.HistogramProto.InternalParse | proto/histogram.pb.cc:161-244 | the parser accepts what the specification accepts and leaves the message it gives |
| HasBitWords.WordHasBit | proto/mindspore_anf_ir.pb.cc:799-834 | each bit of the 32-bit word stands for its field |
| HasBitWords.WordSet | proto/mindspore_anf_ir.pb.cc:799-834 | setting it marks the field present and no other |
| HasBitWords.WordMasks | proto/mindspore_anf_ir.pb.cc:958-985 | the masks 0x0f, 0xf0, 0xff and 0x300 of the word test for their groups of fields |
| HasBitWords.GroupMasks | proto/mindspore_anf_ir.pb.cc:958-985 | a group mask is clear exactly if none of its fields is present |
| ValueProtos.ValueProto.Clear | proto/mindspore_anf_ir.pb.cc:942-988 | the message becomes empty whatever came before; submessages and elements are cleared by their own bits and stay allocated, just as `Objects.Clear` does it |
| ValueProtos.ValueProto.MergeFrom | proto/mindspore_anf_ir.pb.cc:1584-1638 | the message becomes the merge of both, submessages merged object by object as in `Objects.MergeFrom`; every unset bit still means a zero, an empty string or a bare submessage |
| ValueProtos.ValueProto.CopyFrom | proto/mindspore_anf_ir.pb.cc:1647-1652 | the message becomes equal to the other one, whatever came before |
| ValueProtos.ValueProto.InternalParse | proto/mindspore_anf_ir.pb.cc:990-1243 | the parser accepts what the specification accepts and leaves the message it gives; the has-bit invariant holds at every depth even after a failure that leaves submessages half parsed |
| ValueProtos.ValueProto.SelfShows | proto/mindspore_anf_ir.pb.cc:942-988 | a value is an object of the kind its submessages are: it satisfies their invariant and shows the same message |
| ValueProtos.ValueProto.ByteSizeLong | proto/mindspore_anf_ir.pb.cc:1403-1567 | the result, added up by has-bit groups with one- and two-byte tags, is the length of what is printed by field number |
| ValueProtos.ValueProto.InternalSerialize | proto/mindspore_anf_ir.pb.cc:1245-1401 | the printer writes the serialized message |
| TensorProtos.VariantTensorDataProto.ByteSizeLong | proto/tensor.pb.cc:1133-1169 | below 2 GiB the result is the serialized size and every cache in the tree is up to date |
| TensorProtos.VariantTensorDataProto.InternalSerialize | proto/tensor.pb.cc:1095-1131 | with caches up to date the printer writes the serialized message |
| TensorProtos.VariantTensorDataProto.AddTensors | proto/tensor.pb.h:1801-1807 | an empty tensor is appended and returned, and the tree stays well formed |
| TensorProtos.TensorProto.ByteSizeLong | proto/tensor.pb.cc:635-856 | below 2 GiB the result is the serialized size, and every size cache, of packed fields and of nested messages, is up to date |
| TensorProtos.TensorProto.InternalSerialize | proto/tensor.pb.cc:496-633 | with caches up to date the printer, which takes prefixes and the presence of packed fields from them, writes the serialized message |
| TensorProtos.TensorProto.AddVariantVal | proto/tensor.pb.h:1478-1484 | an empty variant is appended and returned, and the tree stays well formed |
| TensorProtos.TensorProto.AddIntVal | proto/tensor.pb.h:1128-1134 | an element is appended, and caches that were up to date no longer are |
| Ownership.StepKeepsInv | proto/event.pb.h:2155-2204 | every call with objects the caller owns keeps each submessage in exactly one place and the tag matching the live member |
| Ownership.StepMoves | proto/event.pb.cc:509-576 | what each call takes from the program, hands to it and deletes, in order |
| Ownership.NothingGetsLost | proto/event.pb.h:2155-2204 | what the event no longer holds was deleted, unless released, and then nothing was deleted; what the program gave up was deleted or is held |
| Ownership.GrewKeeps | proto/event.pb.cc:732-834 | what an event does of its own accord leaves alone what the program owns, undoes no destruction, and destroys what it evicts |
| Ownership.OwnershipOverCalls | proto/event.pb.cc:668-834 | over any sequence of calls, parses that fail, merges and copies included, every object is in exactly one place, and what is destroyed stays so |
| Ownership.OwnershipOverRuns | proto/event.pb.cc:509-576 | so does every run of single operations; nothing is destroyed twice |
| Ownership.OwnershipOverEvents | proto/event.pb.h:2155-2204 | over any calls on several events that give each other submessages, an object is in one place of one account, is not lost, and once destroyed is held by no event and owned by nobody |
| Ownership.DestructorHoldsNothing | proto/event.pb.cc:645-651 | after the destructor the event holds nothing and what it held is destroyed |
| Ownership.SetAllocatedNeedsOwner | proto/event.pb.cc:509-523 | set_allocated keeps the account exactly if the caller owns the argument |
| EventProtos.EventProto.ClearWhat | proto/event.pb.cc:668-712 | the live member is destroyed and no member is set |
| EventProtos.EventProto.ClearMember | proto/event.pb.cc:524-532 | one member is cleared if it is the live one, and its submessage is deleted |
| EventProtos.EventProto.SetAllocated | proto/event.pb.cc:509-576 | the argument leaves the program and becomes the only member; the submessage that was there is deleted, and nothing else |
| EventProtos.EventProto.Release | proto/event.pb.h:2155-2168 | the submessage goes to the caller, nothing is deleted, and no member is set |
| EventProtos.EventProto.HandOver | proto/event.pb.h:2155-2176 | what was released goes over to the account of another event, which may then be given it; neither event shows a change |
| EventProtos.EventProto.MutableWhat | proto/event.pb.h:2197-2204 | the member is the one that was there, or a new empty one after any other is destroyed |
| EventProtos.EventProto.SetString | proto/event.pb.h:2070-2077 | the string is the only member, and a submessage that was live is deleted |
| EventProtos.EventProto.ClearSourceMetadata | proto/event.pb.h:2542-2547 | the source metadata is destroyed |
| EventProtos.EventProto.SetAllocatedSourceMetadata | proto/event.pb.h:2598-2616 | the argument leaves the program and is taken over; the old source metadata is deleted, and nothing else |
| EventProtos.EventProto.ReleaseSourceMetadata | proto/event.pb.h:2570-2578 | the source metadata goes to the caller and nothing is deleted |
| EventProtos.EventProto.MutableSourceMetadata | proto/event.pb.h:2586-2593 | the source metadata that was there, or a new empty one |
| EventProtos.EventProto.Clear | proto/event.pb.cc:715-730 | the message becomes empty, and what it held is destroyed |
| EventProtos.EventProto.Destroy | proto/event.pb.cc:645-651 | everything held is destroyed, and nothing else |
| EventProtos.EventProto.MergeFrom | proto/event.pb.cc:1029-1078 | the message becomes the merge of both, also when the other case evicts the member, which is then destroyed; the account gains permitted operations of the event alone |
| EventProtos.EventProto.InternalParse | proto/event.pb.cc:732-834 | the parser accepts what the specification accepts and leaves the message it gives; also if it fails, the account gains permitted operations of the event alone, the program keeps what it owns, and what is evicted is destroyed |
| EventProtos.EventProto.CopyFrom | proto/event.pb.cc:1087-1092 | the message becomes the copy of the other one, whatever came before; the account gains permitted operations of the event alone |
| EventProtos.EventProto.Clone | proto/event.pb.cc:583-629 | the copy constructor makes new submessages, keeps the scalars bit by bit, and its result serializes to the same bytes |
| EventProtos.CloneIsSame | proto/event.pb.cc:595-627 | the copy constructor gives an equal message exactly if no member of the oneof holds a negative zero at some depth, the only values merging drops |
| EventProtos.EventProto.MemberSizes | proto/event.pb.cc:951-1004 | the switch over the case adds what the printer writes for the seven members together |
| EventProtos.EventProto.ByteSizeLong | proto/event.pb.cc:924-1012 | the result is the serialized size, and the cached sizes of the submessages are up to date |
| EventProtos.EventProto.InternalSerialize | proto/event.pb.cc:836-922 | with cached sizes up to date, below 2 GiB, the printer writes the serialized message |
| EventProtos.MergedEvent | proto/event.pb.cc:1029-1078 | scalars, source metadata and the switch over the case, done one after the other, make the merge |

## Left out

- The protobuf runtime is not part of this model: input in chunks and slop bytes, output buffers and aliasing, reflection, descriptor tables, default instances, dynamic registration, swapping. Input is one byte sequence with an end limit.
- Group wire types 3 and 4 and tag 0: they end a parse in failure; groups and parsing up to an end tag are not modelled. Depth is unlimited.
- Arenas: events and messages live on the heap, where the `unsafe_arena_` calls do what the plain ones do.
- Strings of the union are values: their buffers and `set_allocated_*` and `release_*` of strings are not modelled.
- Debug-only checks (`GOOGLE_DCHECK`, the UTF-8 warnings of proto2 and of printers) have no effect here.
- HistogramProtos.HistogramProto.InternalParse: what a failed parse leaves behind is only said to be well formed.
- ValueProtos.ValueProto.InternalParse: what a failed parse leaves behind is only said to be well formed, with the has-bit invariant at every depth.
- EventProtos.EventProto.InternalParse: what a failed parse leaves behind is only said to be well formed and accounted for.
- Objects.ParseRefines: a nested parser that fails for lack of input is taken to have seen all that is left up to the limit; which part of it the runtime hands out is not modelled.
- ValueProtos.ValueProto.ByteSizeLong: does not model that the runtime narrows lengths of strings and submessages to 32 bits, which matters from 4 GiB on.
- EventProtos.EventProto.ByteSizeLong: does not model that narrowing either.
- TensorProtos.VariantTensorDataProto.AddTensors: a tensor that is changed after it was added is not followed up; deeper trees are built from tensors filled before, by `AddAllocated`.
- TensorProtos.TensorProto.AddVariantVal: the same for variants.
- TensorProtos.TensorProto.ByteSizeLong: says nothing about results of 2 GiB and more, where the caches overflow.
- TensorProtos.VariantTensorDataProto.ByteSizeLong: says nothing about results of 2 GiB and more either.
- Submessages of a `ValueProto` are the objects of `Objects.dfy`, each a part of its parent, without addresses of their own; those of an `Event` below the first level are logical messages. Repeated strings keep no spare ones: a reused string is overwritten. The caches inside tensor shapes and resource handles are not modelled, only their own size caches. The size caches of a `ValueProto` and its submessages, and its copy constructor, are modelled by the logical layer only.
- The other messages (Node, Graph, Parameter, Attribute, types, summaries, resource handles, log messages and so on) have no class of their own: they repeat the cases of the modelled classes. Their switches and the statements of their printers are in `Switches.dfy`; the inner loops of repeated fields and the size calculators are modelled in the classes alone.
- The ModelVis plugin, the plugin core, the Rust bridge, the Scalar server and the front end: they do not touch the message code.
