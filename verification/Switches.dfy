/** The dispatch of every generated parser and the statements of every generated printer, with the tags
    and field numbers written there.  Nothing here reads the message descriptions. */
module Switches {
  import opened Wire
  import opened Schemas

  /** What a `case` does with the bytes after the tag; `slot` is the member it fills. */
  datatype Case =
    | HandleUnusual                                  // goto handle_unusual
    | SetNumber(slot: nat, kind: Kind)               // ReadVarint64 or UnalignedLoad
    | SetEnum(slot: nat, last: int)                  // kept if IsValid, otherwise WriteVarint
    | AddNumber(slot: nat, kind: Kind)
    | AddPacked(slot: nat, kind: Kind)               // PackedInt64Parser and the like
    | SetString(slot: nat, checked: bool)            // InlineGreedyStringParser, then VerifyUTF8 or not
    | AddString(slot: nat, checked: bool)
    | ParseMessage(slot: nat, target: MessageType)   // ParseMessage(mutable_...)
    | AddMessage(slot: nat, target: MessageType)     // ParseMessage(add_...)

  /** `if (static_cast<uint8>(tag) == low) ... else goto handle_unusual`. */
  function On(tag: nat, low: nat, c: Case): Case {
    if tag % 256 == low then c else HandleUnusual
  }

  function Either(tag: nat, low: nat, c: Case, otherLow: nat, other: Case): Case {
    if tag % 256 == low then c else On(tag, otherLow, other)
  }

  datatype Form = Str | Numeral(kind: Kind) | Nested(target: MessageType)

  /** A statement of a printer: under which condition it writes, and what. */
  datatype Put =
    | IfSet(num: nat, form: Form)                    // has-bit, pointer or case
    | IfNotEmpty(num: nat)                           // size() > 0
    | IfNotZero(num: nat, kind: Kind)                // != 0
    | UnlessZero(num: nat, kind: Kind)               // !(x <= 0 && x >= 0)
    | Each(num: nat, form: Form)                     // one record per element
    | Packed(num: nat, kind: Kind)                   // one record for all elements

  /** The members that share a union: setting one clears the others. */
  predicate InUnion(t: MessageType, slot: nat) {
    match t
    case IrType => 1 <= slot <= 2
    case SummaryValue => 1 <= slot <= 5 || slot == 7
    case Event => 2 <= slot <= 8
    case _ => false
  }

  /** The `switch (tag >> 3)` of the parser of `t`. */
  function CaseOf(t: MessageType, tag: nat): Case {
    match t
    case IrValue => IrValueCase(tag)
    case IrAttribute => IrAttributeCase(tag)
    case IrNamedValue => IrNamedValueCase(tag)
    case IrTensorShapeDimension => IrTensorShapeDimensionCase(tag)
    case IrTensorShape => IrTensorShapeCase(tag)
    case IrTypeTensor => IrTypeTensorCase(tag)
    case IrTypeSequence => IrTypeSequenceCase(tag)
    case IrType => IrTypeCase(tag)
    case IrParameter => IrParameterCase(tag)
    case IrOutput => IrOutputCase(tag)
    case IrInput => IrInputCase(tag)
    case IrNode => IrNodeCase(tag)
    case IrModel => IrModelCase(tag)
    case IrOperator => IrOperatorCase(tag)
    case IrOperatorSet => IrOperatorSetCase(tag)
    case IrGraph => IrGraphCase(tag)
    case IrTensor => IrTensorCase(tag)
    case Tensor => TensorCase(tag)
    case VariantTensorData => VariantTensorDataCase(tag)
    case TensorShapeDim => TensorShapeDimCase(tag)
    case TensorShape => TensorShapeCase(tag)
    case ResourceHandleDtypeAndShape => ResourceHandleDtypeAndShapeCase(tag)
    case ResourceHandle => ResourceHandleCase(tag)
    case SummaryDescription => SummaryDescriptionCase(tag)
    case SummaryPluginData => SummaryPluginDataCase(tag)
    case SummaryMetadata => SummaryMetadataCase(tag)
    case SummaryImage => SummaryImageCase(tag)
    case SummaryAudio => SummaryAudioCase(tag)
    case SummaryValue => SummaryValueCase(tag)
    case Summary => SummaryCase(tag)
    case Histogram => HistogramCase(tag)
    case Event => EventCase(tag)
    case SourceMetadata => SourceMetadataCase(tag)
    case LogMessage => LogMessageCase(tag)
    case SessionLog => SessionLogCase(tag)
    case TaggedRunMetadata => TaggedRunMetadataCase(tag)
    case WatchdogConfig => WatchdogConfigCase(tag)
    case RequestedExitCode => RequestedExitCodeCase(tag)
    case WorkerHeartbeatRequest => WorkerHeartbeatRequestCase(tag)
    case WorkerHeartbeatResponse => WorkerHeartbeatResponseCase(tag)
  }

  /** ValueProto, proto/mindspore_anf_ir.pb.cc:990. */
  function IrValueCase(tag: nat): Case {
    match tag / 8
    case 1 => On(tag, 8, SetEnum(0, 49))
    case 2 => On(tag, 16, SetNumber(1, Bool))
    case 3 => On(tag, 24, SetNumber(2, Int64))
    case 4 => On(tag, 32, SetNumber(3, UInt64))
    case 5 => On(tag, 45, SetNumber(4, Float))
    case 6 => On(tag, 49, SetNumber(5, Double))
    case 7 => On(tag, 58, SetString(6, false))
    case 8 => On(tag, 66, ParseMessage(7, IrTensor))
    case 9 => On(tag, 74, ParseMessage(8, IrGraph))
    case 10 => Either(tag, 80, AddNumber(9, Bool), 82, AddPacked(9, Bool))
    case 11 => Either(tag, 88, AddNumber(10, Int64), 90, AddPacked(10, Int64))
    case 12 => Either(tag, 96, AddNumber(11, UInt64), 98, AddPacked(11, UInt64))
    case 13 => Either(tag, 109, AddNumber(12, Float), 106, AddPacked(12, Float))
    case 14 => Either(tag, 113, AddNumber(13, Double), 114, AddPacked(13, Double))
    case 15 => On(tag, 122, AddString(14, false))
    case 16 => On(tag, 130, AddMessage(15, IrTensor))
    case 17 => On(tag, 138, AddMessage(16, IrGraph))
    case 18 => On(tag, 146, AddMessage(17, IrValue))
    case 19 => On(tag, 154, AddMessage(18, IrNamedValue))
    case 20 => On(tag, 162, ParseMessage(19, IrType))
    case _ => HandleUnusual
  }

  /** AttributeProto, proto/mindspore_anf_ir.pb.cc:1784. */
  function IrAttributeCase(tag: nat): Case {
    match tag / 8
    case 1 => On(tag, 10, SetString(0, false))
    case 2 => On(tag, 18, ParseMessage(1, IrValue))
    case _ => HandleUnusual
  }

  /** NamedValueProto, proto/mindspore_anf_ir.pb.cc:2063. */
  function IrNamedValueCase(tag: nat): Case {
    match tag / 8
    case 1 => On(tag, 10, SetString(0, false))
    case 2 => On(tag, 18, ParseMessage(1, IrValue))
    case _ => HandleUnusual
  }

  /** TensorShapeProto_Dimension, proto/mindspore_anf_ir.pb.cc:2325. */
  function IrTensorShapeDimensionCase(tag: nat): Case {
    match tag / 8
    case 1 => On(tag, 8, SetNumber(0, Int64))
    case 2 => On(tag, 18, SetString(1, false))
    case _ => HandleUnusual
  }

  /** TensorShapeProto, proto/mindspore_anf_ir.pb.cc:2567. */
  function IrTensorShapeCase(tag: nat): Case {
    match tag / 8
    case 1 => On(tag, 10, AddMessage(0, IrTensorShapeDimension))
    case _ => HandleUnusual
  }

  /** TypeProto_Tensor, proto/mindspore_anf_ir.pb.cc:2799. */
  function IrTypeTensorCase(tag: nat): Case {
    match tag / 8
    case 1 => On(tag, 8, SetEnum(0, 49))
    case 2 => On(tag, 18, ParseMessage(1, IrTensorShape))
    case _ => HandleUnusual
  }

  /** TypeProto_Sequence, proto/mindspore_anf_ir.pb.cc:3043. */
  function IrTypeSequenceCase(tag: nat): Case {
    match tag / 8
    case 1 => On(tag, 10, AddMessage(0, IrType))
    case _ => HandleUnusual
  }

  /** TypeProto, proto/mindspore_anf_ir.pb.cc:3338. */
  function IrTypeCase(tag: nat): Case {
    match tag / 8
    case 1 => On(tag, 8, SetEnum(0, 49))
    case 2 => On(tag, 18, ParseMessage(1, IrTypeTensor))
    case 3 => On(tag, 26, ParseMessage(2, IrTypeSequence))
    case _ => HandleUnusual
  }

  /** ParameterProto, proto/mindspore_anf_ir.pb.cc:3670. */
  function IrParameterCase(tag: nat): Case {
    match tag / 8
    case 1 => On(tag, 10, SetString(0, false))
    case 2 => On(tag, 18, ParseMessage(1, IrType))
    case 3 => On(tag, 26, ParseMessage(2, IrValue))
    case _ => HandleUnusual
  }

  /** OutputProto, proto/mindspore_anf_ir.pb.cc:3979. */
  function IrOutputCase(tag: nat): Case {
    match tag / 8
    case 1 => On(tag, 10, SetString(0, false))
    case 2 => On(tag, 18, ParseMessage(1, IrType))
    case _ => HandleUnusual
  }

  /** InputProto, proto/mindspore_anf_ir.pb.cc:4241. */
  function IrInputCase(tag: nat): Case {
    match tag / 8
    case 1 => On(tag, 10, SetString(0, false))
    case 2 => On(tag, 16, SetEnum(1, 1))
    case _ => HandleUnusual
  }

  /** NodeProto, proto/mindspore_anf_ir.pb.cc:4589. */
  function IrNodeCase(tag: nat): Case {
    match tag / 8
    case 1 => On(tag, 10, AddMessage(0, IrInput))
    case 2 => On(tag, 18, SetString(1, false))
    case 3 => On(tag, 26, SetString(2, false))
    case 4 => On(tag, 34, SetString(3, false))
    case 5 => On(tag, 42, AddMessage(4, IrAttribute))
    case 6 => On(tag, 50, ParseMessage(5, IrType))
    case 7 => On(tag, 56, SetNumber(6, UInt64))
    case 8 => On(tag, 66, SetString(7, false))
    case 10 => On(tag, 82, SetString(8, false))
    case _ => HandleUnusual
  }

  /** ModelProto, proto/mindspore_anf_ir.pb.cc:5120. */
  function IrModelCase(tag: nat): Case {
    match tag / 8
    case 1 => On(tag, 8, SetNumber(0, Int64))
    case 2 => On(tag, 18, SetString(1, false))
    case 3 => On(tag, 24, SetNumber(2, Int64))
    case 4 => On(tag, 34, ParseMessage(3, IrGraph))
    case 5 => On(tag, 42, ParseMessage(4, IrOperatorSet))
    case _ => HandleUnusual
  }

  /** OperatorProto, proto/mindspore_anf_ir.pb.cc:5483. */
  function IrOperatorCase(tag: nat): Case {
    match tag / 8
    case 1 => On(tag, 10, SetString(0, false))
    case 2 => On(tag, 18, SetString(1, false))
    case 3 => On(tag, 26, SetString(2, false))
    case _ => HandleUnusual
  }

  /** OperatorSetProto, proto/mindspore_anf_ir.pb.cc:5766. */
  function IrOperatorSetCase(tag: nat): Case {
    match tag / 8
    case 1 => On(tag, 10, AddMessage(0, IrOperator))
    case 2 => On(tag, 18, SetString(1, false))
    case _ => HandleUnusual
  }

  /** GraphProto, proto/mindspore_anf_ir.pb.cc:6032. */
  function IrGraphCase(tag: nat): Case {
    match tag / 8
    case 1 => On(tag, 10, AddMessage(0, IrNode))
    case 2 => On(tag, 18, SetString(1, false))
    case 3 => On(tag, 26, AddMessage(2, IrParameter))
    case 4 => On(tag, 34, AddMessage(3, IrOutput))
    case 5 => On(tag, 42, AddMessage(4, IrNamedValue))
    case _ => HandleUnusual
  }

  /** TensorProto, proto/mindspore_anf_ir.pb.cc:6397. */
  function IrTensorCase(tag: nat): Case {
    match tag / 8
    case 1 => Either(tag, 8, AddNumber(0, Int64), 10, AddPacked(0, Int64))
    case 2 => On(tag, 16, SetEnum(1, 49))
    case 3 => Either(tag, 26, AddPacked(2, Float), 29, AddNumber(2, Float))
    case 4 => Either(tag, 34, AddPacked(3, Int32), 32, AddNumber(3, Int32))
    case 5 => Either(tag, 42, AddPacked(4, Int64), 40, AddNumber(4, Int64))
    case 6 => Either(tag, 50, AddPacked(5, Double), 49, AddNumber(5, Double))
    case 7 => Either(tag, 58, AddPacked(6, UInt64), 56, AddNumber(6, UInt64))
    case 8 => On(tag, 66, SetString(7, false))
    case _ => HandleUnusual
  }

  /** TensorProto, proto/tensor.pb.cc:291. */
  function TensorCase(tag: nat): Case {
    match tag / 8
    case 1 => On(tag, 8, SetNumber(0, OpenEnum))
    case 2 => On(tag, 18, ParseMessage(1, TensorShape))
    case 3 => On(tag, 24, SetNumber(2, Int32))
    case 4 => On(tag, 34, SetString(3, false))
    case 5 => Either(tag, 42, AddPacked(4, Float), 45, AddNumber(4, Float))
    case 6 => Either(tag, 50, AddPacked(5, Double), 49, AddNumber(5, Double))
    case 7 => Either(tag, 58, AddPacked(6, Int32), 56, AddNumber(6, Int32))
    case 8 => On(tag, 66, AddString(7, false))
    case 9 => Either(tag, 74, AddPacked(8, Float), 77, AddNumber(8, Float))
    case 10 => Either(tag, 82, AddPacked(9, Int64), 80, AddNumber(9, Int64))
    case 11 => Either(tag, 90, AddPacked(10, Bool), 88, AddNumber(10, Bool))
    case 12 => Either(tag, 98, AddPacked(11, Double), 97, AddNumber(11, Double))
    case 13 => Either(tag, 106, AddPacked(12, Int32), 104, AddNumber(12, Int32))
    case 14 => On(tag, 114, AddMessage(13, ResourceHandle))
    case 15 => On(tag, 122, AddMessage(14, VariantTensorData))
    case 16 => Either(tag, 130, AddPacked(15, UInt32), 128, AddNumber(15, UInt32))
    case 17 => Either(tag, 138, AddPacked(16, UInt64), 136, AddNumber(16, UInt64))
    case 18 => On(tag, 146, SetString(17, false))
    case _ => HandleUnusual
  }

  /** VariantTensorDataProto, proto/tensor.pb.cc:1036. */
  function VariantTensorDataCase(tag: nat): Case {
    match tag / 8
    case 1 => On(tag, 10, SetString(0, true))
    case 2 => On(tag, 18, SetString(1, false))
    case 3 => On(tag, 26, AddMessage(2, Tensor))
    case _ => HandleUnusual
  }

  /** TensorShapeProto_Dim, proto/tensor_shape.pb.cc:184. */
  function TensorShapeDimCase(tag: nat): Case {
    match tag / 8
    case 1 => On(tag, 8, SetNumber(0, Int64))
    case 2 => On(tag, 18, SetString(1, true))
    case _ => HandleUnusual
  }

  /** TensorShapeProto, proto/tensor_shape.pb.cc:415. */
  function TensorShapeCase(tag: nat): Case {
    match tag / 8
    case 2 => On(tag, 18, AddMessage(0, TensorShapeDim))
    case 3 => On(tag, 24, SetNumber(1, Bool))
    case _ => HandleUnusual
  }

  /** ResourceHandleProto_DtypeAndShape, proto/resource_handle.pb.cc:214. */
  function ResourceHandleDtypeAndShapeCase(tag: nat): Case {
    match tag / 8
    case 1 => On(tag, 8, SetNumber(0, OpenEnum))
    case 2 => On(tag, 18, ParseMessage(1, TensorShape))
    case _ => HandleUnusual
  }

  /** ResourceHandleProto, proto/resource_handle.pb.cc:478. */
  function ResourceHandleCase(tag: nat): Case {
    match tag / 8
    case 1 => On(tag, 10, SetString(0, true))
    case 2 => On(tag, 18, SetString(1, true))
    case 3 => On(tag, 26, SetString(2, true))
    case 4 => On(tag, 32, SetNumber(3, UInt64))
    case 5 => On(tag, 42, SetString(4, true))
    case 6 => On(tag, 50, AddMessage(5, ResourceHandleDtypeAndShape))
    case _ => HandleUnusual
  }

  /** SummaryDescription, proto/summary.pb.cc:392. */
  function SummaryDescriptionCase(tag: nat): Case {
    match tag / 8
    case 1 => On(tag, 10, SetString(0, true))
    case _ => HandleUnusual
  }

  /** SummaryMetadata_PluginData, proto/summary.pb.cc:609. */
  function SummaryPluginDataCase(tag: nat): Case {
    match tag / 8
    case 1 => On(tag, 10, SetString(0, true))
    case 2 => On(tag, 18, SetString(1, false))
    case _ => HandleUnusual
  }

  /** SummaryMetadata, proto/summary.pb.cc:873. */
  function SummaryMetadataCase(tag: nat): Case {
    match tag / 8
    case 1 => On(tag, 10, ParseMessage(0, SummaryPluginData))
    case 2 => On(tag, 18, SetString(1, true))
    case 3 => On(tag, 26, SetString(2, true))
    case 4 => On(tag, 32, SetNumber(3, OpenEnum))
    case _ => HandleUnusual
  }

  /** Summary_Image, proto/summary.pb.cc:1176. */
  function SummaryImageCase(tag: nat): Case {
    match tag / 8
    case 1 => On(tag, 8, SetNumber(0, Int32))
    case 2 => On(tag, 16, SetNumber(1, Int32))
    case 3 => On(tag, 24, SetNumber(2, Int32))
    case 4 => On(tag, 34, SetString(3, false))
    case _ => HandleUnusual
  }

  /** Summary_Audio, proto/summary.pb.cc:1472. */
  function SummaryAudioCase(tag: nat): Case {
    match tag / 8
    case 1 => On(tag, 13, SetNumber(0, Float))
    case 2 => On(tag, 16, SetNumber(1, Int64))
    case 3 => On(tag, 24, SetNumber(2, Int64))
    case 4 => On(tag, 34, SetString(3, false))
    case 5 => On(tag, 42, SetString(4, true))
    case _ => HandleUnusual
  }

  /** Summary_Value, proto/summary.pb.cc:1990. */
  function SummaryValueCase(tag: nat): Case {
    match tag / 8
    case 1 => On(tag, 10, SetString(0, true))
    case 2 => On(tag, 21, SetNumber(1, Float))
    case 3 => On(tag, 26, SetString(2, false))
    case 4 => On(tag, 34, ParseMessage(3, SummaryImage))
    case 5 => On(tag, 42, ParseMessage(4, Histogram))
    case 6 => On(tag, 50, ParseMessage(5, SummaryAudio))
    case 7 => On(tag, 58, SetString(6, true))
    case 8 => On(tag, 66, ParseMessage(7, Tensor))
    case 9 => On(tag, 74, ParseMessage(8, SummaryMetadata))
    case _ => HandleUnusual
  }

  /** Summary, proto/summary.pb.cc:2413. */
  function SummaryCase(tag: nat): Case {
    match tag / 8
    case 1 => On(tag, 10, AddMessage(0, SummaryValue))
    case _ => HandleUnusual
  }

  /** HistogramProto, proto/histogram.pb.cc:161. */
  function HistogramCase(tag: nat): Case {
    match tag / 8
    case 1 => On(tag, 9, SetNumber(0, Double))
    case 2 => On(tag, 17, SetNumber(1, Double))
    case 3 => On(tag, 25, SetNumber(2, Double))
    case 4 => On(tag, 33, SetNumber(3, Double))
    case 5 => On(tag, 41, SetNumber(4, Double))
    case 6 => Either(tag, 50, AddPacked(5, Double), 49, AddNumber(5, Double))
    case 7 => Either(tag, 58, AddPacked(6, Double), 57, AddNumber(6, Double))
    case _ => HandleUnusual
  }

  /** Event, proto/event.pb.cc:732. */
  function EventCase(tag: nat): Case {
    match tag / 8
    case 1 => On(tag, 9, SetNumber(0, Double))
    case 2 => On(tag, 16, SetNumber(1, Int64))
    case 3 => On(tag, 26, SetString(2, true))
    case 4 => On(tag, 34, SetString(3, false))
    case 5 => On(tag, 42, ParseMessage(4, Summary))
    case 6 => On(tag, 50, ParseMessage(5, LogMessage))
    case 7 => On(tag, 58, ParseMessage(6, SessionLog))
    case 8 => On(tag, 66, ParseMessage(7, TaggedRunMetadata))
    case 9 => On(tag, 74, SetString(8, false))
    case 10 => On(tag, 82, ParseMessage(9, SourceMetadata))
    case _ => HandleUnusual
  }

  /** SourceMetadata, proto/event.pb.cc:1182. */
  function SourceMetadataCase(tag: nat): Case {
    match tag / 8
    case 1 => On(tag, 10, SetString(0, true))
    case _ => HandleUnusual
  }

  /** LogMessage, proto/event.pb.cc:1394. */
  function LogMessageCase(tag: nat): Case {
    match tag / 8
    case 1 => On(tag, 8, SetNumber(0, OpenEnum))
    case 2 => On(tag, 18, SetString(1, true))
    case _ => HandleUnusual
  }

  /** SessionLog, proto/event.pb.cc:1639. */
  function SessionLogCase(tag: nat): Case {
    match tag / 8
    case 1 => On(tag, 8, SetNumber(0, OpenEnum))
    case 2 => On(tag, 18, SetString(1, true))
    case 3 => On(tag, 26, SetString(2, true))
    case _ => HandleUnusual
  }

  /** TaggedRunMetadata, proto/event.pb.cc:1911. */
  function TaggedRunMetadataCase(tag: nat): Case {
    match tag / 8
    case 1 => On(tag, 10, SetString(0, true))
    case 2 => On(tag, 18, SetString(1, false))
    case _ => HandleUnusual
  }

  /** WatchdogConfig, proto/event.pb.cc:2139. */
  function WatchdogConfigCase(tag: nat): Case {
    match tag / 8
    case 1 => On(tag, 8, SetNumber(0, Int64))
    case _ => HandleUnusual
  }

  /** RequestedExitCode, proto/event.pb.cc:2336. */
  function RequestedExitCodeCase(tag: nat): Case {
    match tag / 8
    case 1 => On(tag, 8, SetNumber(0, Int32))
    case _ => HandleUnusual
  }

  /** WorkerHeartbeatRequest, proto/event.pb.cc:2570. */
  function WorkerHeartbeatRequestCase(tag: nat): Case {
    match tag / 8
    case 1 => On(tag, 8, SetNumber(0, OpenEnum))
    case 2 => On(tag, 18, ParseMessage(1, WatchdogConfig))
    case 3 => On(tag, 26, ParseMessage(2, RequestedExitCode))
    case _ => HandleUnusual
  }

  /** WorkerHeartbeatResponse, proto/event.pb.cc:2835. */
  function WorkerHeartbeatResponseCase(tag: nat): Case {
    match tag / 8
    case 1 => On(tag, 8, SetNumber(0, OpenEnum))
    case 2 => On(tag, 18, AddMessage(1, Event))
    case 3 => On(tag, 26, SetString(2, true))
    case _ => HandleUnusual
  }

  // ---------------------------------------------------------------- the printers

  const IR_VALUE_PRINTER: seq<Put> :=
    [IfSet(1, Numeral(OpenEnum)), IfSet(2, Numeral(Bool)), IfSet(3, Numeral(Int64)), IfSet(4, Numeral(UInt64)),
     IfSet(5, Numeral(Float)), IfSet(6, Numeral(Double)), IfSet(7, Str), IfSet(8, Nested(IrTensor)),
     IfSet(9, Nested(IrGraph)), Each(10, Numeral(Bool)), Each(11, Numeral(Int64)), Each(12, Numeral(UInt64)),
     Each(13, Numeral(Float)), Each(14, Numeral(Double)), Each(15, Str), Each(16, Nested(IrTensor)),
     Each(17, Nested(IrGraph)), Each(18, Nested(IrValue)), Each(19, Nested(IrNamedValue)), IfSet(20, Nested(IrType))]
  const IR_ATTRIBUTE_PRINTER: seq<Put> := [IfSet(1, Str), IfSet(2, Nested(IrValue))]
  const IR_NAMED_VALUE_PRINTER: seq<Put> := [IfSet(1, Str), IfSet(2, Nested(IrValue))]
  const IR_TENSOR_SHAPE_DIMENSION_PRINTER: seq<Put> := [IfSet(1, Numeral(Int64)), IfSet(2, Str)]
  const IR_TENSOR_SHAPE_PRINTER: seq<Put> := [Each(1, Nested(IrTensorShapeDimension))]
  const IR_TYPE_TENSOR_PRINTER: seq<Put> := [IfSet(1, Numeral(OpenEnum)), IfSet(2, Nested(IrTensorShape))]
  const IR_TYPE_SEQUENCE_PRINTER: seq<Put> := [Each(1, Nested(IrType))]
  const IR_TYPE_PRINTER: seq<Put> :=
    [IfSet(1, Numeral(OpenEnum)), IfSet(2, Nested(IrTypeTensor)), IfSet(3, Nested(IrTypeSequence))]
  const IR_PARAMETER_PRINTER: seq<Put> := [IfSet(1, Str), IfSet(2, Nested(IrType)), IfSet(3, Nested(IrValue))]
  const IR_OUTPUT_PRINTER: seq<Put> := [IfSet(1, Str), IfSet(2, Nested(IrType))]
  const IR_INPUT_PRINTER: seq<Put> := [IfSet(1, Str), IfSet(2, Numeral(OpenEnum))]
  const IR_NODE_PRINTER: seq<Put> :=
    [Each(1, Nested(IrInput)), IfSet(2, Str), IfSet(3, Str), IfSet(4, Str), Each(5, Nested(IrAttribute)),
     IfSet(6, Nested(IrType)), IfSet(7, Numeral(UInt64)), IfSet(8, Str), IfSet(10, Str)]
  const IR_MODEL_PRINTER: seq<Put> :=
    [IfSet(1, Numeral(Int64)), IfSet(2, Str), IfSet(3, Numeral(Int64)), IfSet(4, Nested(IrGraph)),
     IfSet(5, Nested(IrOperatorSet))]
  const IR_OPERATOR_PRINTER: seq<Put> := [IfSet(1, Str), IfSet(2, Str), IfSet(3, Str)]
  const IR_OPERATOR_SET_PRINTER: seq<Put> := [Each(1, Nested(IrOperator)), IfSet(2, Str)]
  const IR_GRAPH_PRINTER: seq<Put> :=
    [Each(1, Nested(IrNode)), IfSet(2, Str), Each(3, Nested(IrParameter)), Each(4, Nested(IrOutput)),
     Each(5, Nested(IrNamedValue))]
  const IR_TENSOR_PRINTER: seq<Put> :=
    [Each(1, Numeral(Int64)), IfSet(2, Numeral(OpenEnum)), Packed(3, Float), Packed(4, Int32), Packed(5, Int64),
     Packed(6, Double), Packed(7, UInt64), IfSet(8, Str)]
  const TENSOR_PRINTER: seq<Put> :=
    [IfNotZero(1, OpenEnum), IfSet(2, Nested(TensorShape)), IfNotZero(3, Int32), IfNotEmpty(4), Packed(5, Float),
     Packed(6, Double), Packed(7, Int32), Each(8, Str), Packed(9, Float), Packed(10, Int64), Packed(11, Bool),
     Packed(12, Double), Packed(13, Int32), Each(14, Nested(ResourceHandle)), Each(15, Nested(VariantTensorData)),
     Packed(16, UInt32), Packed(17, UInt64), IfNotEmpty(18)]
  const VARIANT_TENSOR_DATA_PRINTER: seq<Put> := [IfNotEmpty(1), IfNotEmpty(2), Each(3, Nested(Tensor))]
  const TENSOR_SHAPE_DIM_PRINTER: seq<Put> := [IfNotZero(1, Int64), IfNotEmpty(2)]
  const TENSOR_SHAPE_PRINTER: seq<Put> := [Each(2, Nested(TensorShapeDim)), IfNotZero(3, Bool)]
  const RESOURCE_HANDLE_DTYPE_AND_SHAPE_PRINTER: seq<Put> := [IfNotZero(1, OpenEnum), IfSet(2, Nested(TensorShape))]
  const RESOURCE_HANDLE_PRINTER: seq<Put> :=
    [IfNotEmpty(1), IfNotEmpty(2), IfNotEmpty(3), IfNotZero(4, UInt64), IfNotEmpty(5),
     Each(6, Nested(ResourceHandleDtypeAndShape))]
  const SUMMARY_DESCRIPTION_PRINTER: seq<Put> := [IfNotEmpty(1)]
  const SUMMARY_PLUGIN_DATA_PRINTER: seq<Put> := [IfNotEmpty(1), IfNotEmpty(2)]
  const SUMMARY_METADATA_PRINTER: seq<Put> :=
    [IfSet(1, Nested(SummaryPluginData)), IfNotEmpty(2), IfNotEmpty(3), IfNotZero(4, OpenEnum)]
  const SUMMARY_IMAGE_PRINTER: seq<Put> :=
    [IfNotZero(1, Int32), IfNotZero(2, Int32), IfNotZero(3, Int32), IfNotEmpty(4)]
  const SUMMARY_AUDIO_PRINTER: seq<Put> :=
    [UnlessZero(1, Float), IfNotZero(2, Int64), IfNotZero(3, Int64), IfNotEmpty(4), IfNotEmpty(5)]
  const SUMMARY_VALUE_PRINTER: seq<Put> :=
    [IfNotEmpty(1), IfSet(2, Numeral(Float)), IfSet(3, Str), IfSet(4, Nested(SummaryImage)),
     IfSet(5, Nested(Histogram)), IfSet(6, Nested(SummaryAudio)), IfNotEmpty(7), IfSet(8, Nested(Tensor)),
     IfSet(9, Nested(SummaryMetadata))]
  const SUMMARY_PRINTER: seq<Put> := [Each(1, Nested(SummaryValue))]
  const HISTOGRAM_PRINTER: seq<Put> :=
    [UnlessZero(1, Double), UnlessZero(2, Double), UnlessZero(3, Double), UnlessZero(4, Double),
     UnlessZero(5, Double), Packed(6, Double), Packed(7, Double)]
  const EVENT_PRINTER: seq<Put> :=
    [UnlessZero(1, Double), IfNotZero(2, Int64), IfSet(3, Str), IfSet(4, Str), IfSet(5, Nested(Summary)),
     IfSet(6, Nested(LogMessage)), IfSet(7, Nested(SessionLog)), IfSet(8, Nested(TaggedRunMetadata)), IfSet(9, Str),
     IfSet(10, Nested(SourceMetadata))]
  const SOURCE_METADATA_PRINTER: seq<Put> := [IfNotEmpty(1)]
  const LOG_MESSAGE_PRINTER: seq<Put> := [IfNotZero(1, OpenEnum), IfNotEmpty(2)]
  const SESSION_LOG_PRINTER: seq<Put> := [IfNotZero(1, OpenEnum), IfNotEmpty(2), IfNotEmpty(3)]
  const TAGGED_RUN_METADATA_PRINTER: seq<Put> := [IfNotEmpty(1), IfNotEmpty(2)]
  const WATCHDOG_CONFIG_PRINTER: seq<Put> := [IfNotZero(1, Int64)]
  const REQUESTED_EXIT_CODE_PRINTER: seq<Put> := [IfNotZero(1, Int32)]
  const WORKER_HEARTBEAT_REQUEST_PRINTER: seq<Put> :=
    [IfNotZero(1, OpenEnum), IfSet(2, Nested(WatchdogConfig)), IfSet(3, Nested(RequestedExitCode))]
  const WORKER_HEARTBEAT_RESPONSE_PRINTER: seq<Put> := [IfNotZero(1, OpenEnum), Each(2, Nested(Event)), IfNotEmpty(3)]

  /** The statements of the printer of `t`, in their order. */
  function Printer(t: MessageType): seq<Put> {
    match t
    case IrValue => IR_VALUE_PRINTER
    case IrAttribute => IR_ATTRIBUTE_PRINTER
    case IrNamedValue => IR_NAMED_VALUE_PRINTER
    case IrTensorShapeDimension => IR_TENSOR_SHAPE_DIMENSION_PRINTER
    case IrTensorShape => IR_TENSOR_SHAPE_PRINTER
    case IrTypeTensor => IR_TYPE_TENSOR_PRINTER
    case IrTypeSequence => IR_TYPE_SEQUENCE_PRINTER
    case IrType => IR_TYPE_PRINTER
    case IrParameter => IR_PARAMETER_PRINTER
    case IrOutput => IR_OUTPUT_PRINTER
    case IrInput => IR_INPUT_PRINTER
    case IrNode => IR_NODE_PRINTER
    case IrModel => IR_MODEL_PRINTER
    case IrOperator => IR_OPERATOR_PRINTER
    case IrOperatorSet => IR_OPERATOR_SET_PRINTER
    case IrGraph => IR_GRAPH_PRINTER
    case IrTensor => IR_TENSOR_PRINTER
    case Tensor => TENSOR_PRINTER
    case VariantTensorData => VARIANT_TENSOR_DATA_PRINTER
    case TensorShapeDim => TENSOR_SHAPE_DIM_PRINTER
    case TensorShape => TENSOR_SHAPE_PRINTER
    case ResourceHandleDtypeAndShape => RESOURCE_HANDLE_DTYPE_AND_SHAPE_PRINTER
    case ResourceHandle => RESOURCE_HANDLE_PRINTER
    case SummaryDescription => SUMMARY_DESCRIPTION_PRINTER
    case SummaryPluginData => SUMMARY_PLUGIN_DATA_PRINTER
    case SummaryMetadata => SUMMARY_METADATA_PRINTER
    case SummaryImage => SUMMARY_IMAGE_PRINTER
    case SummaryAudio => SUMMARY_AUDIO_PRINTER
    case SummaryValue => SUMMARY_VALUE_PRINTER
    case Summary => SUMMARY_PRINTER
    case Histogram => HISTOGRAM_PRINTER
    case Event => EVENT_PRINTER
    case SourceMetadata => SOURCE_METADATA_PRINTER
    case LogMessage => LOG_MESSAGE_PRINTER
    case SessionLog => SESSION_LOG_PRINTER
    case TaggedRunMetadata => TAGGED_RUN_METADATA_PRINTER
    case WatchdogConfig => WATCHDOG_CONFIG_PRINTER
    case RequestedExitCode => REQUESTED_EXIT_CODE_PRINTER
    case WorkerHeartbeatRequest => WORKER_HEARTBEAT_REQUEST_PRINTER
    case WorkerHeartbeatResponse => WORKER_HEARTBEAT_RESPONSE_PRINTER
  }
}
