/** Parsers and printers as the generated code has them, following their own switches and statements, and
    the proof that the message descriptions say the same. */
module GeneratedCode {
  import opened Wire
  import Utf8
  import opened Schemas
  import opened Messages
  import opened Codec
  import opened Parsing
  import opened Printing
  import opened Repository
  import opened Switches
  import F = Floats
  import M = MasterLaw

  // ------------------------------------------------------------------ new messages

  /** What the constructor leaves in a member: nothing where presence is kept, zero otherwise. */
  function Initially(p: Put): seq<Value> {
    match p
    case IfNotEmpty(_) => [Data([])]
    case IfNotZero(_, _) => [Num(0)]
    case UnlessZero(_, _) => [Num(0)]
    case _ => []
  }

  function NewMessage(t: MessageType): Msg {
    var ps := Printer(t);
    Msg(seq(|ps|, k requires 0 <= k < |ps| => Slot(Initially(ps[k]))), [])
  }

  // -------------------------------------------------------------------- the parser

  /** Sets a member; the others of its union are cleared. */
  function SetMember(t: MessageType, m: Msg, slot: nat, vs: seq<Value>): Msg {
    m.(slots := seq(|m.slots|, j requires 0 <= j < |m.slots| =>
                      if j == slot then Slot(vs)
                      else if InUnion(t, slot) && InUnion(t, j) then Slot([]) else m.slots[j]))
  }

  function AddToMember(t: MessageType, m: Msg, slot: nat, vs: seq<Value>): Msg {
    SetMember(t, m, slot, At(m, slot) + vs)
  }

  /** The submessage that is there, or a new one. */
  function Mutable(target: MessageType, had: seq<Value>): Msg {
    if had != [] && had[0].Sub? then had[0].m else NewMessage(target)
  }

  function KeepUnknown(m: Msg, tag: nat, p: Payload): Msg {
    m.(unknown := m.unknown + [Record(tag / 8, p)])
  }

  /** One turn of the loop, after its tag was read: the message after it and the bytes left. */
  function Turn(t: MessageType, m: Msg, tag: nat, b: bytes): (r: Read<Msg>)
    ensures r.Ok? ==> Advances(b, r.rest)
    decreases |b|, 0
  {
    match CaseOf(t, tag)
    case HandleUnusual =>
      (match ReadPayload(tag, b)
       case Fail => Fail
       case Ok(p, rest) => Ok(KeepUnknown(m, tag, p), rest))
    case SetNumber(slot, kind) =>
      (match ReadOne(kind, b)
       case Fail => Fail
       case Ok(n, rest) => Ok(SetMember(t, m, slot, [Num(M.Unpacked(kind, n))]), rest))
    case SetEnum(slot, last) =>
      (match ReadVarint64(b)
       case Fail => Fail
       case Ok(n, rest) =>
         if n % TWO_TO_32 <= last then Ok(SetMember(t, m, slot, [Num(n % TWO_TO_32)]), rest)
         else Ok(KeepUnknown(m, tag, Scalar(n)), rest))
    case AddNumber(slot, kind) =>
      (match ReadOne(kind, b)
       case Fail => Fail
       case Ok(n, rest) => Ok(AddToMember(t, m, slot, [Num(M.Unpacked(kind, n))]), rest))
    case AddPacked(slot, kind) =>
      (match ReadDelimited(b)
       case Fail => Fail
       case Ok(d, rest) =>
         match Unpack(kind, d)
         case None => Fail
         case Some(vs) => Ok(AddToMember(t, m, slot, vs), rest))
    case SetString(slot, checked) =>
      (match ReadDelimited(b)
       case Fail => Fail
       case Ok(d, rest) => if checked && !Utf8.Valid(d) then Fail else Ok(SetMember(t, m, slot, [Data(d)]), rest))
    case AddString(slot, checked) =>
      (match ReadDelimited(b)
       case Fail => Fail
       case Ok(d, rest) => if checked && !Utf8.Valid(d) then Fail else Ok(AddToMember(t, m, slot, [Data(d)]), rest))
    case ParseMessage(slot, target) =>
      (match ReadDelimited(b)
       case Fail => Fail
       case Ok(d, rest) =>
         match Parsed(target, Mutable(target, At(m, slot)), d)
         case None => Fail
         case Some(sub) => Ok(SetMember(t, m, slot, [Sub(sub)]), rest))
    case AddMessage(slot, target) =>
      (match ReadDelimited(b)
       case Fail => Fail
       case Ok(d, rest) =>
         match Parsed(target, NewMessage(target), d)
         case None => Fail
         case Some(sub) => Ok(AddToMember(t, m, slot, [Sub(sub)]), rest))
  }

  /** `_InternalParse` of message type `t` on `m`. */
  function Parsed(t: MessageType, m: Msg, b: bytes): Option<Msg>
    decreases |b|, 1
  {
    if b == [] then Some(m)
    else match ReadTag(b)
      case Fail => None
      case Ok(tag, rest) =>
        match Turn(t, m, tag, rest)
        case Fail => None
        case Ok(m', rest') => Parsed(t, m', rest')
  }

  // ------------------------------------------------------------------- the printer

  /** A record with its tag: what the `Write...` and `InternalWriteMessage` functions write. */
  function Written(num: nat, form: Form, v: Value): bytes
    decreases v, 4
  {
    match v
    case Data(d) => if form.Str? then Varint(8 * num + 2) + (Varint(|d|) + d) else []
    case Num(n) =>
      if form == Numeral(Float) then Varint(8 * num + 5) + Fixed(n % TWO_TO_32, 4)
      else if form == Numeral(Double) then Varint(8 * num + 1) + Fixed(n % TWO_TO_64, 8)
      else if form.Numeral? then Varint(8 * num) + Varint(n % TWO_TO_64)
      else []
    case Sub(m) =>
      if form.Nested? then
        var s := Printed(form.target, m);
        Varint(8 * num + 2) + (Varint(|s|) + s)
      else []
  }

  function EachWritten(num: nat, form: Form, vs: seq<Value>): bytes
    decreases vs, 0
  {
    if vs == [] then [] else Written(num, form, vs[0]) + EachWritten(num, form, vs[1..])
  }

  /** `x <= 0 && x >= 0`, with the number the bits stand for. */
  predicate ComparesZero(kind: Kind, v: Value) {
    v.Num? && v.n >= 0 && (kind.Float? || kind.Double?) && F.NumberOf(kind, v.n) == F.Finite(0.0)
  }

  function Statement(p: Put, vs: seq<Value>): bytes
    decreases vs, 1
  {
    if vs == [] then [] else
    match p
    case IfSet(num, form) => Written(num, form, vs[0])
    case IfNotEmpty(num) => if vs[0] == Data([]) then [] else Written(num, Str, vs[0])
    case IfNotZero(num, kind) => if vs[0] == Num(0) then [] else Written(num, Numeral(kind), vs[0])
    case UnlessZero(num, kind) => if ComparesZero(kind, vs[0]) then [] else Written(num, Numeral(kind), vs[0])
    case Each(num, form) => EachWritten(num, form, vs)
    case Packed(num, kind) =>
      var data := Pack(kind, vs);
      Varint(8 * num + 2) + (Varint(|data|) + data)
  }

  function PrintedFrom(t: MessageType, m: Msg, k: nat): bytes
    decreases m, 1, |Printer(t)| - k
  {
    if k < |Printer(t)| && k < |m.slots| then Statement(Printer(t)[k], m.slots[k].vs) + PrintedFrom(t, m, k + 1) else []
  }

  /** `_InternalSerialize` of message type `t`. */
  function Printed(t: MessageType, m: Msg): bytes
    decreases m, 2
  {
    PrintedFrom(t, m, 0) + EncodeAll(m.unknown)
  }

  // ------------------------------------------------- the switches and the descriptions

  /** What the description of field `f`, in slot `i`, makes of a wire type. */
  function FieldCase(f: Field, i: nat, wireType: nat): Case {
    if Numeric(f.kind) then
      if wireType == ValueWireType(f.kind) then
        if f.kind.ClosedEnum? then SetEnum(i, f.kind.last)
        else if f.rule.Repeated? then AddNumber(i, f.kind) else SetNumber(i, f.kind)
      else if wireType == 2 && f.rule.Repeated? then AddPacked(i, f.kind)
      else HandleUnusual
    else if wireType != 2 then HandleUnusual
    else if f.kind.Message? then
      if f.rule.Repeated? then AddMessage(i, f.kind.target) else ParseMessage(i, f.kind.target)
    else
      if f.rule.Repeated? then AddString(i, f.kind == Text(true)) else SetString(i, f.kind == Text(true))
  }

  /** Case `c` is the one of the field with the number of `tag`; there is none for other numbers. */
  ghost predicate SameCase(fs: seq<Field>, c: Case, tag: nat, i: nat) {
    && (i < |fs| && fs[i].num == tag / 8 ==> c == FieldCase(fs[i], i, tag % 8))
    && (!c.HandleUnusual? ==> c.slot < |fs| && fs[c.slot].num == tag / 8)
  }

  lemma LowByte(tag: nat)
    ensures tag / 8 < 32 ==> tag % 256 == 8 * (tag / 8) + tag % 8
  {
  }

  lemma ValueCases(tag: nat, i: nat)
    ensures SameCase(IR_VALUE_FIELDS, IrValueCase(tag), tag, i)
  {
    LowByte(tag);
  }

  lemma TensorCases(tag: nat, i: nat)
    ensures SameCase(TENSOR_FIELDS, TensorCase(tag), tag, i)
  {
    LowByte(tag);
  }

  lemma AttributeCases(tag: nat, i: nat)
    ensures SameCase(IR_ATTRIBUTE_FIELDS, IrAttributeCase(tag), tag, i)
    ensures SameCase(IR_NAMED_VALUE_FIELDS, IrNamedValueCase(tag), tag, i)
    ensures SameCase(IR_TENSOR_SHAPE_DIMENSION_FIELDS, IrTensorShapeDimensionCase(tag), tag, i)
    ensures SameCase(IR_TENSOR_SHAPE_FIELDS, IrTensorShapeCase(tag), tag, i)
    ensures SameCase(IR_TYPE_TENSOR_FIELDS, IrTypeTensorCase(tag), tag, i)
  {
    LowByte(tag);
  }

  lemma TypeCases(tag: nat, i: nat)
    ensures SameCase(IR_TYPE_SEQUENCE_FIELDS, IrTypeSequenceCase(tag), tag, i)
    ensures SameCase(IR_TYPE_FIELDS, IrTypeCase(tag), tag, i)
    ensures SameCase(IR_PARAMETER_FIELDS, IrParameterCase(tag), tag, i)
    ensures SameCase(IR_OUTPUT_FIELDS, IrOutputCase(tag), tag, i)
    ensures SameCase(IR_INPUT_FIELDS, IrInputCase(tag), tag, i)
  {
    LowByte(tag);
  }

  lemma NodeCases(tag: nat, i: nat)
    ensures SameCase(IR_NODE_FIELDS, IrNodeCase(tag), tag, i)
    ensures SameCase(IR_MODEL_FIELDS, IrModelCase(tag), tag, i)
  {
    LowByte(tag);
  }

  lemma GraphCases(tag: nat, i: nat)
    ensures SameCase(IR_OPERATOR_FIELDS, IrOperatorCase(tag), tag, i)
    ensures SameCase(IR_OPERATOR_SET_FIELDS, IrOperatorSetCase(tag), tag, i)
    ensures SameCase(IR_GRAPH_FIELDS, IrGraphCase(tag), tag, i)
  {
    LowByte(tag);
  }

  lemma IrTensorCases(tag: nat, i: nat)
    ensures SameCase(IR_TENSOR_FIELDS, IrTensorCase(tag), tag, i)
  {
    LowByte(tag);
  }

  lemma ShapeCases(tag: nat, i: nat)
    ensures SameCase(VARIANT_TENSOR_DATA_FIELDS, VariantTensorDataCase(tag), tag, i)
    ensures SameCase(TENSOR_SHAPE_DIM_FIELDS, TensorShapeDimCase(tag), tag, i)
    ensures SameCase(TENSOR_SHAPE_FIELDS, TensorShapeCase(tag), tag, i)
    ensures SameCase(RESOURCE_HANDLE_DTYPE_AND_SHAPE_FIELDS, ResourceHandleDtypeAndShapeCase(tag), tag, i)
    ensures SameCase(RESOURCE_HANDLE_FIELDS, ResourceHandleCase(tag), tag, i)
  {
    LowByte(tag);
  }

  lemma SummaryPartCases(tag: nat, i: nat)
    ensures SameCase(SUMMARY_DESCRIPTION_FIELDS, SummaryDescriptionCase(tag), tag, i)
    ensures SameCase(SUMMARY_PLUGIN_DATA_FIELDS, SummaryPluginDataCase(tag), tag, i)
    ensures SameCase(SUMMARY_METADATA_FIELDS, SummaryMetadataCase(tag), tag, i)
    ensures SameCase(SUMMARY_IMAGE_FIELDS, SummaryImageCase(tag), tag, i)
    ensures SameCase(SUMMARY_AUDIO_FIELDS, SummaryAudioCase(tag), tag, i)
  {
    LowByte(tag);
  }

  lemma SummaryCases(tag: nat, i: nat)
    ensures SameCase(SUMMARY_VALUE_FIELDS, SummaryValueCase(tag), tag, i)
    ensures SameCase(SUMMARY_FIELDS, SummaryCase(tag), tag, i)
    ensures SameCase(HISTOGRAM_FIELDS, HistogramCase(tag), tag, i)
  {
    LowByte(tag);
  }

  lemma EventCases(tag: nat, i: nat)
    ensures SameCase(EVENT_FIELDS, EventCase(tag), tag, i)
    ensures SameCase(SOURCE_METADATA_FIELDS, SourceMetadataCase(tag), tag, i)
    ensures SameCase(LOG_MESSAGE_FIELDS, LogMessageCase(tag), tag, i)
    ensures SameCase(SESSION_LOG_FIELDS, SessionLogCase(tag), tag, i)
    ensures SameCase(TAGGED_RUN_METADATA_FIELDS, TaggedRunMetadataCase(tag), tag, i)
  {
    LowByte(tag);
  }

  lemma HeartbeatCases(tag: nat, i: nat)
    ensures SameCase(WATCHDOG_CONFIG_FIELDS, WatchdogConfigCase(tag), tag, i)
    ensures SameCase(REQUESTED_EXIT_CODE_FIELDS, RequestedExitCodeCase(tag), tag, i)
    ensures SameCase(WORKER_HEARTBEAT_REQUEST_FIELDS, WorkerHeartbeatRequestCase(tag), tag, i)
    ensures SameCase(WORKER_HEARTBEAT_RESPONSE_FIELDS, WorkerHeartbeatResponseCase(tag), tag, i)
  {
    LowByte(tag);
  }

  lemma IrCases(t: MessageType, tag: nat, i: nat)
    requires IsIr(t)
    ensures SameCase(Fields(t), CaseOf(t, tag), tag, i)
  {
    hide SameCase;
    ValueCases(tag, i);
    AttributeCases(tag, i);
    TypeCases(tag, i);
    NodeCases(tag, i);
    GraphCases(tag, i);
    IrTensorCases(tag, i);
  }

  lemma OtherCases(t: MessageType, tag: nat, i: nat)
    requires !IsIr(t)
    ensures SameCase(Fields(t), CaseOf(t, tag), tag, i)
  {
    hide SameCase;
    TensorCases(tag, i);
    ShapeCases(tag, i);
    SummaryPartCases(tag, i);
    SummaryCases(tag, i);
    EventCases(tag, i);
    HeartbeatCases(tag, i);
  }

  lemma AllCases(t: MessageType, tag: nat, i: nat)
    ensures SameCase(Fields(t), CaseOf(t, tag), tag, i)
  {
    hide SameCase, Fields, CaseOf;
    if IsIr(t) { IrCases(t, tag, i); } else { OtherCases(t, tag, i); }
  }

  function FormOf(k: Kind): Form {
    if k.Message? then Nested(k.target)
    else if k.Text? || k.Blob? then Str
    else if k.ClosedEnum? then Numeral(OpenEnum)
    else Numeral(k)
  }

  /** The statement the description of a field stands for. */
  function PutOf(f: Field): Put {
    match f.rule
    case Implicit =>
      if f.kind.Text? || f.kind.Blob? then IfNotEmpty(f.num)
      else if f.kind.Float? || f.kind.Double? then UnlessZero(f.num, f.kind)
      else IfNotZero(f.num, f.kind)
    case Repeated(packed) => if packed then Packed(f.num, f.kind) else Each(f.num, FormOf(f.kind))
    case _ => IfSet(f.num, FormOf(f.kind))
  }

  ghost predicate SameMember(t: MessageType, p: Put, f: Field, k: nat) {
    p == PutOf(f) && if InUnion(t, k) then f.rule == Oneof(0) else !f.rule.Oneof?
  }

  ghost predicate SameMembers(t: MessageType, ps: seq<Put>, fs: seq<Field>) {
    |ps| == |fs| && forall k :: 0 <= k < |fs| ==> SameMember(t, ps[k], fs[k], k)
  }

  lemma ValueMembers()
    ensures SameMembers(IrValue, IR_VALUE_PRINTER, IR_VALUE_FIELDS)
  {
    forall k: nat | k < |IR_VALUE_FIELDS|
      ensures SameMember(IrValue, IR_VALUE_PRINTER[k], IR_VALUE_FIELDS[k], k)
    {
      if k < 10 {}
    }
  }

  lemma TensorMembers()
    ensures SameMembers(Tensor, TENSOR_PRINTER, TENSOR_FIELDS)
  {
    forall k: nat | k < |TENSOR_FIELDS|
      ensures SameMember(Tensor, TENSOR_PRINTER[k], TENSOR_FIELDS[k], k)
    {
      if k < 10 {}
    }
  }

  lemma AttributeMembers()
    ensures SameMembers(IrAttribute, IR_ATTRIBUTE_PRINTER, IR_ATTRIBUTE_FIELDS)
    ensures SameMembers(IrNamedValue, IR_NAMED_VALUE_PRINTER, IR_NAMED_VALUE_FIELDS)
    ensures SameMembers(IrTensorShapeDimension, IR_TENSOR_SHAPE_DIMENSION_PRINTER, IR_TENSOR_SHAPE_DIMENSION_FIELDS)
    ensures SameMembers(IrTensorShape, IR_TENSOR_SHAPE_PRINTER, IR_TENSOR_SHAPE_FIELDS)
    ensures SameMembers(IrTypeTensor, IR_TYPE_TENSOR_PRINTER, IR_TYPE_TENSOR_FIELDS)
  {
  }

  lemma TypeMembers()
    ensures SameMembers(IrTypeSequence, IR_TYPE_SEQUENCE_PRINTER, IR_TYPE_SEQUENCE_FIELDS)
    ensures SameMembers(IrType, IR_TYPE_PRINTER, IR_TYPE_FIELDS)
    ensures SameMembers(IrParameter, IR_PARAMETER_PRINTER, IR_PARAMETER_FIELDS)
    ensures SameMembers(IrOutput, IR_OUTPUT_PRINTER, IR_OUTPUT_FIELDS)
    ensures SameMembers(IrInput, IR_INPUT_PRINTER, IR_INPUT_FIELDS)
  {
  }

  lemma NodeMembers()
    ensures SameMembers(IrNode, IR_NODE_PRINTER, IR_NODE_FIELDS)
    ensures SameMembers(IrModel, IR_MODEL_PRINTER, IR_MODEL_FIELDS)
  {
  }

  lemma GraphMembers()
    ensures SameMembers(IrOperator, IR_OPERATOR_PRINTER, IR_OPERATOR_FIELDS)
    ensures SameMembers(IrOperatorSet, IR_OPERATOR_SET_PRINTER, IR_OPERATOR_SET_FIELDS)
    ensures SameMembers(IrGraph, IR_GRAPH_PRINTER, IR_GRAPH_FIELDS)
  {
  }

  lemma IrTensorMembers()
    ensures SameMembers(IrTensor, IR_TENSOR_PRINTER, IR_TENSOR_FIELDS)
  {
  }

  lemma ShapeMembers()
    ensures SameMembers(VariantTensorData, VARIANT_TENSOR_DATA_PRINTER, VARIANT_TENSOR_DATA_FIELDS)
    ensures SameMembers(TensorShapeDim, TENSOR_SHAPE_DIM_PRINTER, TENSOR_SHAPE_DIM_FIELDS)
    ensures SameMembers(TensorShape, TENSOR_SHAPE_PRINTER, TENSOR_SHAPE_FIELDS)
    ensures SameMembers(ResourceHandleDtypeAndShape, RESOURCE_HANDLE_DTYPE_AND_SHAPE_PRINTER,
                        RESOURCE_HANDLE_DTYPE_AND_SHAPE_FIELDS)
    ensures SameMembers(ResourceHandle, RESOURCE_HANDLE_PRINTER, RESOURCE_HANDLE_FIELDS)
  {
  }

  lemma SummaryPartMembers()
    ensures SameMembers(SummaryDescription, SUMMARY_DESCRIPTION_PRINTER, SUMMARY_DESCRIPTION_FIELDS)
    ensures SameMembers(SummaryPluginData, SUMMARY_PLUGIN_DATA_PRINTER, SUMMARY_PLUGIN_DATA_FIELDS)
    ensures SameMembers(SummaryMetadata, SUMMARY_METADATA_PRINTER, SUMMARY_METADATA_FIELDS)
    ensures SameMembers(SummaryImage, SUMMARY_IMAGE_PRINTER, SUMMARY_IMAGE_FIELDS)
    ensures SameMembers(SummaryAudio, SUMMARY_AUDIO_PRINTER, SUMMARY_AUDIO_FIELDS)
  {
  }

  lemma SummaryMembers()
    ensures SameMembers(SummaryValue, SUMMARY_VALUE_PRINTER, SUMMARY_VALUE_FIELDS)
    ensures SameMembers(Summary, SUMMARY_PRINTER, SUMMARY_FIELDS)
    ensures SameMembers(Histogram, HISTOGRAM_PRINTER, HISTOGRAM_FIELDS)
  {
  }

  lemma EventMembers()
    ensures SameMembers(Event, EVENT_PRINTER, EVENT_FIELDS)
    ensures SameMembers(SourceMetadata, SOURCE_METADATA_PRINTER, SOURCE_METADATA_FIELDS)
    ensures SameMembers(LogMessage, LOG_MESSAGE_PRINTER, LOG_MESSAGE_FIELDS)
    ensures SameMembers(SessionLog, SESSION_LOG_PRINTER, SESSION_LOG_FIELDS)
    ensures SameMembers(TaggedRunMetadata, TAGGED_RUN_METADATA_PRINTER, TAGGED_RUN_METADATA_FIELDS)
  {
  }

  lemma HeartbeatMembers()
    ensures SameMembers(WatchdogConfig, WATCHDOG_CONFIG_PRINTER, WATCHDOG_CONFIG_FIELDS)
    ensures SameMembers(RequestedExitCode, REQUESTED_EXIT_CODE_PRINTER, REQUESTED_EXIT_CODE_FIELDS)
    ensures SameMembers(WorkerHeartbeatRequest, WORKER_HEARTBEAT_REQUEST_PRINTER, WORKER_HEARTBEAT_REQUEST_FIELDS)
    ensures SameMembers(WorkerHeartbeatResponse, WORKER_HEARTBEAT_RESPONSE_PRINTER, WORKER_HEARTBEAT_RESPONSE_FIELDS)
  {
  }

  lemma IrMembers(t: MessageType)
    requires IsIr(t)
    ensures SameMembers(t, Printer(t), Fields(t))
  {
    hide SameMembers;
    ValueMembers();
    AttributeMembers();
    TypeMembers();
    NodeMembers();
    GraphMembers();
    IrTensorMembers();
  }

  lemma OtherMembers(t: MessageType)
    requires !IsIr(t)
    ensures SameMembers(t, Printer(t), Fields(t))
  {
    hide SameMembers;
    TensorMembers();
    ShapeMembers();
    SummaryPartMembers();
    SummaryMembers();
    EventMembers();
    HeartbeatMembers();
  }

  lemma AllMembers(t: MessageType)
    ensures SameMembers(t, Printer(t), Fields(t))
  {
    hide SameMembers, Fields, Printer;
    if IsIr(t) { IrMembers(t); } else { OtherMembers(t); }
  }

  // ------------------------------------------------------- the parsers are the same

  lemma NewIsEmpty(t: MessageType)
    ensures NewMessage(t) == Empty(Repo(), t)
  {
    hide Printer, Fields;
    AllMembers(t);
    RepoIsWf();
    RepoFields(t);
    var fs := FieldsOf(Repo(), t);
    forall k | 0 <= k < |fs| ensures NewMessage(t).slots[k] == Empty(Repo(), t).slots[k] {
      assert SameMember(t, Printer(t)[k], fs[k], k) && WfField(fs[k]);
    }
    assert NewMessage(t).slots == Empty(Repo(), t).slots;
  }

  lemma UnionEnds(t: MessageType, j: nat)
    requires InUnion(t, j)
    ensures j < |Fields(t)|
  {
  }

  lemma SetIsStore(t: MessageType, m: Msg, slot: nat, vs: seq<Value>)
    requires slot < |Fields(t)|
    ensures SetMember(t, m, slot, vs) == Store(Fields(t), m, slot, vs)
  {
    hide Printer, Fields, InUnion;
    AllMembers(t);
    var fs := Fields(t);
    forall j: nat | j < |m.slots|
      ensures SetMember(t, m, slot, vs).slots[j] == Store(fs, m, slot, vs).slots[j]
    {
      assert SameMember(t, Printer(t)[slot], fs[slot], slot);
      if j < |fs| { assert SameMember(t, Printer(t)[j], fs[j], j); }
      if InUnion(t, j) { UnionEnds(t, j); }
    }
    assert SetMember(t, m, slot, vs).slots == Store(fs, m, slot, vs).slots;
  }

  /** Field `i` has the number of `tag`. */
  ghost predicate AtNumber(t: MessageType, tag: nat, i: nat, f: Field) {
    i < |Fields(t)| && Fields(t)[i] == f && f.num == tag / 8 && WfField(f)
  }

  /** The switch takes the case of the field that the description finds, or none. */
  lemma CaseIsFound(t: MessageType, tag: nat)
    ensures var fs := Fields(t);
      var i := Find(fs, tag / 8);
      if i < |fs| then CaseOf(t, tag) == FieldCase(fs[i], i, tag % 8) && AtNumber(t, tag, i, fs[i])
      else CaseOf(t, tag) == HandleUnusual
  {
    hide Fields, CaseOf, FieldCase;
    AllCases(t, tag, Find(Fields(t), tag / 8));
    RepoIsWf();
    RepoFields(t);
  }

  /** What the dispatch over the descriptions makes of the bytes after a tag. */
  function Described(t: MessageType, m: Msg, tag: nat, b: bytes): Read<Msg> {
    match ReadPayload(tag, b)
    case Fail => Fail
    case Ok(p, rest) =>
      match Apply(Repo(), t, m, Record(tag / 8, p))
      case None => Fail
      case Some(m') => Ok(m', rest)
  }

  lemma DescribedAt(t: MessageType, m: Msg, tag: nat, b: bytes, i: nat, f: Field)
    requires AtNumber(t, tag, i, f)
    ensures Described(t, m, tag, b)
         == match ReadPayload(tag, b)
            case Fail => Fail
            case Ok(p, rest) =>
              match CaseResult(Repo(), t, m, i, f, p)
              case None => Fail
              case Some(m') => Ok(m', rest)
    ensures forall vs :: SetMember(t, m, i, vs) == Store(FieldsOf(Repo(), t), m, i, vs)
  {
    hide Fields, Apply, CaseResult, SetMember, Store;
    RepoIsWf();
    RepoFields(t);
    forall vs ensures SetMember(t, m, i, vs) == Store(FieldsOf(Repo(), t), m, i, vs) { SetIsStore(t, m, i, vs); }
    match ReadPayload(tag, b)
    case Fail =>
    case Ok(p, _) => CaseIsTaken(Repo(), t, m, i, f, p);
  }

  lemma UnusualIsDescribed(t: MessageType, m: Msg, tag: nat, b: bytes)
    requires CaseOf(t, tag) == HandleUnusual
    ensures Turn(t, m, tag, b) == Described(t, m, tag, b)
  {
    hide Fields, CaseOf, Apply;
    CaseIsFound(t, tag);
    RepoFields(t);
    match ReadPayload(tag, b)
    case Fail =>
    case Ok(p, _) => UnrecognizedIsKept(Repo(), t, m, Record(tag / 8, p));
  }

  lemma NumberIsDescribed(t: MessageType, m: Msg, tag: nat, b: bytes, i: nat, f: Field)
    requires AtNumber(t, tag, i, f) && CaseOf(t, tag) == FieldCase(f, i, tag % 8)
    requires Numeric(f.kind) && !f.kind.ClosedEnum? && tag % 8 == ValueWireType(f.kind)
    ensures Turn(t, m, tag, b) == Described(t, m, tag, b)
  {
    hide Fields, CaseOf, Described, Decode, SetMember, Store;
    DescribedAt(t, m, tag, b, i, f);
    NumberIsRead(f.kind, tag, b);
    match ReadOne(f.kind, b)
    case Fail =>
    case Ok(n, _) => NumberIsDecoded(Repo(), f, At(m, i), n);
  }

  lemma EnumIsDescribed(t: MessageType, m: Msg, tag: nat, b: bytes, i: nat, f: Field)
    requires AtNumber(t, tag, i, f) && CaseOf(t, tag) == FieldCase(f, i, tag % 8)
    requires f.kind.ClosedEnum? && tag % 8 == 0
    ensures Turn(t, m, tag, b) == Described(t, m, tag, b)
  {
    hide Fields, CaseOf, Described, SetMember, Store;
    DescribedAt(t, m, tag, b, i, f);
    NumberIsRead(f.kind, tag, b);
    match ReadVarint64(b)
    case Fail =>
    case Ok(n, _) => ClosedEnumAcceptsIff(f.kind.last, n);
  }

  lemma PackedIsDescribed(t: MessageType, m: Msg, tag: nat, b: bytes, i: nat, f: Field)
    requires AtNumber(t, tag, i, f) && CaseOf(t, tag) == FieldCase(f, i, tag % 8)
    requires Numeric(f.kind) && f.rule.Repeated? && tag % 8 == 2
    ensures Turn(t, m, tag, b) == Described(t, m, tag, b)
  {
    hide Fields, CaseOf, Described, SetMember, Store, Unpack;
    DescribedAt(t, m, tag, b, i, f);
    DelimitedIsRead(tag, b);
  }

  lemma StringIsDescribed(t: MessageType, m: Msg, tag: nat, b: bytes, i: nat, f: Field)
    requires AtNumber(t, tag, i, f) && CaseOf(t, tag) == FieldCase(f, i, tag % 8)
    requires (f.kind.Text? || f.kind.Blob?) && tag % 8 == 2
    ensures Turn(t, m, tag, b) == Described(t, m, tag, b)
  {
    hide Fields, CaseOf, Described, SetMember, Store, Decode, Repo;
    DescribedAt(t, m, tag, b, i, f);
    DelimitedIsRead(tag, b);
    match ReadDelimited(b)
    case Fail =>
    case Ok(d, _) => DelimitedIsDecoded(Repo(), f, At(m, i), d);
  }

  lemma MutableIsBase(t: MessageType, had: seq<Value>)
    ensures Mutable(t, had) == Base(Repo(), t, had)
  {
    NewIsEmpty(t);
  }

  lemma {:induction false} SingularIsDescribed(t: MessageType, m: Msg, tag: nat, b: bytes, i: nat, f: Field)
    requires AtNumber(t, tag, i, f) && CaseOf(t, tag) == FieldCase(f, i, tag % 8)
    requires f.kind.Message? && !f.rule.Repeated? && tag % 8 == 2
    ensures Turn(t, m, tag, b) == Described(t, m, tag, b)
    decreases |b|, 0
  {
    hide Fields, CaseOf, Described, SetMember, Store, Decode, Mutable, Base, Repo, ParseInto, Parsed, ReadPayload;
    DescribedAt(t, m, tag, b, i, f);
    DelimitedIsRead(tag, b);
    var target := f.kind.target;
    MutableIsBase(target, At(m, i));
    match ReadDelimited(b)
    case Fail =>
    case Ok(d, _) =>
      DelimitedIsDecoded(Repo(), f, At(m, i), d);
      ParserIsDescribed(target, Base(Repo(), target, At(m, i)), d);
  }

  lemma {:induction false} AddedIsDescribed(t: MessageType, m: Msg, tag: nat, b: bytes, i: nat, f: Field)
    requires AtNumber(t, tag, i, f) && CaseOf(t, tag) == FieldCase(f, i, tag % 8)
    requires f.kind.Message? && f.rule.Repeated? && tag % 8 == 2
    ensures Turn(t, m, tag, b) == Described(t, m, tag, b)
    decreases |b|, 0
  {
    hide Fields, CaseOf, Described, SetMember, Store, Decode, NewMessage, Empty, Repo, ParseInto, Parsed;
    DescribedAt(t, m, tag, b, i, f);
    DelimitedIsRead(tag, b);
    var target := f.kind.target;
    NewIsEmpty(target);
    match ReadDelimited(b)
    case Fail =>
    case Ok(d, _) =>
      DelimitedIsDecoded(Repo(), f, At(m, i), d);
      ParserIsDescribed(target, Base(Repo(), target, []), d);
  }

  lemma {:induction false} TurnIsDescribed(t: MessageType, m: Msg, tag: nat, b: bytes)
    ensures Turn(t, m, tag, b) == Described(t, m, tag, b)
    decreases |b|, 1
  {
    hide Fields, CaseOf, Turn, Described;
    CaseIsFound(t, tag);
    if CaseOf(t, tag) == HandleUnusual {
      UnusualIsDescribed(t, m, tag, b);
    } else {
      var i := Find(Fields(t), tag / 8);
      var f := Fields(t)[i];
      if f.kind.Message? && f.rule.Repeated? {
        AddedIsDescribed(t, m, tag, b, i, f);
      } else if f.kind.Message? {
        SingularIsDescribed(t, m, tag, b, i, f);
      } else if !Numeric(f.kind) {
        StringIsDescribed(t, m, tag, b, i, f);
      } else if tag % 8 != ValueWireType(f.kind) {
        PackedIsDescribed(t, m, tag, b, i, f);
      } else if f.kind.ClosedEnum? {
        EnumIsDescribed(t, m, tag, b, i, f);
      } else {
        NumberIsDescribed(t, m, tag, b, i, f);
      }
    }
  }

  lemma DescribedStep(t: MessageType, m: Msg, b: bytes)
    requires b != []
    ensures ParseInto(Repo(), t, m, b)
         == match ReadTag(b)
            case Fail => None
            case Ok(tag, rest) =>
              match Described(t, m, tag, rest)
              case Fail => None
              case Ok(m', rest') => ParseInto(Repo(), t, m', rest')
  {
    hide Apply, ReadPayload, ReadTag, Repo;
  }

  /** The parser that follows its switch does to every message and every input what the description says. */
  lemma {:induction false} ParserIsDescribed(t: MessageType, m: Msg, b: bytes)
    ensures Parsed(t, m, b) == ParseInto(Repo(), t, m, b)
    decreases |b|, 2
  {
    hide Turn, Described, ReadTag, Repo;
    if b != [] {
      DescribedStep(t, m, b);
      match ReadTag(b)
      case Fail =>
      case Ok(tag, rest) =>
        TurnIsDescribed(t, m, tag, rest);
        match Turn(t, m, tag, rest)
        case Fail =>
        case Ok(m', rest') => ParserIsDescribed(t, m', rest');
    }
  }

  // ------------------------------------------------------ the printers are the same

  /** One value: tag and payload are those of its record. */
  lemma {:induction false} WrittenIsRecord(f: Field, v: Value)
    requires WfField(f) && WfValue(Repo(), f.kind, v)
    ensures Written(f.num, FormOf(f.kind), v) == Encode(Record(f.num, PayloadOf(Repo(), f.kind, v)))
    decreases v, 0
  {
    hide Varint, Fixed, Repo;
    match v
    case Num(n) =>
    case Data(d) =>
    case Sub(m) => PrinterIsDescribed(f.kind.target, m);
  }

  lemma {:induction false} EachIsRecords(f: Field, vs: seq<Value>)
    requires WfField(f) && forall v <- vs :: WfValue(Repo(), f.kind, v)
    ensures EachWritten(f.num, FormOf(f.kind), vs) == EncodeAll(ElementRecords(Repo(), f, vs))
    decreases vs, 1
  {
    hide Encode, Repo, Written, PayloadOf;
    if vs != [] {
      WrittenIsRecord(f, vs[0]);
      EachIsRecords(f, vs[1..]);
      var now, later := [Record(f.num, PayloadOf(Repo(), f.kind, vs[0]))], ElementRecords(Repo(), f, vs[1..]);
      assert (now + later)[0] == now[0] && (now + later)[1..] == later;
    }
  }

  lemma ZeroIsCompared(f: Field, v: Value)
    requires WfField(f) && f.rule.Implicit? && WfValue(Repo(), f.kind, v)
    ensures (f.kind.Float? || f.kind.Double?) ==> (ComparesZero(f.kind, v) <==> IsZero(f.kind, v))
    ensures !f.kind.Float? && !f.kind.Double? ==>
              (IsZero(f.kind, v) <==> v == if Numeric(f.kind) then Num(0) else Data([]))
  {
    hide F.NumberOf;
    if f.kind.Float? || f.kind.Double? { F.ZeroTestIsComparison(f.kind, v.n); }
  }

  /** One statement: what is written are the records of its field. */
  lemma {:induction false} StatementIsRecords(f: Field, vs: seq<Value>)
    requires WfField(f) && WfSlot(Repo(), f, vs)
    ensures Statement(PutOf(f), vs) == FieldBytes(Repo(), f, vs)
    decreases vs, 2
  {
    hide Encode, Repo, Written, PayloadOf, IsZero, ComparesZero;
    if vs != [] {
      assert WfValue(Repo(), f.kind, vs[0]);
      EachIsRecords(f, vs);
      if !f.rule.Repeated? {
        assert vs == [vs[0]];
        SingleStatement(f, vs[0]);
      } else if f.rule.packed {
        PackedStatement(f, vs);
      }
    }
  }

  lemma {:induction false} SingleStatement(f: Field, v: Value)
    requires WfField(f) && WfValue(Repo(), f.kind, v) && !f.rule.Repeated?
    requires EachWritten(f.num, FormOf(f.kind), [v]) == EncodeAll(ElementRecords(Repo(), f, [v]))
    ensures Statement(PutOf(f), [v]) == FieldBytes(Repo(), f, [v])
  {
    hide Encode, Repo, PayloadOf, ComparesZero, ElementRecords;
    var form := FormOf(f.kind);
    assert EachWritten(f.num, form, [v]) == Written(f.num, form, v) by {
      assert [v][1..] == [];
      assert EachWritten(f.num, form, [v]) == Written(f.num, form, v) + EachWritten(f.num, form, [v][1..]);
    }
    if f.rule.Implicit? { ZeroIsCompared(f, v); }
  }

  lemma PackedStatement(f: Field, vs: seq<Value>)
    requires WfField(f) && f.rule == Repeated(true) && vs != []
    ensures Statement(PutOf(f), vs) == FieldBytes(Repo(), f, vs)
  {
    hide Varint, Pack;
    var r := Record(f.num, Delimited(Pack(f.kind, vs)));
    OneRecordBytes(r);
  }

  lemma {:induction false} PrintedFromIsTail(t: MessageType, m: Msg, k: nat)
    requires Wf(Repo(), t, m) && k <= |Fields(t)|
    ensures PrintedFrom(t, m, k) + EncodeAll(m.unknown) == Tail(Repo(), t, m, k)
    decreases m, 1, |Fields(t)| - k
  {
    hide Fields, Printer, Repo, Statement, FieldBytes, PutOf;
    AllMembers(t);
    RepoIsWf();
    RepoFields(t);
    if k < |Fields(t)| {
      var f, vs := Fields(t)[k], m.slots[k].vs;
      assert SameMember(t, Printer(t)[k], f, k) && WfSlot(Repo(), f, vs);
      StatementIsRecords(f, vs);
      TailStep(Repo(), t, m, k);
      PrintedFromIsTail(t, m, k + 1);
      ConcatIsAssociative(Statement(PutOf(f), vs), PrintedFrom(t, m, k + 1), EncodeAll(m.unknown));
    }
  }

  /** The printer that follows its statements writes what the description says. */
  lemma {:induction false} PrinterIsDescribed(t: MessageType, m: Msg)
    requires Wf(Repo(), t, m)
    ensures Printed(t, m) == Serialize(Repo(), t, m)
    decreases m, 2
  {
    hide Repo, Wf;
    PrintedFromIsTail(t, m, 0);
    PrintStart(Repo(), t, m);
  }
}
