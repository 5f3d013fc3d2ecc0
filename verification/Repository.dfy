/** The message descriptions of the repository, transcribed from the dispatch switches of the
    generated parsers, and the general theorems stated for them. */
module Repository {
  import opened Wire
  import opened Schemas
  import opened Messages
  import opened Codec
  import opened MasterLaw
  import opened NormalForm
  import opened RoundTrip
  import opened Streams
  import opened MergeAlgebra

  /** Last valid values of DataType and InputProto.EdgeType. */
  const DATA_TYPE := ClosedEnum(49)
  const EDGE_TYPE := ClosedEnum(1)

  function Opt(num: nat, k: Kind): Field { Field(num, k, Optional) }
  function Imp(num: nat, k: Kind): Field { Field(num, k, Implicit) }
  function Rep(num: nat, k: Kind): Field { Field(num, k, Repeated(false)) }
  function Packs(num: nat, k: Kind): Field { Field(num, k, Repeated(true)) }
  function One(num: nat, k: Kind): Field { Field(num, k, Oneof(0)) }

  /** proto2 strings are taken as they come; proto3 strings are checked. */
  const STRING2 := Text(false)
  const STRING3 := Text(true)

  // mindspore_anf_ir.pb.cc

  const IR_VALUE_FIELDS: seq<Field> :=
    [Opt(1, DATA_TYPE), Opt(2, Bool), Opt(3, Int64), Opt(4, UInt64), Opt(5, Float), Opt(6, Double),
     Opt(7, STRING2), Opt(8, Message(IrTensor)), Opt(9, Message(IrGraph)), Rep(10, Bool), Rep(11, Int64),
     Rep(12, UInt64), Rep(13, Float), Rep(14, Double), Rep(15, STRING2), Rep(16, Message(IrTensor)),
     Rep(17, Message(IrGraph)), Rep(18, Message(IrValue)), Rep(19, Message(IrNamedValue)),
     Opt(20, Message(IrType))]
  const IR_ATTRIBUTE_FIELDS: seq<Field> := [Opt(1, STRING2), Opt(2, Message(IrValue))]
  const IR_NAMED_VALUE_FIELDS: seq<Field> := [Opt(1, STRING2), Opt(2, Message(IrValue))]
  const IR_TENSOR_SHAPE_DIMENSION_FIELDS: seq<Field> := [Opt(1, Int64), Opt(2, STRING2)]
  const IR_TENSOR_SHAPE_FIELDS: seq<Field> := [Rep(1, Message(IrTensorShapeDimension))]
  const IR_TYPE_TENSOR_FIELDS: seq<Field> := [Opt(1, DATA_TYPE), Opt(2, Message(IrTensorShape))]
  const IR_TYPE_SEQUENCE_FIELDS: seq<Field> := [Rep(1, Message(IrType))]
  const IR_TYPE_FIELDS: seq<Field> :=
    [Opt(1, DATA_TYPE), One(2, Message(IrTypeTensor)), One(3, Message(IrTypeSequence))]
  const IR_PARAMETER_FIELDS: seq<Field> := [Opt(1, STRING2), Opt(2, Message(IrType)), Opt(3, Message(IrValue))]
  const IR_OUTPUT_FIELDS: seq<Field> := [Opt(1, STRING2), Opt(2, Message(IrType))]
  const IR_INPUT_FIELDS: seq<Field> := [Opt(1, STRING2), Opt(2, EDGE_TYPE)]
  const IR_NODE_FIELDS: seq<Field> :=
    [Rep(1, Message(IrInput)), Opt(2, STRING2), Opt(3, STRING2), Opt(4, STRING2), Rep(5, Message(IrAttribute)),
     Opt(6, Message(IrType)), Opt(7, UInt64), Opt(8, STRING2), Opt(10, STRING2)]
  const IR_MODEL_FIELDS: seq<Field> :=
    [Opt(1, Int64), Opt(2, STRING2), Opt(3, Int64), Opt(4, Message(IrGraph)), Opt(5, Message(IrOperatorSet))]
  const IR_OPERATOR_FIELDS: seq<Field> := [Opt(1, STRING2), Opt(2, Blob), Opt(3, Blob)]
  const IR_OPERATOR_SET_FIELDS: seq<Field> := [Rep(1, Message(IrOperator)), Opt(2, STRING2)]
  const IR_GRAPH_FIELDS: seq<Field> :=
    [Rep(1, Message(IrNode)), Opt(2, STRING2), Rep(3, Message(IrParameter)), Rep(4, Message(IrOutput)),
     Rep(5, Message(IrNamedValue))]
  const IR_TENSOR_FIELDS: seq<Field> :=
    [Rep(1, Int64), Opt(2, DATA_TYPE), Packs(3, Float), Packs(4, Int32), Packs(5, Int64), Packs(6, Double),
     Packs(7, UInt64), Opt(8, Blob)]

  // tensor.pb.cc, tensor_shape.pb.cc, resource_handle.pb.cc

  const TENSOR_FIELDS: seq<Field> :=
    [Imp(1, OpenEnum), Opt(2, Message(TensorShape)), Imp(3, Int32), Imp(4, Blob), Packs(5, Float),
     Packs(6, Double), Packs(7, Int32), Rep(8, Blob), Packs(9, Float), Packs(10, Int64), Packs(11, Bool),
     Packs(12, Double), Packs(13, Int32), Rep(14, Message(ResourceHandle)), Rep(15, Message(VariantTensorData)),
     Packs(16, UInt32), Packs(17, UInt64), Imp(18, Blob)]
  const VARIANT_TENSOR_DATA_FIELDS: seq<Field> := [Imp(1, STRING3), Imp(2, Blob), Rep(3, Message(Tensor))]
  const TENSOR_SHAPE_DIM_FIELDS: seq<Field> := [Imp(1, Int64), Imp(2, STRING3)]
  const TENSOR_SHAPE_FIELDS: seq<Field> := [Rep(2, Message(TensorShapeDim)), Imp(3, Bool)]
  const RESOURCE_HANDLE_DTYPE_AND_SHAPE_FIELDS: seq<Field> := [Imp(1, OpenEnum), Opt(2, Message(TensorShape))]
  const RESOURCE_HANDLE_FIELDS: seq<Field> :=
    [Imp(1, STRING3), Imp(2, STRING3), Imp(3, STRING3), Imp(4, UInt64), Imp(5, STRING3),
     Rep(6, Message(ResourceHandleDtypeAndShape))]

  // summary.pb.cc, histogram.pb.cc

  const SUMMARY_DESCRIPTION_FIELDS: seq<Field> := [Imp(1, STRING3)]
  const SUMMARY_PLUGIN_DATA_FIELDS: seq<Field> := [Imp(1, STRING3), Imp(2, Blob)]
  const SUMMARY_METADATA_FIELDS: seq<Field> :=
    [Opt(1, Message(SummaryPluginData)), Imp(2, STRING3), Imp(3, STRING3), Imp(4, OpenEnum)]
  const SUMMARY_IMAGE_FIELDS: seq<Field> := [Imp(1, Int32), Imp(2, Int32), Imp(3, Int32), Imp(4, Blob)]
  const SUMMARY_AUDIO_FIELDS: seq<Field> :=
    [Imp(1, Float), Imp(2, Int64), Imp(3, Int64), Imp(4, Blob), Imp(5, STRING3)]
  const SUMMARY_VALUE_FIELDS: seq<Field> :=
    [Imp(1, STRING3), One(2, Float), One(3, Blob), One(4, Message(SummaryImage)), One(5, Message(Histogram)),
     One(6, Message(SummaryAudio)), Imp(7, STRING3), One(8, Message(Tensor)), Opt(9, Message(SummaryMetadata))]
  const SUMMARY_FIELDS: seq<Field> := [Rep(1, Message(SummaryValue))]
  const HISTOGRAM_FIELDS: seq<Field> :=
    [Imp(1, Double), Imp(2, Double), Imp(3, Double), Imp(4, Double), Imp(5, Double), Packs(6, Double),
     Packs(7, Double)]

  // event.pb.cc

  const EVENT_FIELDS: seq<Field> :=
    [Imp(1, Double), Imp(2, Int64), One(3, STRING3), One(4, Blob), One(5, Message(Summary)),
     One(6, Message(LogMessage)), One(7, Message(SessionLog)), One(8, Message(TaggedRunMetadata)), One(9, Blob),
     Opt(10, Message(SourceMetadata))]
  const SOURCE_METADATA_FIELDS: seq<Field> := [Imp(1, STRING3)]
  const LOG_MESSAGE_FIELDS: seq<Field> := [Imp(1, OpenEnum), Imp(2, STRING3)]
  const SESSION_LOG_FIELDS: seq<Field> := [Imp(1, OpenEnum), Imp(2, STRING3), Imp(3, STRING3)]
  const TAGGED_RUN_METADATA_FIELDS: seq<Field> := [Imp(1, STRING3), Imp(2, Blob)]
  const WATCHDOG_CONFIG_FIELDS: seq<Field> := [Imp(1, Int64)]
  const REQUESTED_EXIT_CODE_FIELDS: seq<Field> := [Imp(1, Int32)]
  const WORKER_HEARTBEAT_REQUEST_FIELDS: seq<Field> :=
    [Imp(1, OpenEnum), Opt(2, Message(WatchdogConfig)), Opt(3, Message(RequestedExitCode))]
  const WORKER_HEARTBEAT_RESPONSE_FIELDS: seq<Field> := [Imp(1, OpenEnum), Rep(2, Message(Event)), Imp(3, STRING3)]

  /** The fields of each message type, in field-number order. */
  function Fields(t: MessageType): seq<Field> {
    match t
    case IrValue => IR_VALUE_FIELDS
    case IrAttribute => IR_ATTRIBUTE_FIELDS
    case IrNamedValue => IR_NAMED_VALUE_FIELDS
    case IrTensorShapeDimension => IR_TENSOR_SHAPE_DIMENSION_FIELDS
    case IrTensorShape => IR_TENSOR_SHAPE_FIELDS
    case IrTypeTensor => IR_TYPE_TENSOR_FIELDS
    case IrTypeSequence => IR_TYPE_SEQUENCE_FIELDS
    case IrType => IR_TYPE_FIELDS
    case IrParameter => IR_PARAMETER_FIELDS
    case IrOutput => IR_OUTPUT_FIELDS
    case IrInput => IR_INPUT_FIELDS
    case IrNode => IR_NODE_FIELDS
    case IrModel => IR_MODEL_FIELDS
    case IrOperator => IR_OPERATOR_FIELDS
    case IrOperatorSet => IR_OPERATOR_SET_FIELDS
    case IrGraph => IR_GRAPH_FIELDS
    case IrTensor => IR_TENSOR_FIELDS
    case Tensor => TENSOR_FIELDS
    case VariantTensorData => VARIANT_TENSOR_DATA_FIELDS
    case TensorShapeDim => TENSOR_SHAPE_DIM_FIELDS
    case TensorShape => TENSOR_SHAPE_FIELDS
    case ResourceHandleDtypeAndShape => RESOURCE_HANDLE_DTYPE_AND_SHAPE_FIELDS
    case ResourceHandle => RESOURCE_HANDLE_FIELDS
    case SummaryDescription => SUMMARY_DESCRIPTION_FIELDS
    case SummaryPluginData => SUMMARY_PLUGIN_DATA_FIELDS
    case SummaryMetadata => SUMMARY_METADATA_FIELDS
    case SummaryImage => SUMMARY_IMAGE_FIELDS
    case SummaryAudio => SUMMARY_AUDIO_FIELDS
    case SummaryValue => SUMMARY_VALUE_FIELDS
    case Summary => SUMMARY_FIELDS
    case Histogram => HISTOGRAM_FIELDS
    case Event => EVENT_FIELDS
    case SourceMetadata => SOURCE_METADATA_FIELDS
    case LogMessage => LOG_MESSAGE_FIELDS
    case SessionLog => SESSION_LOG_FIELDS
    case TaggedRunMetadata => TAGGED_RUN_METADATA_FIELDS
    case WatchdogConfig => WATCHDOG_CONFIG_FIELDS
    case RequestedExitCode => REQUESTED_EXIT_CODE_FIELDS
    case WorkerHeartbeatRequest => WORKER_HEARTBEAT_REQUEST_FIELDS
    case WorkerHeartbeatResponse => WORKER_HEARTBEAT_RESPONSE_FIELDS
  }

  /** The messages of mindspore_anf_ir.proto. */
  predicate IsIr(t: MessageType) {
    match t
    case IrValue | IrAttribute | IrNamedValue | IrTensorShape | IrTensorShapeDimension | IrType | IrTypeTensor
       | IrTypeSequence | IrParameter | IrOutput | IrInput | IrNode | IrModel | IrOperator | IrOperatorSet | IrGraph
       | IrTensor => true
    case _ => false
  }

  /** The messages of tensor.proto and of the two files it imports. */
  predicate IsTensor(t: MessageType) {
    match t
    case Tensor | VariantTensorData | TensorShape | TensorShapeDim | ResourceHandle | ResourceHandleDtypeAndShape => true
    case _ => false
  }

  function Repo(): Schema {
    map t: MessageType | true :: Fields(t)
  }

  lemma RepoFields(t: MessageType)
    ensures FieldsOf(Repo(), t) == Fields(t)
  {
  }

  ghost predicate WfFields(fs: seq<Field>) {
    forall i :: 0 <= i < |fs| ==> WfFieldAt(fs, i)
  }

  ghost predicate WfFieldAt(fs: seq<Field>, i: nat)
    requires i < |fs|
  {
    WfField(fs[i]) && (i > 0 ==> fs[i - 1].num < fs[i].num)
  }

  lemma {:induction false} StepwiseAscending(fs: seq<Field>)
    requires WfFields(fs)
    ensures Ascending(fs)
    decreases |fs|
  {
    if fs != [] {
      var n := |fs| - 1;
      forall i: nat | i < n ensures WfFieldAt(fs[..n], i) { assert WfFieldAt(fs, i); }
      StepwiseAscending(fs[..n]);
      assert WfFieldAt(fs, n);
      forall i | 0 <= i < n ensures fs[i].num < fs[n].num {
        assert fs[i] == fs[..n][i] && fs[n - 1] == fs[..n][n - 1];
      }
      forall i, j | 0 <= i < j < |fs| ensures fs[i].num < fs[j].num {
        if j < n { assert fs[i] == fs[..n][i] && fs[j] == fs[..n][j]; }
      }
    }
  }

  lemma IrFieldsAreWf()
    ensures WfFields(IR_ATTRIBUTE_FIELDS)
    ensures WfFields(IR_NAMED_VALUE_FIELDS)
    ensures WfFields(IR_TENSOR_SHAPE_DIMENSION_FIELDS)
    ensures WfFields(IR_TENSOR_SHAPE_FIELDS)
    ensures WfFields(IR_TYPE_TENSOR_FIELDS)
    ensures WfFields(IR_TYPE_SEQUENCE_FIELDS)
    ensures WfFields(IR_TYPE_FIELDS)
    ensures WfFields(IR_PARAMETER_FIELDS)
    ensures WfFields(IR_OUTPUT_FIELDS)
    ensures WfFields(IR_INPUT_FIELDS)
    ensures WfFields(IR_NODE_FIELDS)
    ensures WfFields(IR_MODEL_FIELDS)
    ensures WfFields(IR_OPERATOR_FIELDS)
    ensures WfFields(IR_OPERATOR_SET_FIELDS)
    ensures WfFields(IR_GRAPH_FIELDS)
    ensures WfFields(IR_TENSOR_FIELDS)
  {
  }

  lemma ValueAndTensorFieldsAreWf()
    ensures WfFields(IR_VALUE_FIELDS)
    ensures WfFields(TENSOR_FIELDS)
  {
  }

  lemma TensorFieldsAreWf()
    ensures WfFields(VARIANT_TENSOR_DATA_FIELDS)
    ensures WfFields(TENSOR_SHAPE_DIM_FIELDS)
    ensures WfFields(TENSOR_SHAPE_FIELDS)
    ensures WfFields(RESOURCE_HANDLE_DTYPE_AND_SHAPE_FIELDS)
    ensures WfFields(RESOURCE_HANDLE_FIELDS)
  {
  }

  lemma SummaryFieldsAreWf()
    ensures WfFields(SUMMARY_DESCRIPTION_FIELDS)
    ensures WfFields(SUMMARY_PLUGIN_DATA_FIELDS)
    ensures WfFields(SUMMARY_METADATA_FIELDS)
    ensures WfFields(SUMMARY_IMAGE_FIELDS)
    ensures WfFields(SUMMARY_AUDIO_FIELDS)
    ensures WfFields(SUMMARY_VALUE_FIELDS)
    ensures WfFields(SUMMARY_FIELDS)
    ensures WfFields(HISTOGRAM_FIELDS)
  {
  }

  lemma EventFieldsAreWf()
    ensures WfFields(EVENT_FIELDS)
    ensures WfFields(SOURCE_METADATA_FIELDS)
    ensures WfFields(LOG_MESSAGE_FIELDS)
    ensures WfFields(SESSION_LOG_FIELDS)
    ensures WfFields(TAGGED_RUN_METADATA_FIELDS)
    ensures WfFields(WATCHDOG_CONFIG_FIELDS)
    ensures WfFields(REQUESTED_EXIT_CODE_FIELDS)
    ensures WfFields(WORKER_HEARTBEAT_REQUEST_FIELDS)
    ensures WfFields(WORKER_HEARTBEAT_RESPONSE_FIELDS)
  {
  }

  lemma FieldsAreWf(t: MessageType)
    ensures WfFields(Fields(t))
  {
    IrFieldsAreWf();
    ValueAndTensorFieldsAreWf();
    TensorFieldsAreWf();
    SummaryFieldsAreWf();
    EventFieldsAreWf();
  }

  lemma TypeIsWf(fs: seq<Field>)
    requires WfFields(fs)
    ensures Ascending(fs) && forall i :: 0 <= i < |fs| ==> WfField(fs[i])
  {
    StepwiseAscending(fs);
    forall i: nat | i < |fs| ensures WfField(fs[i]) { assert WfFieldAt(fs, i); }
  }

  lemma RepoIsWf()
    ensures WfSchema(Repo())
  {
    forall t: MessageType
      ensures Ascending(Fields(t)) && forall i :: 0 <= i < |Fields(t)| ==> WfField(Fields(t)[i])
    {
      FieldsAreWf(t);
      TypeIsWf(Fields(t));
    }
  }
}
