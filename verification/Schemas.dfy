/** Message descriptions: what each generated `switch (tag >> 3)` knows about its fields. */
module Schemas {
  import opened Wire

  /** The message types of the three generated families. */
  datatype MessageType =
    // mindspore_anf_ir.proto
    | IrValue | IrAttribute | IrNamedValue | IrTensorShape | IrTensorShapeDimension
    | IrType | IrTypeTensor | IrTypeSequence | IrParameter | IrOutput | IrInput | IrNode
    | IrModel | IrOperator | IrOperatorSet | IrGraph | IrTensor
    // tensor.proto with its imports
    | Tensor | VariantTensorData | TensorShape | TensorShapeDim
    | ResourceHandle | ResourceHandleDtypeAndShape
    // summary.proto and histogram.proto
    | SummaryDescription | SummaryMetadata | SummaryPluginData | SummaryImage | SummaryAudio
    | SummaryValue | Summary | Histogram
    // event.proto
    | Event | SourceMetadata | LogMessage | SessionLog | TaggedRunMetadata
    | WatchdogConfig | RequestedExitCode | WorkerHeartbeatRequest | WorkerHeartbeatResponse

  datatype Kind =
    | Int32 | Int64 | UInt32 | UInt64 | Bool
    | OpenEnum                 // proto3: any 32-bit value is kept
    | ClosedEnum(last: int)    // proto2: only 0..last are kept in the field
    | Float | Double           // bit patterns
    | Text(checked: bool)      // `checked`: the parser refuses malformed UTF-8
    | Blob
    | Message(target: MessageType)

  datatype Rule =
    | Optional                 // explicit presence: a has-bit or a pointer
    | Implicit                 // proto3 scalar: always there, printed when not zero
    | Repeated(packed: bool)   // `packed`: printed as one record
    | Oneof(group: nat)

  datatype Field = Field(num: nat, kind: Kind, rule: Rule)

  type Schema = map<MessageType, seq<Field>>

  function FieldsOf(S: Schema, t: MessageType): seq<Field> {
    if t in S then S[t] else []
  }

  predicate Numeric(k: Kind) {
    !k.Text? && !k.Blob? && !k.Message?
  }

  predicate WfField(f: Field) {
    && 1 <= f.num <= MAX_FIELD_NUMBER
    && (f.kind.ClosedEnum? ==> 0 <= f.kind.last < TWO_TO_31)
    && (f.rule.Implicit? ==> !f.kind.Message? && !f.kind.ClosedEnum?)
    && (f.rule.Repeated? ==> !f.kind.ClosedEnum?)
    && (f.rule == Repeated(true) ==> Numeric(f.kind))
  }

  predicate Ascending(fs: seq<Field>) {
    forall i, j :: 0 <= i < j < |fs| ==> fs[i].num < fs[j].num
  }

  ghost predicate WfSchema(S: Schema) {
    forall t <- S :: Ascending(S[t]) && forall i :: 0 <= i < |S[t]| ==> WfField(S[t][i])
  }

  /** The case the dispatch on `num` selects; |fs| is the default case. */
  function Find(fs: seq<Field>, num: nat): (i: nat)
    ensures i <= |fs|
    ensures i < |fs| ==> fs[i].num == num
    ensures forall j :: 0 <= j < i ==> fs[j].num != num
  {
    if fs == [] || fs[0].num == num then 0
    else
      var i := Find(fs[1..], num);
      assert forall j :: 1 <= j < i + 1 ==> fs[j] == fs[1..][j - 1];
      i + 1
  }

  lemma FindAt(fs: seq<Field>, i: nat)
    requires Ascending(fs) && i < |fs|
    ensures Find(fs, fs[i].num) == i
  {
    var j := Find(fs, fs[i].num);
    assert j <= i;
  }

  /** Two different members of the same oneof. */
  predicate Siblings(fs: seq<Field>, i: nat, j: nat) {
    && i < |fs| && j < |fs| && i != j
    && fs[i].rule.Oneof? && fs[i].rule == fs[j].rule
  }

  // ------------------------------------------------------- numeric conversions

  function Signed(v: nat, modulus: nat): int
    requires 0 < modulus
  {
    var w := v % modulus;
    if w < modulus / 2 then w else w - modulus
  }

  /** The field value a 64-bit varint is narrowed to. */
  function FromWire(k: Kind, v: nat): int {
    match k
    case Bool => if v == 0 then 0 else 1
    case UInt32 => v % TWO_TO_32
    case UInt64 => v % TWO_TO_64
    case Int64 => Signed(v, TWO_TO_64)
    case _ => Signed(v, TWO_TO_32)
  }

  /** The varint printed for a value: sign-extended to 64 bits. */
  function ToWire(n: int): (v: nat)
    ensures v < TWO_TO_64
  {
    n % TWO_TO_64
  }

  predicate InRange(k: Kind, n: int) {
    match k
    case Bool => 0 <= n <= 1
    case UInt32 => 0 <= n < TWO_TO_32
    case UInt64 => 0 <= n < TWO_TO_64
    case Int64 => -TWO_TO_63 <= n < TWO_TO_63
    case ClosedEnum(last) => 0 <= n <= last
    case Float => 0 <= n < TWO_TO_32
    case Double => 0 <= n < TWO_TO_64
    case _ => -TWO_TO_31 <= n < TWO_TO_31
  }

  /** `DataType_IsValid(int)`: the argument is narrowed before it is tested. */
  predicate ClosedEnumAccepts(k: Kind, v: nat) {
    k.ClosedEnum? ==> 0 <= Signed(v, TWO_TO_32) <= k.last
  }

  /** Every value of every integer kind survives being printed and read back. */
  lemma WireRoundTrip(k: Kind, n: int)
    requires Numeric(k) && !k.Float? && !k.Double? && InRange(k, n)
    requires k.ClosedEnum? ==> k.last < TWO_TO_31
    ensures FromWire(k, ToWire(n)) == n && ClosedEnumAccepts(k, ToWire(n))
  {
    if n < 0 { assert ToWire(n) == n + TWO_TO_64; }
  }

  /** Exactly the varints of 2^32 and more whose low half is declared are taken for another value. */
  lemma NarrowedEnum(last: int, v: nat)
    requires 0 <= last < TWO_TO_31
    ensures var k := ClosedEnum(last);
      ClosedEnumAccepts(k, v) && FromWire(k, v) != v <==> v >= TWO_TO_32 && v % TWO_TO_32 <= last
  {
  }

  /** A closed enum accepts the varints whose low 32 bits are a declared value. */
  lemma ClosedEnumAcceptsIff(last: int, v: nat)
    requires 0 <= last < TWO_TO_31
    ensures ClosedEnumAccepts(ClosedEnum(last), v) <==> v % TWO_TO_32 <= last
  {
  }

  /** A boolean is false only for zero; any other number keeps its low 32 or 64 bits. */
  lemma {:induction false} FromWireKeepsLowBits(k: Kind, v: nat)
    requires Numeric(k) && !k.Float? && !k.Double?
    ensures k == Bool ==> (FromWire(k, v) == 0 <==> v == 0)
    ensures k == Int64 || k == UInt64 ==> FromWire(k, v) % TWO_TO_64 == v % TWO_TO_64
    ensures k != Bool && k != Int64 && k != UInt64 ==> FromWire(k, v) % TWO_TO_32 == v % TWO_TO_32
  {
  }

  /** What is read is always in range, unless a closed enum refuses it. */
  lemma FromWireInRange(k: Kind, v: nat)
    requires Numeric(k) && !k.Float? && !k.Double? && ClosedEnumAccepts(k, v)
    ensures InRange(k, FromWire(k, v))
  {
  }

  /** Negative values always take the longest varint. */
  lemma NegativeTakesTenBytes(n: int)
    requires -TWO_TO_63 <= n < 0
    ensures |Varint(ToWire(n))| == 10
  {
    var v := ToWire(n);
    assert v == n + TWO_TO_64 && v >= TWO_TO_63;
    FixedPowers();
    VarintLengthIff(v, 10);
    assert TWO_TO_63 == Pow(128, 9) by {
      assert Pow(128, 9) == 128 * (128 * (128 * (128 * Pow(128, 5))));
    }
    VarintLengthIff(v, 9);
  }
}
