/** How the generated printers and size calculators build up `Serialize`, field by field. */
module Printing {
  import opened Wire
  import opened Schemas
  import opened Messages
  import opened Codec
  import opened Parsing

  /** The bytes printed for the field content `vs`. */
  function FieldBytes(S: Schema, f: Field, vs: seq<Value>): bytes {
    EncodeAll(SlotRecords(S, f, vs))
  }

  /** What is printed from field `k` on. */
  function Tail(S: Schema, t: MessageType, m: Msg, k: nat): bytes {
    EncodeAll(RecordsFrom(S, FieldsOf(S, t), m, k)) + EncodeAll(m.unknown)
  }

  /** `target` holds what is printed for the first `k` fields. */
  ghost predicate PrintedUpto(S: Schema, t: MessageType, m: Msg, k: nat, target: bytes) {
    target + Tail(S, t, m, k) == Serialize(S, t, m)
  }

  lemma PrintStart(S: Schema, t: MessageType, m: Msg)
    ensures PrintedUpto(S, t, m, 0, [])
  {
    EncodeAllConcat(RecordsFrom(S, FieldsOf(S, t), m, 0), m.unknown);
    assert [] + Tail(S, t, m, 0) == Tail(S, t, m, 0);
  }

  /** Printing field `k` next. */
  lemma PrintStep(S: Schema, t: MessageType, m: Msg, k: nat, target: bytes, more: bytes)
    requires k < |FieldsOf(S, t)| && k < |m.slots| && PrintedUpto(S, t, m, k, target)
    requires more == FieldBytes(S, FieldsOf(S, t)[k], m.slots[k].vs)
    ensures PrintedUpto(S, t, m, k + 1, target + more)
  {
    TailStep(S, t, m, k);
    ConcatIsAssociative(target, more, Tail(S, t, m, k + 1));
  }

  lemma TailStep(S: Schema, t: MessageType, m: Msg, k: nat)
    requires k < |FieldsOf(S, t)| && k < |m.slots|
    ensures Tail(S, t, m, k) == FieldBytes(S, FieldsOf(S, t)[k], m.slots[k].vs) + Tail(S, t, m, k + 1)
  {
    var fs := FieldsOf(S, t);
    var now, later := SlotRecords(S, fs[k], m.slots[k].vs), RecordsFrom(S, fs, m, k + 1);
    assert RecordsFrom(S, fs, m, k) == now + later;
    EncodeAllConcat(now, later);
    ConcatIsAssociative(EncodeAll(now), EncodeAll(later), EncodeAll(m.unknown));
  }

  lemma ConcatIsAssociative(a: bytes, b: bytes, c: bytes)
    ensures a + b + c == a + (b + c)
  {
  }

  /** After the last field come the unknown fields. */
  lemma PrintEnd(S: Schema, t: MessageType, m: Msg, target: bytes)
    requires PrintedUpto(S, t, m, |FieldsOf(S, t)|, target)
    ensures target + EncodeAll(m.unknown) == Serialize(S, t, m)
  {
    assert EncodeAll(RecordsFrom(S, FieldsOf(S, t), m, |FieldsOf(S, t)|)) == [];
    assert [] + EncodeAll(m.unknown) == EncodeAll(m.unknown);
  }

  // -------------------------------------------------------------------- sizes

  function VarintSize(n: nat): (s: nat)
    ensures s == |Varint(n)|
  {
    if n < 128 then 1 else 1 + VarintSize(n / 128)
  }

  /** A size kept in a signed 32-bit cache. */
  function ToCachedSize(size: nat): int {
    Signed(size, TWO_TO_32)
  }

  /** Size of a length prefix and what it announces. */
  function DelimitedSize(n: nat): nat {
    VarintSize(n) + n
  }

  function FieldSize(S: Schema, f: Field, vs: seq<Value>): nat {
    |FieldBytes(S, f, vs)|
  }

  function SizeFrom(S: Schema, t: MessageType, m: Msg, k: nat): nat {
    |Tail(S, t, m, k)|
  }

  /** The serialized size is the sum of the field sizes and that of the unknown fields, in whatever
      order they are added up. */
  lemma SizeStep(S: Schema, t: MessageType, m: Msg, k: nat)
    requires k < |FieldsOf(S, t)| && k < |m.slots|
    ensures SizeFrom(S, t, m, k) == FieldSize(S, FieldsOf(S, t)[k], m.slots[k].vs) + SizeFrom(S, t, m, k + 1)
  {
    TailStep(S, t, m, k);
  }

  lemma SizeStart(S: Schema, t: MessageType, m: Msg)
    ensures SizeFrom(S, t, m, 0) == |Serialize(S, t, m)|
  {
    EncodeAllConcat(RecordsFrom(S, FieldsOf(S, t), m, 0), m.unknown);
  }

  lemma SizeEnd(S: Schema, t: MessageType, m: Msg)
    ensures SizeFrom(S, t, m, |FieldsOf(S, t)|) == |EncodeAll(m.unknown)|
  {
  }

  /** The sizes of the fields from `k` on, added up. */
  function SizesFrom(S: Schema, t: MessageType, m: Msg, k: nat): nat
    decreases |FieldsOf(S, t)| - k
  {
    if k < |FieldsOf(S, t)| && k < |m.slots| then FieldSize(S, FieldsOf(S, t)[k], m.slots[k].vs) + SizesFrom(S, t, m, k + 1)
    else 0
  }

  lemma SizesFromStep(S: Schema, t: MessageType, m: Msg, k: nat)
    requires |m.slots| == |FieldsOf(S, t)| && k < |m.slots|
    ensures SizesFrom(S, t, m, k) == FieldSize(S, FieldsOf(S, t)[k], m.slots[k].vs) + SizesFrom(S, t, m, k + 1)
  {
    hide FieldSize;
  }

  lemma SizesFromEnd(S: Schema, t: MessageType, m: Msg)
    ensures SizesFrom(S, t, m, |FieldsOf(S, t)|) == 0
  {
  }

  lemma {:induction false} TailSize(S: Schema, t: MessageType, m: Msg, k: nat)
    requires |m.slots| == |FieldsOf(S, t)| && k <= |m.slots|
    ensures SizeFrom(S, t, m, k) == SizesFrom(S, t, m, k) + |EncodeAll(m.unknown)|
    decreases |m.slots| - k
  {
    if k < |m.slots| {
      SizeStep(S, t, m, k);
      TailSize(S, t, m, k + 1);
    } else {
      SizeEnd(S, t, m);
    }
  }

  /** What size calculators add up, field by field in any order, is the length of what printers
      write in field-number order. */
  lemma SerializedSize(S: Schema, t: MessageType, m: Msg)
    requires |m.slots| == |FieldsOf(S, t)|
    ensures |Serialize(S, t, m)| == SizesFrom(S, t, m, 0) + |EncodeAll(m.unknown)|
  {
    SizeStart(S, t, m);
    TailSize(S, t, m, 0);
  }

  // ------------------------------------------------- bytes and sizes of a field

  function TagSize(num: nat, wireType: nat): nat {
    VarintSize(Tag(num, wireType))
  }

  lemma OneTagByte(num: nat, wireType: nat)
    requires 1 <= num <= 15 && wireType < 8
    ensures TagSize(num, wireType) == 1
  {
  }

  lemma TwoTagBytes(num: nat, wireType: nat)
    requires 16 <= num < 2048 && wireType < 8
    ensures TagSize(num, wireType) == 2
  {
  }

  /** Nothing, or one record. */
  lemma OneRecordBytes(r: Record)
    ensures EncodeAll([r]) == Encode(r)
  {
    assert EncodeAll([r]) == Encode(r) + EncodeAll([]);
  }

  lemma SingleBytes(S: Schema, f: Field, v: Value)
    requires !f.rule.Repeated?
    ensures FieldBytes(S, f, [v])
         == if f.rule.Implicit? && IsZero(f.kind, v) then [] else Encode(Record(f.num, PayloadOf(S, f.kind, v)))
  {
    var r := Record(f.num, PayloadOf(S, f.kind, v));
    assert [v][1..] == [] && ElementRecords(S, f, [v]) == [r] + ElementRecords(S, f, []);
    OneRecordBytes(r);
  }

  /** Size of a string or bytes field without presence. */
  lemma ImplicitDataSize(S: Schema, f: Field, d: bytes)
    requires f.rule.Implicit? && (f.kind.Text? || f.kind.Blob?)
    ensures FieldSize(S, f, [Data(d)]) == if |d| > 0 then TagSize(f.num, 2) + DelimitedSize(|d|) else 0
  {
    SingleBytes(S, f, Data(d));
    EncodedSize(Record(f.num, Delimited(d)));
  }

  /** Size of an integer field without presence. */
  lemma ImplicitNumberSize(S: Schema, f: Field, n: int)
    requires f.rule.Implicit? && Numeric(f.kind) && !f.kind.Float? && !f.kind.Double?
    ensures FieldSize(S, f, [Num(n)]) == if n != 0 then TagSize(f.num, 0) + VarintSize(ToWire(n)) else 0
  {
    SingleBytes(S, f, Num(n));
    EncodedSize(Record(f.num, Scalar(ToWire(n))));
  }

  lemma PackedBytes(S: Schema, f: Field, vs: seq<Value>)
    requires f.rule == Repeated(true)
    ensures FieldBytes(S, f, vs) == if vs == [] then [] else Encode(Record(f.num, Delimited(Pack(f.kind, vs))))
  {
    OneRecordBytes(Record(f.num, Delimited(Pack(f.kind, vs))));
  }

  lemma EncodedSize(r: Record)
    ensures |Encode(r)| == TagSize(r.num, WireType(r.payload)) + match r.payload
                           case Scalar(v) => VarintSize(v)
                           case Word64(_) => 8
                           case Delimited(d) => DelimitedSize(|d|)
                           case Word32(_) => 4
  {
  }

  lemma {:induction false} PackedFixedSize(k: Kind, vs: seq<Value>)
    requires k.Float? || k.Double?
    requires forall v <- vs :: v.Num?
    ensures |Pack(k, vs)| == (if k.Float? then 4 else 8) * |vs|
  {
    if vs != [] { PackedFixedSize(k, vs[1..]); }
  }

  // ------------------------------------- fields printed one record per value

  /** Size of a value after its tag. */
  function ValueSize(S: Schema, k: Kind, v: Value): nat {
    |EncodePayload(PayloadOf(S, k, v))|
  }

  lemma NumberSize(S: Schema, k: Kind, n: int)
    ensures ValueSize(S, k, Num(n)) == if k.Float? then 4 else if k.Double? then 8 else VarintSize(ToWire(n))
  {
  }

  /** `MessageSize` and `StringSize`. */
  lemma ContentSize(S: Schema, k: Kind, v: Value)
    requires !v.Num? && (v.Sub? ==> k.Message?)
    ensures ValueSize(S, k, v) == DelimitedSize(if v.Data? then |v.d| else |Serialize(S, k.target, v.m)|)
  {
  }

  function ValueSizes(S: Schema, k: Kind, vs: seq<Value>): nat {
    if vs == [] then 0 else ValueSizes(S, k, vs[..|vs| - 1]) + ValueSize(S, k, vs[|vs| - 1])
  }

  lemma NoSizes(S: Schema, k: Kind)
    ensures ValueSizes(S, k, []) == 0
  {
  }

  lemma OneSize(S: Schema, k: Kind, v: Value)
    ensures ValueSizes(S, k, [v]) == ValueSize(S, k, v)
  {
    assert [v][..0] == [];
  }

  predicate OnePerValue(f: Field) {
    f.rule.Optional? || f.rule.Oneof? || f.rule == Repeated(false)
  }

  lemma {:induction false} ElementRecordsSnoc(S: Schema, f: Field, vs: seq<Value>, v: Value)
    ensures ElementRecords(S, f, vs + [v]) == ElementRecords(S, f, vs) + [Record(f.num, PayloadOf(S, f.kind, v))]
  {
    if vs == [] {
      assert vs + [v] == [v] && [v][1..] == [];
      assert ElementRecords(S, f, [v]) == [Record(f.num, PayloadOf(S, f.kind, v))] + ElementRecords(S, f, []);
    } else {
      assert (vs + [v])[1..] == vs[1..] + [v];
      ElementRecordsSnoc(S, f, vs[1..], v);
    }
  }

  lemma FieldBytesSnoc(S: Schema, f: Field, vs: seq<Value>, v: Value)
    requires OnePerValue(f)
    ensures FieldBytes(S, f, vs + [v]) == FieldBytes(S, f, vs) + Encode(Record(f.num, PayloadOf(S, f.kind, v)))
  {
    var r := Record(f.num, PayloadOf(S, f.kind, v));
    ElementRecordsSnoc(S, f, vs, v);
    EncodeAllConcat(ElementRecords(S, f, vs), [r]);
    OneRecordBytes(r);
    assert SlotRecords(S, f, vs) == ElementRecords(S, f, vs);
    assert SlotRecords(S, f, vs + [v]) == ElementRecords(S, f, vs + [v]);
  }

  lemma ValueWire(S: Schema, k: Kind, v: Value)
    requires WfValue(S, k, v)
    ensures WireType(PayloadOf(S, k, v)) == ValueWireType(k)
  {
  }

  lemma TimesSuccessor(c: nat, n: nat)
    ensures c * (n + 1) == c * n + c
  {
  }

  /** Every value is typed. */
  ghost predicate Typed(S: Schema, k: Kind, vs: seq<Value>) {
    forall i :: 0 <= i < |vs| ==> WfValue(S, k, vs[i])
  }

  lemma {:induction false} FieldSizeIsSum(S: Schema, f: Field, vs: seq<Value>)
    requires OnePerValue(f) && Typed(S, f.kind, vs)
    ensures FieldSize(S, f, vs) == TagSize(f.num, ValueWireType(f.kind)) * |vs| + ValueSizes(S, f.kind, vs)
    decreases |vs|
  {
    hide PayloadOf, Encode, EncodePayload, EncodeAll, TagSize, WfValue;
    if vs == [] {
      NothingIsPrinted(S, f);
    } else {
      var n := |vs| - 1;
      assert vs == vs[..n] + [vs[n]];
      FieldSizeIsSum(S, f, vs[..n]);
      FieldBytesSnoc(S, f, vs[..n], vs[n]);
      ValueWire(S, f.kind, vs[n]);
      RecordSize(Record(f.num, PayloadOf(S, f.kind, vs[n])));
      TimesSuccessor(TagSize(f.num, ValueWireType(f.kind)), n);
    }
  }

  lemma NothingIsPrinted(S: Schema, f: Field)
    ensures FieldBytes(S, f, []) == []
  {
  }

  lemma RecordSize(r: Record)
    ensures |Encode(r)| == TagSize(r.num, WireType(r.payload)) + |EncodePayload(r.payload)|
  {
  }

  /** A singular field with explicit presence. */
  method PrintSingle(S: Schema, ghost t: MessageType, ghost m: Msg, ghost k: nat, f: Field, has: bool, v: Value,
                     target: bytes)
    returns (target': bytes)
    requires k < |FieldsOf(S, t)| && FieldsOf(S, t)[k] == f && OnePerValue(f)
    requires k < |m.slots| && m.slots[k].vs == (if has then [v] else []) && PrintedUpto(S, t, m, k, target)
    ensures PrintedUpto(S, t, m, k + 1, target')
  {
    hide PrintedUpto, Encode, PayloadOf, EncodeAll;
    PrintStep(S, t, m, k, target, FieldBytes(S, f, m.slots[k].vs));
    NothingIsPrinted(S, f);
    target' := target;
    if has {
      FieldBytesSnoc(S, f, [], v);
      assert [] + [v] == [v];
      target' := target' + Encode(Record(f.num, PayloadOf(S, f.kind, v)));
    }
    assert target' == target + FieldBytes(S, f, m.slots[k].vs);
  }

  /** A repeated field, one record per element. */
  method PrintRepeated(S: Schema, ghost t: MessageType, ghost m: Msg, ghost k: nat, f: Field, vs: seq<Value>,
                       target: bytes)
    returns (target': bytes)
    requires k < |FieldsOf(S, t)| && FieldsOf(S, t)[k] == f && OnePerValue(f)
    requires k < |m.slots| && m.slots[k].vs == vs && PrintedUpto(S, t, m, k, target)
    ensures PrintedUpto(S, t, m, k + 1, target')
  {
    hide PrintedUpto, Encode, PayloadOf;
    PrintStep(S, t, m, k, target, FieldBytes(S, f, vs));
    target' := target;
    for i := 0 to |vs|
      invariant target' == target + FieldBytes(S, f, vs[..i])
    {
      assert vs[..i + 1] == vs[..i] + [vs[i]];
      FieldBytesSnoc(S, f, vs[..i], vs[i]);
      target' := target' + Encode(Record(f.num, PayloadOf(S, f.kind, vs[i])));
    }
    assert vs[..|vs|] == vs;
  }

  /** The sizes of a repeated field's values, added up one by one. */
  method AddSizes(S: Schema, k: Kind, vs: seq<Value>) returns (dataSize: nat)
    ensures dataSize == ValueSizes(S, k, vs)
  {
    dataSize := 0;
    for i := 0 to |vs|
      invariant dataSize == ValueSizes(S, k, vs[..i])
    {
      assert vs[..i + 1][..i] == vs[..i];
      dataSize := dataSize + ValueSize(S, k, vs[i]);
    }
    assert vs[..|vs|] == vs;
  }

  /** Values that all take `c` bytes. */
  ghost predicate Uniform(S: Schema, k: Kind, vs: seq<Value>, c: nat) {
    forall i :: 0 <= i < |vs| ==> ValueSize(S, k, vs[i]) == c
  }

  lemma {:induction false} UniformSizes(S: Schema, k: Kind, vs: seq<Value>, c: nat)
    requires Uniform(S, k, vs, c)
    ensures ValueSizes(S, k, vs) == c * |vs|
    decreases |vs|
  {
    hide ValueSize;
    if vs != [] {
      UniformSizes(S, k, vs[..|vs| - 1], c);
      TimesSuccessor(c, |vs| - 1);
    }
  }

  /** Booleans and floating-point numbers take a fixed number of bytes each. */
  lemma FixedSizes(S: Schema, k: Kind, vs: seq<Value>)
    requires (k.Bool? || k.Float? || k.Double?) && Typed(S, k, vs)
    ensures ValueSizes(S, k, vs) == (if k.Bool? then 1 else if k.Float? then 4 else 8) * |vs|
  {
    var c := if k.Bool? then 1 else if k.Float? then 4 else 8;
    forall i | 0 <= i < |vs| ensures ValueSize(S, k, vs[i]) == c {
      assert WfValue(S, k, vs[i]);
      NumberSize(S, k, vs[i].n);
    }
    UniformSizes(S, k, vs, c);
  }

  // ------------------------------------------------------------ packed fields

  /** `Int32Size` of a data size narrowed to an int: the length prefix as size calculators see it. */
  function PrefixSize(dataSize: nat): nat {
    VarintSize(ToWire(Signed(dataSize, TWO_TO_32)))
  }

  /** The data sizes whose prefix is measured right: those below 2 GiB, and from 4 GiB on those whose
      low half happens to take as many bytes. */
  predicate PrefixIsRight(n: nat) {
    || n < TWO_TO_31
    || (TWO_TO_32 <= n < 8 * TWO_TO_32 && TWO_TO_31 / 8 <= n % TWO_TO_32 < TWO_TO_31)
    || (TWO_TO_63 <= n && TWO_TO_31 <= n % TWO_TO_32)
  }

  lemma PrefixSizeIsExact(n: nat)
    requires n < TWO_TO_64
    ensures PrefixSize(n) == VarintSize(n) <==> PrefixIsRight(n)
  {
    hide Varint, VarintSize, PrefixSize;
    PrefixSizeOf(n);
    TenBytes(n);
    if n >= TWO_TO_32 {
      FiveBytes(n);
      FiveBytes(n % TWO_TO_32);
    } else {
      assert n % TWO_TO_32 == n;
    }
  }

  /** Half of the lengths are taken for negative. */
  lemma PrefixSizeOf(n: nat)
    ensures PrefixSize(n) == if n % TWO_TO_32 < TWO_TO_31 then VarintSize(n % TWO_TO_32) else 10
  {
    hide Varint, VarintSize;
    var low := n % TWO_TO_32;
    if low >= TWO_TO_31 {
      assert Signed(n, TWO_TO_32) == low - TWO_TO_32;
      NegativeTakesTenBytes(low - TWO_TO_32);
    } else {
      assert ToWire(Signed(n, TWO_TO_32)) == low;
    }
  }

  lemma TenBytes(n: nat)
    requires n < TWO_TO_64
    ensures VarintSize(n) == 10 <==> n >= TWO_TO_63
  {
    hide Varint, VarintSize;
    Powers();
    VarintLength(n, 10);
    if n < TWO_TO_63 { VarintLength(n, 9); } else { VarintLengthIff(n, 9); }
  }

  lemma FiveBytes(n: nat)
    ensures n < TWO_TO_31 / 8 ==> VarintSize(n) < 5
    ensures TWO_TO_31 / 8 <= n < 8 * TWO_TO_32 ==> VarintSize(n) == 5
    ensures n >= 8 * TWO_TO_32 ==> VarintSize(n) > 5
  {
    hide Varint, VarintSize;
    Powers();
    if n < TWO_TO_31 / 8 { VarintLength(n, 4); } else { VarintLengthIff(n, 4); }
    if n < 8 * TWO_TO_32 { VarintLength(n, 5); } else { VarintLengthIff(n, 5); }
  }

  lemma Powers()
    ensures Pow(128, 4) == TWO_TO_31 / 8 && Pow(128, 5) == 8 * TWO_TO_32
    ensures Pow(128, 9) == TWO_TO_63 && TWO_TO_64 <= Pow(128, 10)
  {
    assert Pow(128, 4) == 128 * (128 * (128 * (128 * Pow(128, 0))));
    assert Pow(128, 9) == 128 * (128 * (128 * (128 * Pow(128, 5))));
  }

  /** How far they are off; nothing below 2 GiB. */
  function PrefixError(n: nat): int {
    PrefixSize(n) - VarintSize(n)
  }

  /** What size calculators add for a packed field. */
  function PackedSize(tagSize: nat, dataSize: nat): nat {
    (if dataSize > 0 then tagSize + PrefixSize(dataSize) else 0) + dataSize
  }

  lemma {:induction false} PackIsEmpty(k: Kind, vs: seq<Value>)
    requires forall i :: 0 <= i < |vs| ==> vs[i].Num?
    ensures Pack(k, vs) == [] <==> vs == []
  {
    if vs != [] { assert vs[0].Num? && PackOne(k, vs[0].n) != []; }
  }

  /** Below 2 GiB they add what is printed. */
  lemma PackedFieldSize(S: Schema, f: Field, vs: seq<Value>)
    requires f.rule == Repeated(true) && |Pack(f.kind, vs)| < TWO_TO_31
    requires forall i :: 0 <= i < |vs| ==> vs[i].Num?
    ensures FieldSize(S, f, vs) == PackedSize(TagSize(f.num, 2), |Pack(f.kind, vs)|)
  {
    PackedBytes(S, f, vs);
    PackIsEmpty(f.kind, vs);
    PrefixSizeIsExact(|Pack(f.kind, vs)|);
    EncodedSize(Record(f.num, Delimited(Pack(f.kind, vs))));
  }

  lemma {:induction false} PackSnoc(k: Kind, vs: seq<Value>, n: int)
    ensures Pack(k, vs + [Num(n)]) == Pack(k, vs) + PackOne(k, n)
  {
    hide PackOne;
    if vs == [] {
      assert vs + [Num(n)] == [Num(n)] && [Num(n)][1..] == [];
      assert Pack(k, [Num(n)]) == PackOne(k, n) + Pack(k, []);
    } else {
      assert (vs + [Num(n)])[1..] == vs[1..] + [Num(n)];
      PackSnoc(k, vs[1..], n);
      var first := if vs[0].Num? then PackOne(k, vs[0].n) else [];
      ConcatIsAssociative(first, Pack(k, vs[1..]), PackOne(k, n));
    }
  }

  /** `Int32Size`, `Int64Size` and so on of a whole field. */
  method AddVarintSizes(k: Kind, vs: seq<Value>) returns (dataSize: nat)
    requires !k.Float? && !k.Double? && forall i :: 0 <= i < |vs| ==> vs[i].Num?
    ensures dataSize == |Pack(k, vs)|
  {
    dataSize := 0;
    for i := 0 to |vs|
      invariant dataSize == |Pack(k, vs[..i])|
    {
      assert vs[..i + 1] == vs[..i] + [Num(vs[i].n)];
      PackSnoc(k, vs[..i], vs[i].n);
      dataSize := dataSize + VarintSize(ToWire(vs[i].n));
    }
    assert vs[..|vs|] == vs;
  }

  /** The number of bytes is the number of booleans. */
  lemma {:induction false} PackedBoolSize(vs: seq<Value>)
    requires forall i :: 0 <= i < |vs| ==> vs[i].Num? && InRange(Bool, vs[i].n)
    ensures |Pack(Bool, vs)| == |vs|
  {
    if vs != [] {
      assert InRange(Bool, vs[0].n);
      PackedBoolSize(vs[1..]);
    }
  }

  // --------------------------------------------------- parts of a whole message

  lemma {:induction false} FieldIsShorterFrom(S: Schema, t: MessageType, m: Msg, j: nat, k: nat)
    requires |m.slots| == |FieldsOf(S, t)| && j <= k < |m.slots|
    ensures FieldSize(S, FieldsOf(S, t)[k], m.slots[k].vs) <= SizesFrom(S, t, m, j)
    decreases k - j
  {
    hide FieldSize;
    if j < k { FieldIsShorterFrom(S, t, m, j + 1, k); }
  }

  /** A field is no longer than the message it is in. */
  lemma FieldIsShorter(S: Schema, t: MessageType, m: Msg, k: nat)
    requires |m.slots| == |FieldsOf(S, t)| && k < |m.slots|
    ensures FieldSize(S, FieldsOf(S, t)[k], m.slots[k].vs) <= |Serialize(S, t, m)|
  {
    hide FieldSize;
    SerializedSize(S, t, m);
    FieldIsShorterFrom(S, t, m, 0, k);
  }

  lemma {:induction false} ValueIsShorter(S: Schema, k: Kind, vs: seq<Value>, i: nat)
    requires i < |vs|
    ensures ValueSize(S, k, vs[i]) <= ValueSizes(S, k, vs)
    decreases |vs|
  {
    hide ValueSize;
    if i < |vs| - 1 { ValueIsShorter(S, k, vs[..|vs| - 1], i); }
  }

  /** A submessage is shorter than the message it is in. */
  lemma {:induction false} SubmessageIsShorter(S: Schema, t: MessageType, m: Msg, k: nat, i: nat)
    requires |m.slots| == |FieldsOf(S, t)| && k < |m.slots| && i < |m.slots[k].vs|
    requires var f := FieldsOf(S, t)[k]; OnePerValue(f) && f.kind.Message? && Typed(S, f.kind, m.slots[k].vs)
    requires m.slots[k].vs[i].Sub?
    ensures |Serialize(S, FieldsOf(S, t)[k].kind.target, m.slots[k].vs[i].m)| < |Serialize(S, t, m)|
  {
    hide Serialize, FieldSize, ValueSize, ValueSizes, WfValue;
    var f, vs := FieldsOf(S, t)[k], m.slots[k].vs;
    FieldIsShorter(S, t, m, k);
    FieldSizeIsSum(S, f, vs);
    ValueIsShorter(S, f.kind, vs, i);
    ContentSize(S, f.kind, vs[i]);
    TagTakesRoom(TagSize(f.num, ValueWireType(f.kind)), |vs|);
  }

  lemma TagTakesRoom(tagSize: nat, n: nat)
    ensures tagSize * n >= 0
  {
  }

  /** So is the payload of a packed field. */
  lemma PackedIsShorter(S: Schema, t: MessageType, m: Msg, k: nat)
    requires |m.slots| == |FieldsOf(S, t)| && k < |m.slots| && FieldsOf(S, t)[k].rule == Repeated(true)
    ensures |Pack(FieldsOf(S, t)[k].kind, m.slots[k].vs)| <= |Serialize(S, t, m)|
  {
    hide Serialize, Pack;
    var f, vs := FieldsOf(S, t)[k], m.slots[k].vs;
    FieldIsShorter(S, t, m, k);
    PackedBytes(S, f, vs);
    if vs == [] { PackOfNothing(f.kind); }
    EncodedSize(Record(f.num, Delimited(Pack(f.kind, vs))));
  }

  lemma PackOfNothing(k: Kind)
    ensures Pack(k, []) == []
  {
  }

  // ------------------------------------------ printing with sizes from a cache

  /** A submessage or a packed payload, with a length prefix that was computed earlier. */
  function WithPrefix(num: nat, cached: int, data: bytes): bytes {
    Varint(Tag(num, 2)) + Varint(cached % TWO_TO_32) + data
  }

  /** If the cache holds the size of what follows, the record is the right one. */
  lemma CachedPrefix(num: nat, cached: int, data: bytes)
    requires cached == ToCachedSize(|data|) && |data| < TWO_TO_31
    ensures cached == |data| && WithPrefix(num, cached, data) == Encode(Record(num, Delimited(data)))
  {
    hide Varint;
    assert cached == |data| && cached % TWO_TO_32 == |data|;
    ConcatIsAssociative(Varint(Tag(num, 2)), Varint(|data|), data);
  }

  // The steps of a proto3 printer.  They write what the caches say; only if `good`, that is if the
  // caches hold the right sizes, need that be the serialized message.

  /** An integer field without presence. */
  method PrintNumber(S: Schema, ghost t: MessageType, ghost m: Msg, ghost k: nat, f: Field, n: int, target: bytes,
                     ghost good: bool)
    returns (target': bytes)
    requires k < |FieldsOf(S, t)| && FieldsOf(S, t)[k] == f && f.rule.Implicit? && Numeric(f.kind) && !f.kind.Float?
    requires !f.kind.Double?
    requires k < |m.slots| && m.slots[k].vs == [Num(n)] && (good ==> PrintedUpto(S, t, m, k, target))
    ensures good ==> PrintedUpto(S, t, m, k + 1, target')
  {
    hide PrintedUpto, Encode, EncodeAll;
    SingleBytes(S, f, Num(n));
    if good { PrintStep(S, t, m, k, target, FieldBytes(S, f, [Num(n)])); }
    target' := target;
    if n != 0 { target' := target' + Encode(Record(f.num, Scalar(ToWire(n)))); }
    assert target' == target + FieldBytes(S, f, [Num(n)]);
  }

  /** A string or bytes field without presence. */
  method PrintData(S: Schema, ghost t: MessageType, ghost m: Msg, ghost k: nat, f: Field, d: bytes, target: bytes,
                   ghost good: bool)
    returns (target': bytes)
    requires k < |FieldsOf(S, t)| && FieldsOf(S, t)[k] == f && f.rule.Implicit? && (f.kind.Text? || f.kind.Blob?)
    requires k < |m.slots| && m.slots[k].vs == [Data(d)] && (good ==> PrintedUpto(S, t, m, k, target))
    ensures good ==> PrintedUpto(S, t, m, k + 1, target')
  {
    hide PrintedUpto, Encode, EncodeAll;
    SingleBytes(S, f, Data(d));
    if good { PrintStep(S, t, m, k, target, FieldBytes(S, f, [Data(d)])); }
    target' := target;
    if |d| > 0 { target' := target' + Encode(Record(f.num, Delimited(d))); }
    assert target' == target + FieldBytes(S, f, [Data(d)]);
  }

  /** A packed field of fixed-size elements: its size is taken from the number of elements. */
  method PrintFixedPacked(S: Schema, ghost t: MessageType, ghost m: Msg, ghost k: nat, f: Field, vs: seq<Value>,
                          target: bytes,
                          ghost good: bool)
    returns (target': bytes)
    requires k < |FieldsOf(S, t)| && FieldsOf(S, t)[k] == f && f.rule == Repeated(true)
    requires k < |m.slots| && m.slots[k].vs == vs && (good ==> PrintedUpto(S, t, m, k, target))
    ensures good ==> PrintedUpto(S, t, m, k + 1, target')
  {
    hide PrintedUpto, Encode, EncodeAll, Pack;
    PackedBytes(S, f, vs);
    if good { PrintStep(S, t, m, k, target, FieldBytes(S, f, vs)); }
    target' := target;
    if |vs| > 0 { target' := target' + Encode(Record(f.num, Delimited(Pack(f.kind, vs)))); }
    assert target' == target + FieldBytes(S, f, vs);
  }

  /** A packed field of varints: whether it is printed at all, and its length prefix, come from the
      cache. */
  method PrintCachedPacked(S: Schema, ghost t: MessageType, ghost m: Msg, ghost k: nat, f: Field, vs: seq<Value>,
                           byteSize: int,
                           target: bytes, ghost good: bool)
    returns (target': bytes)
    requires k < |FieldsOf(S, t)| && FieldsOf(S, t)[k] == f && f.rule == Repeated(true)
    requires forall i :: 0 <= i < |vs| ==> vs[i].Num?
    requires k < |m.slots| && m.slots[k].vs == vs && (good ==> PrintedUpto(S, t, m, k, target))
    requires good ==> byteSize == ToCachedSize(|Pack(f.kind, vs)|) && |Pack(f.kind, vs)| < TWO_TO_31
    ensures good ==> PrintedUpto(S, t, m, k + 1, target')
  {
    hide PrintedUpto, Encode, EncodeAll, Pack, ToCachedSize, WithPrefix;
    PackedBytes(S, f, vs);
    PackIsEmpty(f.kind, vs);
    if good {
      CachedPrefix(f.num, byteSize, Pack(f.kind, vs));
      PrintStep(S, t, m, k, target, FieldBytes(S, f, vs));
    }
    target' := target;
    if byteSize > 0 { target' := target' + WithPrefix(f.num, byteSize, Pack(f.kind, vs)); }
    assert good && vs == [] ==> target + FieldBytes(S, f, vs) == target;
  }

  /** One more submessage of a field whose first `i` are printed. */
  lemma PrintMessage(S: Schema, f: Field, vs: seq<Value>, i: nat, cached: int)
    requires OnePerValue(f) && f.kind.Message? && i < |vs| && vs[i].Sub?
    requires cached == ToCachedSize(|Serialize(S, f.kind.target, vs[i].m)|)
    requires |Serialize(S, f.kind.target, vs[i].m)| < TWO_TO_31
    ensures FieldBytes(S, f, vs[..i + 1])
         == FieldBytes(S, f, vs[..i]) + WithPrefix(f.num, cached, Serialize(S, f.kind.target, vs[i].m))
  {
    hide Serialize, Encode, EncodeAll, ToCachedSize, WithPrefix;
    assert vs[..i + 1] == vs[..i] + [vs[i]];
    FieldBytesSnoc(S, f, vs[..i], vs[i]);
    CachedPrefix(f.num, cached, Serialize(S, f.kind.target, vs[i].m));
  }
}
