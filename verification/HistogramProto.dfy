/** histogram.pb.cc: five singular doubles, two packed arrays of doubles. */
module HistogramProtos {
  import opened Wire
  import opened Schemas
  import opened Messages
  import opened Codec
  import opened MasterLaw
  import opened NormalForm
  import opened RoundTrip
  import opened Repository
  import opened Parsing
  import opened Printing

  /** `!(x <= 0 && x >= 0)` on the bit pattern of a double: neither zero passes, every NaN does. */
  predicate NonZero(bits: int) {
    bits != 0 && bits != TWO_TO_63
  }

  function Replaced(a: int, b: int): int {
    if NonZero(b) then b else a
  }

  /** The message with these fields. */
  function Message7(min: int, max: int, num: int, sum: int, sumSquares: int, bucketLimit: seq<int>, bucket: seq<int>,
                    unknown: seq<Record>): Msg
  {
    Msg([Slot([Num(min)]), Slot([Num(max)]), Slot([Num(num)]), Slot([Num(sum)]), Slot([Num(sumSquares)]),
         Slot(Nums(bucketLimit)), Slot(Nums(bucket))], unknown)
  }

  lemma EmptyMessage(S: Schema)
    requires FieldsOf(S, Histogram) == HISTOGRAM_FIELDS
    ensures Empty(S, Histogram) == Message7(0, 0, 0, 0, 0, [], [], [])
  {
    assert Empty(S, Histogram).slots == Message7(0, 0, 0, 0, 0, [], [], []).slots;
  }

  lemma MergeDouble(S: Schema, f: Field, a: int, b: int)
    requires f.rule.Implicit? && f.kind.Double?
    ensures MergeSlot(S, f, [Num(a)], [Num(b)]) == [Num(Replaced(a, b))]
  {
  }

  lemma MergeDoubles(S: Schema, f: Field, a: seq<int>, b: seq<int>)
    requires f.rule.Repeated? && Numeric(f.kind)
    ensures MergeSlot(S, f, Nums(a), Nums(b)) == Nums(a + b)
  {
    AdoptNumbers(S, f.kind, Nums(b));
    assert Nums(a + b) == Nums(a) + Nums(b);
  }

  lemma MergeMessages(S: Schema,
                      a0: int, a1: int, a2: int, a3: int, a4: int, a5: seq<int>, a6: seq<int>, a7: seq<Record>,
                      b0: int, b1: int, b2: int, b3: int, b4: int, b5: seq<int>, b6: seq<int>, b7: seq<Record>)
    requires FieldsOf(S, Histogram) == HISTOGRAM_FIELDS
    ensures Merge(S, Histogram, Message7(a0, a1, a2, a3, a4, a5, a6, a7), Message7(b0, b1, b2, b3, b4, b5, b6, b7))
         == Message7(Replaced(a0, b0), Replaced(a1, b1), Replaced(a2, b2), Replaced(a3, b3), Replaced(a4, b4), a5 + b5,
                     a6 + b6, a7 + b7)
  {
    var fs := HISTOGRAM_FIELDS;
    MergeDouble(S, fs[0], a0, b0);
    MergeDouble(S, fs[1], a1, b1);
    MergeDouble(S, fs[2], a2, b2);
    MergeDouble(S, fs[3], a3, b3);
    MergeDouble(S, fs[4], a4, b4);
    MergeDoubles(S, fs[5], a5, b5);
    MergeDoubles(S, fs[6], a6, b6);
    MergeBySlots(S, Histogram, Message7(a0, a1, a2, a3, a4, a5, a6, a7), Message7(b0, b1, b2, b3, b4, b5, b6, b7),
                 Message7(Replaced(a0, b0), Replaced(a1, b1), Replaced(a2, b2), Replaced(a3, b3), Replaced(a4, b4),
                          a5 + b5, a6 + b6, a7 + b7));
  }

  // ----------------------------------------------------- printing one field

  /** What is printed for a singular double: a tag byte and eight bytes, or nothing. */
  lemma DoubleBytes(S: Schema, f: Field, bits: word64)
    requires f.rule.Implicit? && f.kind.Double? && 1 <= f.num <= 15
    ensures FieldBytes(S, f, [Num(bits)]) == if NonZero(bits) then Encode(Record(f.num, Word64(bits))) else []
    ensures |FieldBytes(S, f, [Num(bits)])| == DoubleSize(bits)
  {
    hide FieldBytes, Encode, EncodeAll;
    SingleBytes(S, f, Num(bits));
    assert PayloadOf(S, f.kind, Num(bits)) == Word64(bits);
    EncodedSize(Record(f.num, Word64(bits)));
    OneTagByte(f.num, 1);
  }

  lemma DoublesBytes(S: Schema, f: Field, ns: seq<word64>)
    requires f.rule == Repeated(true) && f.kind.Double? && 1 <= f.num <= 15
    ensures FieldBytes(S, f, Nums(ns))
         == if ns == [] then [] else Encode(Record(f.num, Delimited(Pack(Double, Nums(ns)))))
    ensures |FieldBytes(S, f, Nums(ns))| == DoublesSize(ns)
  {
    PackedBytes(S, f, Nums(ns));
    PackedFixedSize(Double, Nums(ns));
    EncodedSize(Record(f.num, Delimited(Pack(Double, Nums(ns)))));
    OneTagByte(f.num, 2);
  }

  function DoubleSize(bits: word64): nat {
    if NonZero(bits) then 1 + 8 else 0
  }

  function DoublesSize(ns: seq<word64>): nat {
    if ns == [] then 0 else 1 + VarintSize(8 * |ns|) + 8 * |ns|
  }

  lemma SizesOfFields(S: Schema, m: Msg, a0: word64, a1: word64, a2: word64, a3: word64, a4: word64, a5: seq<word64>,
                      a6: seq<word64>)
    requires FieldsOf(S, Histogram) == HISTOGRAM_FIELDS && m == Message7(a0, a1, a2, a3, a4, a5, a6, m.unknown)
    ensures |Serialize(S, Histogram, m)|
         == DoublesSize(a5) + DoublesSize(a6) + DoubleSize(a0) + DoubleSize(a1) + DoubleSize(a2) + DoubleSize(a3)
            + DoubleSize(a4) + |EncodeAll(m.unknown)|
  {
    hide FieldBytes, Serialize, SizeFrom, DoubleSize, DoublesSize, Nums, EncodeAll;
    var fs := HISTOGRAM_FIELDS;
    DoubleBytes(S, fs[0], a0);
    DoubleBytes(S, fs[1], a1);
    DoubleBytes(S, fs[2], a2);
    DoubleBytes(S, fs[3], a3);
    DoubleBytes(S, fs[4], a4);
    DoublesBytes(S, fs[5], a5);
    DoublesBytes(S, fs[6], a6);
    SizeStart(S, Histogram, m);
    SizeStep(S, Histogram, m, 0);
    SizeStep(S, Histogram, m, 1);
    SizeStep(S, Histogram, m, 2);
    SizeStep(S, Histogram, m, 3);
    SizeStep(S, Histogram, m, 4);
    SizeStep(S, Histogram, m, 5);
    SizeStep(S, Histogram, m, 6);
    SizeEnd(S, Histogram, m);
  }

  lemma NoPrefixError(n: nat)
    requires n < TWO_TO_31
    ensures PrefixError(n) == 0
  {
    PrefixSizeIsExact(n);
  }

  /** The message descriptions say what this file's parser knows about its fields. */
  ghost predicate Describes(S: Schema) {
    WfSchema(S) && FieldsOf(S, Histogram) == HISTOGRAM_FIELDS
  }

  /** The repository's own tables are such. */
  lemma RepoDescribes()
    ensures Describes(Repo())
  {
    RepoIsWf();
    RepoFields(Histogram);
  }

  lemma {:induction false} NoCase(tag: nat)
    requires tag !in {9, 17, 25, 33, 41, 49, 50, 57, 58}
    ensures var i := Find(HISTOGRAM_FIELDS, tag / 8); i < 7 ==> !Takes(HISTOGRAM_FIELDS[i], tag % 8)
  {
    var i := Find(HISTOGRAM_FIELDS, tag / 8);
    if i < 7 { assert tag / 8 == i + 1; }
  }

  lemma SetSlotSame(m: Msg, i: nat)
    requires i < |m.slots|
    ensures SetSlot(m, i, At(m, i) + Nums([])) == m
  {
    assert At(m, i) + Nums([]) == At(m, i);
    assert SetSlot(m, i, At(m, i)).slots == m.slots;
  }

  /** The bit patterns a packed payload was unpacked to. */
  function Words(vs: seq<Value>): (ns: seq<word64>)
    requires forall v <- vs :: v.Num? && InRange(Double, v.n)
    ensures Nums(ns) == vs
  {
    if vs == [] then []
    else
      assert InRange(Double, vs[0].n) by { assert vs[0] in vs; }
      var n: word64 := vs[0].n;
      var ns: seq<word64> := [n];
      assert Nums(ns) == [vs[0]];
      ns + Words(vs[1..])
  }

  lemma UnpackedDoubles(d: bytes)
    ensures Unpack(Double, d).Some? ==> forall v <- Unpack(Double, d).value :: v.Num? && InRange(Double, v.n)
  {
    UnpackWf(map[], Field(1, Double, Repeated(true)), d);
  }

  lemma DoublesTurn(S: Schema, m: Msg, i: nat, tag: nat, b: bytes, b1: bytes)
    requires Describes(S) && |m.slots| == 7 && 5 <= i < 7 && b != [] && ReadTag(b) == Ok(tag, b1)
    ensures tag == Tag(i + 1, 1) ==>
              match ReadFixed(b1, 8)
              case Fail => Fails(S, Histogram, m, b)
              case Ok(v, rest) => StepsTo(S, Histogram, m, b, SetSlot(m, i, At(m, i) + [Num(v)]), rest)
    ensures tag == Tag(i + 1, 2) ==>
              match ReadDelimited(b1)
              case Fail => Fails(S, Histogram, m, b)
              case Ok(d, rest) =>
                match Unpack(Double, d)
                case None => Fails(S, Histogram, m, b)
                case Some(vs) => StepsTo(S, Histogram, m, b, SetSlot(m, i, At(m, i) + vs), rest)
  {
    var f := HISTOGRAM_FIELDS[i];
    if tag == Tag(i + 1, 1) {
      NumberTurn(S, Histogram, m, i, f, b, b1);
      match ReadFixed(b1, 8)
      case Fail =>
      case Ok(v, _) => StoreIsSetSlot(HISTOGRAM_FIELDS, m, i, At(m, i) + [Num(v)]);
    } else if tag == Tag(i + 1, 2) {
      PackedTurn(S, Histogram, m, i, f, b, b1);
      match ReadDelimited(b1)
      case Fail =>
      case Ok(d, _) =>
        match Unpack(Double, d)
        case None =>
        case Some(vs) => StoreIsSetSlot(HISTOGRAM_FIELDS, m, i, At(m, i) + vs);
    }
  }

  class HistogramProto {
    const S: Schema
    var min: word64
    var max: word64
    var num: word64
    var sum: word64
    var sumSquares: word64
    var bucketLimit: seq<word64>
    var bucket: seq<word64>
    var unknown: seq<Record>
    var bucketLimitCachedByteSize: int
    var bucketCachedByteSize: int
    var cachedSize: int

    function View(): Msg
      reads this
    {
      Message7(min, max, num, sum, sumSquares, bucketLimit, bucket, unknown)
    }

    ghost predicate Valid()
      reads this
    {
      Describes(S) && Wf(S, Histogram, View())
    }

    constructor (S: Schema)
      requires Describes(S)
      ensures Valid() && this.S == S && View() == Empty(S, Histogram)
    {
      this.S := S;
      min, max, num, sum, sumSquares := 0, 0, 0, 0, 0;
      bucketLimit, bucket, unknown := [], [], [];
      new;
      EmptyMessage(S);
      EmptyWf(S, Histogram);
    }

    method Clear()
      requires Valid()
      modifies this
      ensures Valid() && View() == Empty(S, Histogram)
    {
      bucketLimit, bucket := [], [];
      min, max, num, sum, sumSquares := 0, 0, 0, 0, 0;
      unknown := [];
      hide Message7, Empty, Wf;
      EmptyMessage(S);
      EmptyWf(S, Histogram);
    }

    method MergeFrom(from: HistogramProto)
      requires from != this && Valid() && from.Valid() && from.S == S
      modifies this
      ensures Valid() && View() == Merge(S, Histogram, old(View()), from.View())
    {
      hide Message7, Merge, Wf;
      MergeKeepsWf(S, Histogram, View(), from.View());
      MergeMessages(S, min, max, num, sum, sumSquares, bucketLimit, bucket, unknown,
                    from.min, from.max, from.num, from.sum, from.sumSquares, from.bucketLimit, from.bucket, from.unknown);
      unknown := unknown + from.unknown;
      bucketLimit := bucketLimit + from.bucketLimit;
      bucket := bucket + from.bucket;
      if NonZero(from.min) { min := from.min; }
      if NonZero(from.max) { max := from.max; }
      if NonZero(from.num) { num := from.num; }
      if NonZero(from.sum) { sum := from.sum; }
      if NonZero(from.sumSquares) { sumSquares := from.sumSquares; }
    }

    method CopyFrom(from: HistogramProto)
      requires Valid() && from.Valid() && from.S == S
      modifies this
      ensures Valid() && View() == if from == this then old(View()) else Copy(S, Histogram, old(from.View()))
    {
      if from == this { return; }
      Clear();
      MergeFrom(from);
    }

    /** The copy constructor: the singular fields are copied bit by bit. */
    constructor Clone(from: HistogramProto)
      requires from.Valid()
      ensures Valid() && S == from.S && View() == from.View()
    {
      S := from.S;
      bucketLimit, bucket, unknown := from.bucketLimit, from.bucket, from.unknown;
      min, max, num, sum, sumSquares := from.min, from.max, from.num, from.sum, from.sumSquares;
    }

    method ByteSizeLong() returns (totalSize: nat)
      requires Valid()
      modifies this`bucketLimitCachedByteSize, this`bucketCachedByteSize, this`cachedSize
      ensures Valid() && View() == old(View())
      ensures totalSize
           == |Serialize(S, Histogram, View())| + PrefixError(8 * |bucketLimit|) + PrefixError(8 * |bucket|)
      ensures |Serialize(S, Histogram, View())| < TWO_TO_31 ==> totalSize == |Serialize(S, Histogram, View())|
      ensures cachedSize == ToCachedSize(totalSize)
    {
      hide Serialize, EncodeAll, DoubleSize, DoublesSize, Message7, ToCachedSize, Wf, PrefixError;
      SizeIsSum();
      if 8 * |bucketLimit| < TWO_TO_31 { NoPrefixError(8 * |bucketLimit|); }
      if 8 * |bucket| < TWO_TO_31 { NoPrefixError(8 * |bucket|); }
      BucketsAreShorter();
      var cachedLimits, cachedBuckets;
      totalSize, cachedLimits := SizeOfBuckets(bucketLimit);
      var more;
      more, cachedBuckets := SizeOfBuckets(bucket);
      totalSize := totalSize + more;
      more := SizeOfSingular();
      totalSize := totalSize + more + |EncodeAll(unknown)|;
      bucketLimitCachedByteSize, bucketCachedByteSize := cachedLimits, cachedBuckets;
      cachedSize := ToCachedSize(totalSize);
    }

    method SizeOfBuckets(ns: seq<word64>) returns (size: nat, cached: int)
      ensures size == DoublesSize(ns) + PrefixError(8 * |ns|) && cached == ToCachedSize(8 * |ns|)
    {
      hide VarintSize, PrefixSize, ToCachedSize;
      NoPrefixError(0);
      size := 0;
      var dataSize := 8 * |ns|;
      if dataSize > 0 { size := size + 1 + PrefixSize(dataSize); }
      cached := ToCachedSize(dataSize);
      size := size + dataSize;
    }

    method SizeOfSingular() returns (size: nat)
      ensures size == DoubleSize(min) + DoubleSize(max) + DoubleSize(num) + DoubleSize(sum) + DoubleSize(sumSquares)
    {
      hide NonZero;
      size := 0;
      if NonZero(min) { size := size + 1 + 8; }
      if NonZero(max) { size := size + 1 + 8; }
      if NonZero(num) { size := size + 1 + 8; }
      if NonZero(sum) { size := size + 1 + 8; }
      if NonZero(sumSquares) { size := size + 1 + 8; }
    }

    lemma BucketsAreShorter()
      ensures DoublesSize(bucketLimit) >= 8 * |bucketLimit| && DoublesSize(bucket) >= 8 * |bucket|
    {
    }

    lemma SizeIsSum()
      requires Describes(S)
      ensures |Serialize(S, Histogram, View())|
           == DoublesSize(bucketLimit) + DoublesSize(bucket) + DoubleSize(min) + DoubleSize(max) + DoubleSize(num)
              + DoubleSize(sum) + DoubleSize(sumSquares) + |EncodeAll(unknown)|
    {
      SizesOfFields(S, View(), min, max, num, sum, sumSquares, bucketLimit, bucket);
    }

    method InternalSerialize() returns (target: bytes)
      requires Valid()
      ensures target == Serialize(S, Histogram, View())
    {
      hide Serialize, Tail, EncodeAll, Encode, FieldBytes;
      var m := View();
      target := [];
      PrintStart(S, Histogram, m);
      target := PrintDouble(m, 0, min, target);
      target := PrintDouble(m, 1, max, target);
      target := PrintDouble(m, 2, num, target);
      target := PrintDouble(m, 3, sum, target);
      target := PrintDouble(m, 4, sumSquares, target);
      target := PrintDoubles(m, 5, bucketLimit, target);
      target := PrintDoubles(m, 6, bucket, target);
      PrintEnd(S, Histogram, m, target);
      target := target + EncodeAll(unknown);
    }

    method PrintDouble(ghost m: Msg, i: nat, bits: word64, target: bytes) returns (target': bytes)
      requires i < 5 && Describes(S) && |m.slots| == 7 && m.slots[i].vs == [Num(bits)]
      requires PrintedUpto(S, Histogram, m, i, target)
      ensures PrintedUpto(S, Histogram, m, i + 1, target')
    {
      hide Serialize, Tail, EncodeAll, Encode, FieldBytes, DoubleSize;
      DoubleBytes(S, HISTOGRAM_FIELDS[i], bits);
      PrintStep(S, Histogram, m, i, target, FieldBytes(S, HISTOGRAM_FIELDS[i], [Num(bits)]));
      target' := target;
      if NonZero(bits) { target' := target' + Encode(Record(i + 1, Word64(bits))); }
    }

    method PrintDoubles(ghost m: Msg, i: nat, ns: seq<word64>, target: bytes) returns (target': bytes)
      requires 5 <= i < 7 && Describes(S) && |m.slots| == 7 && m.slots[i].vs == Nums(ns)
      requires PrintedUpto(S, Histogram, m, i, target)
      ensures PrintedUpto(S, Histogram, m, i + 1, target')
    {
      hide Serialize, Tail, EncodeAll, Encode, FieldBytes, Pack, Nums, DoublesSize;
      DoublesBytes(S, HISTOGRAM_FIELDS[i], ns);
      PrintStep(S, Histogram, m, i, target, FieldBytes(S, HISTOGRAM_FIELDS[i], Nums(ns)));
      target' := target;
      if |ns| > 0 { target' := target' + Encode(Record(i + 1, Delimited(Pack(Double, Nums(ns))))); }
    }

    /** The dispatch loop.  What a failed parse leaves behind is only said to be well formed. */
    method InternalParse(input: bytes) returns (ok: bool)
      requires Valid()
      modifies this
      ensures Valid()
      ensures ok <==> ParseInto(S, Histogram, old(View()), input).Some?
      ensures ok ==> Some(View()) == ParseInto(S, Histogram, old(View()), input)
    {
      hide Wf, View, WfSchema;
      var rest := input;
      while rest != []
        invariant Valid()
        invariant ParseInto(S, Histogram, View(), rest) == ParseInto(S, Histogram, old(View()), input)
        decreases |rest|
      {
        match ReadTag(rest) {
          case Fail =>
            ReadFailureFails(S, Histogram, View(), rest);
            return false;
          case Ok(tag, b1) =>
            ok, rest := ParseField(rest, tag, b1);
            if !ok { return false; }
        }
      }
      ok := true;
    }

    method ParseField(ghost b: bytes, tag: nat, b1: bytes) returns (ok: bool, rest: bytes)
      requires Valid() && b != [] && ReadTag(b) == Ok(tag, b1)
      modifies this
      ensures Valid() && Handled(S, Histogram, ok, old(View()), b, View(), rest)
    {
      hide Wf, Describes, StepsTo, Fails, ParseInto, ReadTag, Nums;
      match tag / 8 {
        case 1 =>
          if tag % 256 == 9 {
            var v;
            ok, v, rest := ReadDouble(0, b, b1);
            min := v;
            assert View().slots == old(View()).slots[0 := Slot([Num(v)])];
            return;
          }
        case 2 =>
          if tag % 256 == 17 {
            var v;
            ok, v, rest := ReadDouble(1, b, b1);
            max := v;
            assert View().slots == old(View()).slots[1 := Slot([Num(v)])];
            return;
          }
        case 3 =>
          if tag % 256 == 25 {
            var v;
            ok, v, rest := ReadDouble(2, b, b1);
            num := v;
            assert View().slots == old(View()).slots[2 := Slot([Num(v)])];
            return;
          }
        case 4 =>
          if tag % 256 == 33 {
            var v;
            ok, v, rest := ReadDouble(3, b, b1);
            sum := v;
            assert View().slots == old(View()).slots[3 := Slot([Num(v)])];
            return;
          }
        case 5 =>
          if tag % 256 == 41 {
            var v;
            ok, v, rest := ReadDouble(4, b, b1);
            sumSquares := v;
            assert View().slots == old(View()).slots[4 := Slot([Num(v)])];
            return;
          }
        case 6 =>
          if tag % 256 == 50 || tag % 256 == 49 {
            var ns;
            ok, ns, rest := ReadDoubles(5, tag, b, b1);
            bucketLimit := bucketLimit + ns;
            assert Nums(bucketLimit) == Nums(old(bucketLimit)) + Nums(ns);
            assert View().slots == old(View()).slots[5 := Slot(Nums(bucketLimit))];
            return;
          }
        case 7 =>
          if tag % 256 == 58 || tag % 256 == 57 {
            var ns;
            ok, ns, rest := ReadDoubles(6, tag, b, b1);
            bucket := bucket + ns;
            assert Nums(bucket) == Nums(old(bucket)) + Nums(ns);
            assert View().slots == old(View()).slots[6 := Slot(Nums(bucket))];
            return;
          }
        case _ =>
      }
      ok, rest := ParseUnknown(b, tag, b1);
    }

    method ReadDouble(i: nat, ghost b: bytes, b1: bytes) returns (ok: bool, v: word64, rest: bytes)
      requires Valid() && i < 5 && b != [] && ReadTag(b) == Ok(Tag(i + 1, 1), b1)
      ensures Handled(S, Histogram, ok, View(), b, SetSlot(View(), i, [Num(v)]), rest)
      ensures Wf(S, Histogram, SetSlot(View(), i, [Num(v)]))
    {
      hide Wf, StepsTo, Fails, ReadTag;
      ok, v, rest := ReadNumber(S, Histogram, View(), i, HISTOGRAM_FIELDS[i], b, b1);
    }

    method ParseUnknown(ghost b: bytes, tag: nat, b1: bytes) returns (ok: bool, rest: bytes)
      requires Valid() && b != [] && ReadTag(b) == Ok(tag, b1)
      requires tag !in {9, 17, 25, 33, 41, 49, 50, 57, 58}
      modifies this`unknown
      ensures Handled(S, Histogram, ok, old(View()), b, View(), rest)
      ensures Valid()
    {
      hide Wf, StepsTo, Fails, ReadTag;
      var more;
      NoCase(tag);
      ok, more, rest := ReadUnknown(S, Histogram, View(), b, tag, b1);
      unknown := unknown + more;
    }

    method ReadDoubles(ghost i: nat, tag: nat, ghost b: bytes, b1: bytes) returns (ok: bool, ns: seq<word64>,
                       rest: bytes)
      requires Valid() && 5 <= i < 7 && b != [] && ReadTag(b) == Ok(tag, b1)
      requires tag == Tag(i + 1, 1) || tag == Tag(i + 1, 2)
      ensures Handled(S, Histogram, ok, View(), b, SetSlot(View(), i, At(View(), i) + Nums(ns)), rest)
      ensures Wf(S, Histogram, SetSlot(View(), i, At(View(), i) + Nums(ns)))
    {
      hide Wf, ParseInto, ReadTag, ReadDelimited, Unpack;
      DoublesTurn(S, View(), i, tag, b, b1);
      SetSlotSame(View(), i);
      ok, ns, rest := false, [], b1;
      if tag % 8 == 2 {
        match ReadDelimited(b1) {
          case Fail =>
          case Ok(d, rest') =>
            UnpackedDoubles(d);
            match Unpack(Double, d) {
              case None =>
              case Some(vs) => ok, ns, rest := true, Words(vs), rest';
            }
        }
      } else {
        match ReadFixed(b1, 8) {
          case Fail =>
          case Ok(bits, rest') =>
            FixedValueBound(b1, 8);
            ok, ns, rest := true, [bits], rest';
            assert Nums(ns) == [Num(bits)];
        }
      }
    }
  }
}
