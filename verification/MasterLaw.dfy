/** The law the code is for: parsing what one message prints into another message merges the two. */
module MasterLaw {
  import opened Wire
  import Utf8
  import opened Schemas
  import opened Messages
  import opened Codec

  // -------------------------------------------- a printed list is read as a list

  ghost predicate AllFit(rs: seq<Record>) {
    forall r <- rs :: Fits(r)
  }

  ghost predicate AllValid(rs: seq<Record>) {
    forall r <- rs :: ValidRecord(r)
  }

  lemma ParseOneRecord(S: Schema, t: MessageType, m: Msg, r: Record, rest: bytes)
    requires ValidRecord(r)
    ensures ParseInto(S, t, m, Encode(r) + rest)
         == if !Fits(r) then None
            else match Apply(S, t, m, r) case None => None case Some(m') => ParseInto(S, t, m', rest)
  {
    ReadRecordOfEncode(r, rest);
    assert Encode(r) + rest != [];
  }

  lemma AllFitCons(rs: seq<Record>)
    requires rs != []
    ensures AllFit(rs) <==> Fits(rs[0]) && AllFit(rs[1..])
  {
    assert rs == [rs[0]] + rs[1..];
  }

  /** Parsing a printed record list applies the records one by one, or fails at the first record
      whose length prefix cannot be read back. */
  lemma {:induction false} ParseOfEncodeAll(S: Schema, t: MessageType, m: Msg, rs: seq<Record>)
    requires AllValid(rs)
    ensures ParseInto(S, t, m, EncodeAll(rs)) == if AllFit(rs) then ApplyAll(S, t, m, rs) else None
    decreases |rs|
  {
    if rs != [] {
      AllFitCons(rs);
      ParseOneRecord(S, t, m, rs[0], EncodeAll(rs[1..]));
      match Apply(S, t, m, rs[0])
      case None =>
      case Some(m') => ParseOfEncodeAll(S, t, m', rs[1..]);
    }
  }

  lemma {:induction false} ApplyAllConcat(S: Schema, t: MessageType, m: Msg, a: seq<Record>, b: seq<Record>)
    ensures ApplyAll(S, t, m, a + b)
         == match ApplyAll(S, t, m, a) case None => None case Some(m') => ApplyAll(S, t, m', b)
    decreases |a|
  {
    if a == [] {
      assert a + b == b;
    } else {
      assert (a + b)[1..] == a[1..] + b;
      match Apply(S, t, m, a[0])
      case None =>
      case Some(m') => ApplyAllConcat(S, t, m', a[1..], b);
    }
  }

  lemma {:induction false} UnknownsAreKept(S: Schema, t: MessageType, m: Msg, rs: seq<Record>)
    requires forall r <- rs :: Unrecognized(FieldsOf(S, t), r)
    ensures ApplyAll(S, t, m, rs) == Some(m.(unknown := m.unknown + rs))
    decreases |rs|
  {
    if rs == [] {
      assert m.unknown + rs == m.unknown;
    } else {
      var m' := m.(unknown := m.unknown + [rs[0]]);
      assert Unrecognized(FieldsOf(S, t), rs[0]);
      assert Apply(S, t, m, rs[0]) == Some(m');
      UnknownsAreKept(S, t, m', rs[1..]);
      assert m'.unknown + rs[1..] == m.unknown + rs by { assert rs == [rs[0]] + rs[1..]; }
    }
  }

  // ---------------------------------------------------- what can be read back

  /** The parser accepts what is printed for `m`: every length prefix is short enough and every
      string that is checked encodes a sequence of Unicode scalar values, at every depth. */
  ghost predicate Readable(S: Schema, t: MessageType, m: Msg)
    decreases m
  {
    && AllFit(Records(S, t, m))
    && forall i :: 0 <= i < |m.slots| && i < |FieldsOf(S, t)| ==> SoundSlot(S, FieldsOf(S, t)[i], m.slots[i].vs)
  }

  ghost predicate SoundSlot(S: Schema, f: Field, vs: seq<Value>)
    decreases vs
  {
    forall j :: 0 <= j < |vs| ==> Sound(S, f.kind, vs[j])
  }

  ghost predicate Sound(S: Schema, k: Kind, v: Value)
    decreases v
  {
    match v
    case Num(_) => true
    case Data(d) => k == Text(true) ==> Utf8.IsText(d)
    case Sub(m) => k.Message? ==> Readable(S, k.target, m)
  }

  // ----------------------------------------------------------- packed payloads

  /** The number a packed element stands for. */
  function Unpacked(k: Kind, v: nat): int {
    if k.Float? || k.Double? then v else FromWire(k, v)
  }

  /** What is written for it. */
  function Packed(k: Kind, n: int): nat {
    if k.Float? then n % TWO_TO_32 else if k.Double? then n % TWO_TO_64 else ToWire(n)
  }

  lemma UnpackedOfPacked(k: Kind, n: int)
    requires Numeric(k) && InRange(k, n) && (k.ClosedEnum? ==> k.last < TWO_TO_31)
    ensures Unpacked(k, Packed(k, n)) == n
  {
    if !k.Float? && !k.Double? { WireRoundTrip(k, n); }
  }

  lemma ReadOnePacked(k: Kind, n: int, rest: bytes)
    ensures ReadOne(k, PackOne(k, n) + rest) == Ok(Packed(k, n), rest)
  {
    if k.Float? {
      ReadFixed32Of(n % TWO_TO_32, rest);
    } else if k.Double? {
      ReadFixed64Of(n % TWO_TO_64, rest);
    } else {
      ReadVarintOf(ToWire(n), rest);
    }
  }

  lemma {:induction false} UnpackOfPack(S: Schema, f: Field, vs: seq<Value>)
    requires WfField(f) && Numeric(f.kind)
    requires forall v <- vs :: WfValue(S, f.kind, v)
    ensures Unpack(f.kind, Pack(f.kind, vs)) == Some(vs)
    decreases |vs|
  {
    if vs != [] {
      assert WfValue(S, f.kind, vs[0]);
      var n, rest := vs[0].n, Pack(f.kind, vs[1..]);
      UnpackOfPack(S, f, vs[1..]);
      ReadOnePacked(f.kind, n, rest);
      UnpackedOfPacked(f.kind, n);
      UnpackStep(f.kind, PackOne(f.kind, n) + rest);
      assert vs == [vs[0]] + vs[1..];
    }
  }

  lemma UnpackStep(k: Kind, b: bytes)
    requires b != [] && ReadOne(k, b).Ok?
    ensures Unpack(k, b)
         == match Unpack(k, ReadOne(k, b).rest)
            case None => None
            case Some(vs) => Some([Num(Unpacked(k, ReadOne(k, b).value))] + vs)
  {
  }

  // ------------------------------------------------------------- the main law

  /** Reading back one printed value. */
  lemma {:induction false} DecodeOfPrinted(S: Schema, f: Field, had: seq<Value>, v: Value)
    requires WfSchema(S) && WfField(f) && WfValue(S, f.kind, v)
    requires f.kind.Message? && had != [] ==> WfValue(S, f.kind, had[0])
    ensures Decode(S, f, had, PayloadOf(S, f.kind, v))
         == if Sound(S, f.kind, v)
            then Values([Adopt(S, f.kind, if f.rule.Repeated? then [] else had, v)])
            else Malformed
    decreases v, 0
  {
    match v
    case Num(n) =>
      if !f.kind.Float? && !f.kind.Double? { WireRoundTrip(f.kind, n); }
    case Data(d) => Utf8.ValidIffText(d);
    case Sub(m) =>
      var t := f.kind.target;
      var base := Base(S, t, if f.rule.Repeated? then [] else had);
      EmptyWf(S, t);
      ParseOfSerialize(S, t, base, m);
  }

  /** `m` with `ws` added to repeated field `i`. */
  function Append(fs: seq<Field>, m: Msg, i: nat, ws: seq<Value>): Msg {
    Store(fs, m, i, At(m, i) + ws)
  }

  lemma AppendNothing(fs: seq<Field>, m: Msg, i: nat)
    requires i < |fs| && !fs[i].rule.Oneof?
    ensures Append(fs, m, i, []) == m
  {
    assert At(m, i) + [] == At(m, i);
    assert Append(fs, m, i, []).slots == m.slots;
  }

  lemma AppendTwice(fs: seq<Field>, m: Msg, i: nat, vs: seq<Value>, ws: seq<Value>)
    ensures Append(fs, Append(fs, m, i, vs), i, ws) == Append(fs, m, i, vs + ws)
  {
    assert i < |m.slots| ==> At(m, i) + vs + ws == At(m, i) + (vs + ws);
    assert Append(fs, Append(fs, m, i, vs), i, ws).slots == Append(fs, m, i, vs + ws).slots;
  }

  /** One printed element of a repeated field appends one value. */
  lemma {:induction false} ApplyElement(S: Schema, t: MessageType, m: Msg, i: nat, v: Value)
    requires WfSchema(S) && i < |FieldsOf(S, t)|
    requires var f := FieldsOf(S, t)[i]; f.rule.Repeated? && WfValue(S, f.kind, v)
    ensures var fs := FieldsOf(S, t);
      Apply(S, t, m, Record(fs[i].num, PayloadOf(S, fs[i].kind, v)))
      == if Sound(S, fs[i].kind, v) then Some(Append(fs, m, i, [Adopt(S, fs[i].kind, [], v)])) else None
    decreases v, 1
  {
    var f := FieldsOf(S, t)[i];
    FindAt(FieldsOf(S, t), i);
    DecodeOfPrinted(S, f, [], v);
    DecodeIgnoresContent(S, f, At(m, i), [], PayloadOf(S, f.kind, v));
  }

  /** The records of one repeated field append its values. */
  lemma {:induction false} ApplyElements(S: Schema, t: MessageType, m: Msg, i: nat, vs: seq<Value>)
    requires WfSchema(S) && i < |FieldsOf(S, t)|
    requires var f := FieldsOf(S, t)[i]; f.rule.Repeated? && (forall v <- vs :: WfValue(S, f.kind, v))
    ensures var fs := FieldsOf(S, t);
      ApplyAll(S, t, m, ElementRecords(S, fs[i], vs))
      == if SoundSlot(S, fs[i], vs) then Some(Append(fs, m, i, AdoptAll(S, fs[i].kind, vs))) else None
    decreases vs, 2
  {
    var fs := FieldsOf(S, t);
    var f := fs[i];
    if vs == [] {
      AppendNothing(fs, m, i);
    } else {
      var w := Adopt(S, f.kind, [], vs[0]);
      ApplyElement(S, t, m, i, vs[0]);
      SoundSlotCons(S, f, vs);
      ApplyCons(S, t, m, Record(f.num, PayloadOf(S, f.kind, vs[0])), ElementRecords(S, f, vs[1..]));
      ApplyElements(S, t, Append(fs, m, i, [w]), i, vs[1..]);
      AppendTwice(fs, m, i, [w], AdoptAll(S, f.kind, vs[1..]));
    }
  }

  lemma ApplyCons(S: Schema, t: MessageType, m: Msg, r: Record, rs: seq<Record>)
    ensures ApplyAll(S, t, m, [r] + rs)
         == match Apply(S, t, m, r) case None => None case Some(m') => ApplyAll(S, t, m', rs)
  {
    assert ([r] + rs)[1..] == rs;
  }

  lemma SoundSlotCons(S: Schema, f: Field, vs: seq<Value>)
    requires vs != []
    ensures SoundSlot(S, f, vs) <==> Sound(S, f.kind, vs[0]) && SoundSlot(S, f, vs[1..])
  {
    assert vs == [vs[0]] + vs[1..];
  }

  lemma DecodeIgnoresContent(S: Schema, f: Field, had: seq<Value>, had': seq<Value>, p: Payload)
    requires f.rule.Repeated?
    ensures Decode(S, f, had, p) == Decode(S, f, had', p)
  {
  }

  /** The one record of a packed field appends its values. */
  lemma {:induction false} ApplyPacked(S: Schema, t: MessageType, m: Msg, i: nat, vs: seq<Value>)
    requires WfSchema(S) && i < |FieldsOf(S, t)|
    requires var f := FieldsOf(S, t)[i]; f.rule == Repeated(true) && (forall v <- vs :: WfValue(S, f.kind, v))
    ensures var fs := FieldsOf(S, t);
      ApplyAll(S, t, m, [Record(fs[i].num, Delimited(Pack(fs[i].kind, vs)))]) == Some(Append(fs, m, i, vs))
  {
    var f := FieldsOf(S, t)[i];
    FindAt(FieldsOf(S, t), i);
    UnpackOfPack(S, f, vs);
    OneRecord(S, t, m, Record(f.num, Delimited(Pack(f.kind, vs))));
  }

  /** The one record of a singular field sets it. */
  lemma {:induction false} ApplySingle(S: Schema, t: MessageType, m: Msg, i: nat, v: Value)
    requires WfSchema(S) && i < |FieldsOf(S, t)|
    requires var f := FieldsOf(S, t)[i];
      && !f.rule.Repeated? && WfValue(S, f.kind, v)
      && (f.kind.Message? && At(m, i) != [] ==> WfValue(S, f.kind, At(m, i)[0]))
    ensures var fs := FieldsOf(S, t);
      ApplyAll(S, t, m, ElementRecords(S, fs[i], [v]))
      == if Sound(S, fs[i].kind, v) then Some(Store(fs, m, i, [Adopt(S, fs[i].kind, At(m, i), v)])) else None
    decreases v, 1
  {
    var f := FieldsOf(S, t)[i];
    FindAt(FieldsOf(S, t), i);
    DecodeOfPrinted(S, f, At(m, i), v);
    var r := Record(f.num, PayloadOf(S, f.kind, v));
    assert ElementRecords(S, f, [v]) == [r] + ElementRecords(S, f, []);
    OneRecord(S, t, m, r);
  }

  /** The records of one field, whatever its kind, merge its values into a message. */
  lemma {:induction false} ApplySlot(S: Schema, t: MessageType, m: Msg, k: nat, vs: seq<Value>)
    requires WfSchema(S) && k < |FieldsOf(S, t)| && k < |m.slots| && WfSlot(S, FieldsOf(S, t)[k], vs)
    requires FieldsOf(S, t)[k].kind.Message? && At(m, k) != [] ==> WfValue(S, FieldsOf(S, t)[k].kind, At(m, k)[0])
    ensures var fs := FieldsOf(S, t);
      ApplyAll(S, t, m, SlotRecords(S, fs[k], vs))
      == if !SoundSlot(S, fs[k], vs) then None
         else if vs == [] then Some(m)
         else Some(Store(fs, m, k, MergeSlot(S, fs[k], At(m, k), vs)))
    decreases vs, 3
  {
    var fs := FieldsOf(S, t);
    var f := fs[k];
    if vs == [] {
    } else if f.rule.Implicit? && IsZero(f.kind, vs[0]) {
      Utf8.ValidIffText([]);
      AppendNothing(fs, m, k);
      assert At(m, k) + [] == At(m, k);
    } else if f.rule == Repeated(true) {
      ApplyPacked(S, t, m, k, vs);
      AdoptNumbers(S, f.kind, vs);
    } else if f.rule.Repeated? {
      ApplyElements(S, t, m, k, vs);
    } else {
      assert vs == [vs[0]];
      ApplySingle(S, t, m, k, vs[0]);
    }
  }

  lemma OneRecord(S: Schema, t: MessageType, m: Msg, r: Record)
    ensures ApplyAll(S, t, m, [r]) == Apply(S, t, m, r)
  {
  }

  lemma {:induction false} AdoptNumbers(S: Schema, k: Kind, vs: seq<Value>)
    requires Numeric(k)
    ensures AdoptAll(S, k, vs) == vs
  {
  }

  lemma EvictedStep(fs: seq<Field>, b: Msg, k: nat, j: nat)
    ensures Evicted(fs, b, k + 1, j) <==> Evicted(fs, b, k, j) || (Siblings(fs, k, j) && At(b, k) != [])
  {
  }

  lemma {:induction false} MergedSlotStep(S: Schema, t: MessageType, a: Msg, b: Msg, k: nat, j: nat)
    requires Wf(S, t, a) && Wf(S, t, b) && k < |FieldsOf(S, t)| && j < |FieldsOf(S, t)|
    ensures var fs := FieldsOf(S, t);
      var vs := b.slots[k].vs;
      MergedSlot(S, fs, a, b, k + 1, j)
      == if vs != [] && j == k then MergeSlot(S, fs[k], MergedSlot(S, fs, a, b, k, k), vs)
         else if vs != [] && Siblings(fs, k, j) then []
         else MergedSlot(S, fs, a, b, k, j)
  {
    EvictedStep(FieldsOf(S, t), b, k, j);
  }

  /** How one more field changes the partial merge. */
  lemma {:induction false} MergeUptoStep(S: Schema, t: MessageType, a: Msg, b: Msg, k: nat)
    requires Wf(S, t, a) && Wf(S, t, b) && k < |FieldsOf(S, t)|
    ensures var fs := FieldsOf(S, t);
      var m := MergeUpto(S, t, a, b, k);
      var vs := b.slots[k].vs;
      && MergeUpto(S, t, a, b, k + 1)
         == (if vs == [] then m else Store(fs, m, k, MergeSlot(S, fs[k], m.slots[k].vs, vs)))
      && (m.slots[k].vs == a.slots[k].vs || m.slots[k].vs == [])
      && (fs[k].rule.Oneof? || m.slots[k].vs == a.slots[k].vs)
  {
    var fs := FieldsOf(S, t);
    var m := MergeUpto(S, t, a, b, k);
    var vs := b.slots[k].vs;
    var m' := if vs == [] then m else Store(fs, m, k, MergeSlot(S, fs[k], m.slots[k].vs, vs));
    forall j: nat | j < |fs| ensures MergeUpto(S, t, a, b, k + 1).slots[j] == m'.slots[j] {
      MergedSlotStep(S, t, a, b, k, j);
    }
    assert MergeUpto(S, t, a, b, k + 1).slots == m'.slots;
  }

  /** The records of field `k` carry the merge from the first `k` fields on to the next one. */
  lemma {:induction false} ApplyField(S: Schema, t: MessageType, a: Msg, b: Msg, k: nat)
    requires WfSchema(S) && Wf(S, t, a) && Wf(S, t, b) && k < |FieldsOf(S, t)|
    ensures var f := FieldsOf(S, t)[k];
      ApplyAll(S, t, MergeUpto(S, t, a, b, k), SlotRecords(S, f, b.slots[k].vs))
      == if SoundSlot(S, f, b.slots[k].vs) then Some(MergeUpto(S, t, a, b, k + 1)) else None
    decreases b, 0
  {
    var f := FieldsOf(S, t)[k];
    MergeUptoStep(S, t, a, b, k);
    assert WfSlot(S, f, b.slots[k].vs) && WfSlot(S, f, a.slots[k].vs);
    ApplySlot(S, t, MergeUpto(S, t, a, b, k), k, b.slots[k].vs);
  }

  /** From field `k` on. */
  lemma {:induction false} ApplyFields(S: Schema, t: MessageType, a: Msg, b: Msg, k: nat)
    requires WfSchema(S) && Wf(S, t, a) && Wf(S, t, b) && k <= |FieldsOf(S, t)|
    ensures var fs := FieldsOf(S, t);
      ApplyAll(S, t, MergeUpto(S, t, a, b, k), RecordsFrom(S, fs, b, k))
      == if forall i :: k <= i < |fs| ==> SoundSlot(S, fs[i], b.slots[i].vs)
         then Some(MergeUpto(S, t, a, b, |fs|)) else None
    decreases b, 1, |FieldsOf(S, t)| - k
  {
    hide SlotRecords, SoundSlot, MergeUpto, Apply, WfSlot, Unrecognized, Siblings;
    var fs := FieldsOf(S, t);
    if k < |fs| {
      ApplyAllConcat(S, t, MergeUpto(S, t, a, b, k), SlotRecords(S, fs[k], b.slots[k].vs),
                     RecordsFrom(S, fs, b, k + 1));
      ApplyField(S, t, a, b, k);
      ApplyFields(S, t, a, b, k + 1);
    }
  }

  lemma MergeUptoZero(S: Schema, t: MessageType, a: Msg, b: Msg)
    ensures MergeUpto(S, t, a, b, 0) == a
  {
    assert MergeUpto(S, t, a, b, 0).slots == a.slots;
  }

  /** Printed records are valid. */
  lemma {:induction false} PrintedValid(S: Schema, t: MessageType, m: Msg)
    requires WfSchema(S) && Wf(S, t, m)
    ensures AllValid(Records(S, t, m))
  {
    FieldsPrintedValid(S, t, m, 0);
  }

  lemma {:induction false} FieldsPrintedValid(S: Schema, t: MessageType, m: Msg, k: nat)
    requires WfSchema(S) && Wf(S, t, m) && k <= |FieldsOf(S, t)|
    ensures AllValid(RecordsFrom(S, FieldsOf(S, t), m, k))
    decreases |FieldsOf(S, t)| - k
  {
    var fs := FieldsOf(S, t);
    if k < |fs| {
      FieldsPrintedValid(S, t, m, k + 1);
      ElementsPrintedValid(S, fs[k], m.slots[k].vs);
    }
  }

  lemma {:induction false} ElementsPrintedValid(S: Schema, f: Field, vs: seq<Value>)
    requires WfField(f)
    ensures AllValid(ElementRecords(S, f, vs))
    decreases |vs|
  {
    if vs != [] { ElementsPrintedValid(S, f, vs[1..]); }
  }

  /** Master law, for every well-formed message description: `ParseInto(a, Serialize(b))` is
      `Merge(a, b)`, unknown fields included, and it is refused exactly when `b` holds a checked
      string that is not UTF-8 or a value too long for its length prefix. */
  lemma {:induction false} ParseOfSerialize(S: Schema, t: MessageType, a: Msg, b: Msg)
    requires WfSchema(S) && Wf(S, t, a) && Wf(S, t, b)
    ensures ParseInto(S, t, a, Serialize(S, t, b)) == if Readable(S, t, b) then Some(Merge(S, t, a, b)) else None
    decreases b, 2
  {
    var fs := FieldsOf(S, t);
    PrintedValid(S, t, b);
    ParseOfEncodeAll(S, t, a, Records(S, t, b));
    ApplyAllConcat(S, t, a, RecordsFrom(S, fs, b, 0), b.unknown);
    MergeUptoZero(S, t, a, b);
    ApplyFields(S, t, a, b, 0);
    UnknownsAreKept(S, t, MergeUpto(S, t, a, b, |fs|), b.unknown);
  }
}
