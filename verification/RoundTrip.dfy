/** Round trip and normal form, derived from the master law. */
module RoundTrip {
  import opened Wire
  import Utf8
  import opened Schemas
  import opened Messages
  import opened Codec
  import opened MasterLaw
  import opened NormalForm

  // ------------------------------------------------------------ canonical form

  /** No singular proto3 field, at any depth, holds a negative zero. */
  ghost predicate Canonical(S: Schema, t: MessageType, m: Msg)
    decreases m
  {
    forall i :: 0 <= i < |m.slots| && i < |FieldsOf(S, t)| ==> CanonicalSlot(S, FieldsOf(S, t)[i], m.slots[i].vs)
  }

  ghost predicate CanonicalSlot(S: Schema, f: Field, vs: seq<Value>)
    decreases vs
  {
    forall j :: 0 <= j < |vs| ==>
      && (f.rule.Implicit? ==> !NegativeZero(f.kind, vs[j]))
      && CanonicalValue(S, f.kind, vs[j])
  }

  ghost predicate CanonicalValue(S: Schema, k: Kind, v: Value)
    decreases v
  {
    v.Sub? && k.Message? ==> Canonical(S, k.target, v.m)
  }

  /** The zero test holds of the default value and of a negative zero, and of nothing else. */
  lemma ZeroTest(S: Schema, k: Kind, v: Value)
    requires WfValue(S, k, v) && !k.Message?
    ensures IsZero(k, v) <==> v == Default(k) || NegativeZero(k, v)
    ensures v == Default(k) ==> !NegativeZero(k, v)
  {
  }

  // ---------------------------------------------- merging into an empty message

  /** A copy made by Clear and MergeFrom. */
  function Copy(S: Schema, t: MessageType, m: Msg): Msg {
    Merge(S, t, Empty(S, t), m)
  }

  /** The content of field `f` in an empty message. */
  function Fresh(f: Field): seq<Value> {
    if f.rule.Implicit? then [Default(f.kind)] else []
  }

  lemma {:induction false} CopyAt(S: Schema, t: MessageType, m: Msg, j: nat)
    requires |m.slots| == |FieldsOf(S, t)| && j < |m.slots|
    ensures var c := Copy(S, t, m);
      && |c.slots| == |m.slots| && c.unknown == m.unknown
      && c.slots[j].vs == MergeSlot(S, FieldsOf(S, t)[j], Fresh(FieldsOf(S, t)[j]), m.slots[j].vs)
  {
    MergeAt(S, t, Empty(S, t), m, j);
    assert [] + m.unknown == m.unknown;
  }

  /** A copy prints the same record for every value ... */
  lemma {:induction false} CopiedValuePrintsTheSame(S: Schema, f: Field, v: Value)
    requires WfSchema(S) && WfValue(S, f.kind, v)
    ensures PayloadOf(S, f.kind, Adopt(S, f.kind, [], v)) == PayloadOf(S, f.kind, v)
    decreases v, 0
  {
    if v.Sub? { CopyPrintsTheSame(S, f.kind.target, v.m); }
  }

  lemma {:induction false} CopiedElementsPrintTheSame(S: Schema, f: Field, vs: seq<Value>)
    requires WfSchema(S) && forall v <- vs :: WfValue(S, f.kind, v)
    ensures ElementRecords(S, f, AdoptAll(S, f.kind, vs)) == ElementRecords(S, f, vs)
    decreases vs, 1
  {
    if vs != [] {
      CopiedValuePrintsTheSame(S, f, vs[0]);
      CopiedElementsPrintTheSame(S, f, vs[1..]);
      assert AdoptAll(S, f.kind, vs)[1..] == AdoptAll(S, f.kind, vs[1..]);
    }
  }

  /** ... for every field ... */
  lemma {:induction false} CopiedSlotPrintsTheSame(S: Schema, f: Field, vs: seq<Value>)
    requires WfSchema(S) && WfField(f) && WfSlot(S, f, vs)
    ensures SlotRecords(S, f, MergeSlot(S, f, Fresh(f), vs)) == SlotRecords(S, f, vs)
    decreases vs, 2
  {
    if vs != [] {
      if f.rule == Repeated(true) {
        AdoptNumbers(S, f.kind, vs);
        assert [] + vs == vs;
      } else if f.rule.Repeated? {
        CopiedElementsPrintTheSame(S, f, vs);
        assert [] + AdoptAll(S, f.kind, vs) == AdoptAll(S, f.kind, vs);
      } else {
        assert vs == [vs[0]];
        CopiedValuePrintsTheSame(S, f, vs[0]);
        assert AdoptAll(S, f.kind, vs) == [Adopt(S, f.kind, [], vs[0])];
        CopiedElementsPrintTheSame(S, f, vs);
      }
    }
  }

  lemma {:induction false} CopiedFieldsPrintTheSame(S: Schema, t: MessageType, m: Msg, k: nat)
    requires WfSchema(S) && Wf(S, t, m) && k <= |FieldsOf(S, t)|
    ensures RecordsFrom(S, FieldsOf(S, t), Copy(S, t, m), k) == RecordsFrom(S, FieldsOf(S, t), m, k)
    decreases m, 0, |FieldsOf(S, t)| - k
  {
    if k < |FieldsOf(S, t)| {
      var f := FieldsOf(S, t)[k];
      CopyAt(S, t, m, k);
      CopiedSlotPrintsTheSame(S, f, m.slots[k].vs);
      CopiedFieldsPrintTheSame(S, t, m, k + 1);
    }
  }

  /** ... and so as a whole: a copy made by Clear and MergeFrom and one made by the copy
      constructor, which keeps every bit, serialize to the same bytes. */
  lemma {:induction false} CopyPrintsTheSame(S: Schema, t: MessageType, m: Msg)
    requires WfSchema(S) && Wf(S, t, m)
    ensures Serialize(S, t, Copy(S, t, m)) == Serialize(S, t, m)
    decreases m, 1
  {
    CopiedFieldsPrintTheSame(S, t, m, 0);
    if FieldsOf(S, t) != [] { CopyAt(S, t, m, 0); }
    assert Copy(S, t, m).unknown == [] + m.unknown == m.unknown;
  }

  /** Copying is the identity exactly on canonical messages. */
  lemma {:induction false} CopiedValueIsSame(S: Schema, f: Field, v: Value)
    requires WfSchema(S) && WfValue(S, f.kind, v)
    ensures Adopt(S, f.kind, [], v) == v <==> CanonicalValue(S, f.kind, v)
    decreases v, 0
  {
    if v.Sub? { CopyIsSame(S, f.kind.target, v.m); }
  }

  lemma {:induction false} CopiedSlotIsSame(S: Schema, f: Field, vs: seq<Value>)
    requires WfSchema(S) && WfField(f) && WfSlot(S, f, vs)
    ensures MergeSlot(S, f, Fresh(f), vs) == vs <==> CanonicalSlot(S, f, vs)
    decreases vs, 1
  {
    forall j | 0 <= j < |vs| ensures Adopt(S, f.kind, [], vs[j]) == vs[j] <==> CanonicalValue(S, f.kind, vs[j]) {
      CopiedValueIsSame(S, f, vs[j]);
    }
    if f.rule.Repeated? && vs != [] {
      assert [] + AdoptAll(S, f.kind, vs) == AdoptAll(S, f.kind, vs);
      assert AdoptAll(S, f.kind, vs) == vs <==> forall j :: 0 <= j < |vs| ==> Adopt(S, f.kind, [], vs[j]) == vs[j];
    } else if vs != [] {
      assert vs == [vs[0]];
    }
  }

  lemma {:induction false} CopyIsSame(S: Schema, t: MessageType, m: Msg)
    requires WfSchema(S) && Wf(S, t, m)
    ensures Copy(S, t, m) == m <==> Canonical(S, t, m)
    decreases m, 2
  {
    var fs := FieldsOf(S, t);
    var c := Copy(S, t, m);
    assert |Empty(S, t).slots| == |fs|;
    assert |c.slots| == |fs| && c.unknown == [] + m.unknown == m.unknown;
    forall j: nat | j < |fs| ensures c.slots[j] == m.slots[j] <==> CanonicalSlot(S, fs[j], m.slots[j].vs) {
      CopyAt(S, t, m, j);
      CopiedSlotIsSame(S, fs[j], m.slots[j].vs);
    }
    assert c.slots == m.slots <==> forall j :: 0 <= j < |fs| ==> c.slots[j] == m.slots[j];
  }

  // ------------------------------------------------------------- the theorems

  /** Round trip: the parser gives back the copy of what was printed, whenever it accepts it. */
  lemma RoundTrips(S: Schema, t: MessageType, m: Msg)
    requires WfSchema(S) && Wf(S, t, m)
    ensures Parse(S, t, Serialize(S, t, m)) == if Readable(S, t, m) then Some(Copy(S, t, m)) else None
    ensures Parse(S, t, Serialize(S, t, m)) == Some(m) <==> Readable(S, t, m) && Canonical(S, t, m)
  {
    EmptyWf(S, t);
    ParseOfSerialize(S, t, Empty(S, t), m);
    CopyIsSame(S, t, m);
  }

  /** Every payload printed for `m` is shorter than what is printed for `m` as a whole. */
  lemma {:induction false} PayloadsAreShorter(rs: seq<Record>)
    ensures forall r <- rs :: r.payload.Delimited? ==> |r.payload.data| < |EncodeAll(rs)|
    decreases |rs|
  {
    if rs != [] {
      PayloadsAreShorter(rs[1..]);
      assert rs == [rs[0]] + rs[1..];
    }
  }

  lemma {:induction false} ElementIsPrinted(S: Schema, f: Field, vs: seq<Value>, j: nat)
    requires j < |vs|
    ensures Record(f.num, PayloadOf(S, f.kind, vs[j])) in ElementRecords(S, f, vs)
    decreases |vs|
  {
    if j > 0 { ElementIsPrinted(S, f, vs[1..], j - 1); }
  }

  lemma {:induction false} SlotIsPrinted(S: Schema, fs: seq<Field>, m: Msg, k: nat, i: nat)
    requires k <= i < |fs| && i < |m.slots|
    ensures forall r <- SlotRecords(S, fs[i], m.slots[i].vs) :: r in RecordsFrom(S, fs, m, k)
    decreases i - k
  {
    if k < i { SlotIsPrinted(S, fs, m, k + 1, i); }
  }

  lemma {:induction false} ShortValueIsSound(S: Schema, f: Field, v: Value)
    requires WfSchema(S) && WfValue(S, f.kind, v) && CleanValue(S, f.kind, v)
    requires Fits(Record(f.num, PayloadOf(S, f.kind, v)))
    ensures Sound(S, f.kind, v)
    decreases v, 0
  {
    if v.Sub? { ShortIsReadable(S, f.kind.target, v.m); }
  }

  lemma {:induction false} ShortSlotIsSound(S: Schema, f: Field, vs: seq<Value>)
    requires WfSchema(S) && WfField(f) && WfSlot(S, f, vs) && CleanSlot(S, f, vs)
    requires forall r <- SlotRecords(S, f, vs) :: Fits(r)
    ensures SoundSlot(S, f, vs)
    decreases vs, 1
  {
    if Numeric(f.kind) || (f.rule.Implicit? && IsZero(f.kind, vs[0])) {
      forall j | 0 <= j < |vs| ensures Sound(S, f.kind, vs[j]) {
        assert WfValue(S, f.kind, vs[j]) && CleanValue(S, f.kind, vs[j]);
      }
    } else {
      forall j | 0 <= j < |vs| ensures Sound(S, f.kind, vs[j]) {
        ElementIsPrinted(S, f, vs, j);
        ShortValueIsSound(S, f, vs[j]);
      }
    }
  }

  /** A clean message whose serialized size is within the limit is readable. */
  lemma {:induction false} ShortIsReadable(S: Schema, t: MessageType, m: Msg)
    requires WfSchema(S) && Wf(S, t, m) && Clean(S, t, m) && |Serialize(S, t, m)| <= MAX_LENGTH
    ensures Readable(S, t, m)
    decreases m, 2
  {
    var fs := FieldsOf(S, t);
    PayloadsAreShorter(Records(S, t, m));
    forall i: nat | i < |fs| ensures SoundSlot(S, fs[i], m.slots[i].vs) {
      SlotIsPrinted(S, fs, m, 0, i);
      assert CleanSlot(S, fs[i], m.slots[i].vs);
      ShortSlotIsSound(S, fs[i], m.slots[i].vs);
    }
  }

  /** Conversely, what is readable holds no malformed string the parser would refuse. */
  lemma {:induction false} ReadableIsClean(S: Schema, t: MessageType, m: Msg)
    requires Readable(S, t, m)
    ensures Clean(S, t, m)
    decreases m
  {
    var fs := FieldsOf(S, t);
    forall i: nat | i < |m.slots| && i < |fs| ensures CleanSlot(S, fs[i], m.slots[i].vs) {
      assert SoundSlot(S, fs[i], m.slots[i].vs);
      forall j: nat | j < |m.slots[i].vs| ensures CleanValue(S, fs[i].kind, m.slots[i].vs[j]) {
        var v := m.slots[i].vs[j];
        assert Sound(S, fs[i].kind, v);
        SlotsAreSmaller(m, i, j);
        if v.Sub? && fs[i].kind.Message? { ReadableIsClean(S, fs[i].kind.target, v.m); }
      }
    }
  }

  lemma SlotsAreSmaller(m: Msg, i: nat, j: nat)
    requires i < |m.slots| && j < |m.slots[i].vs|
    ensures m.slots[i].vs[j].Sub? ==> m.slots[i].vs[j].m < m
  {
  }

  /** Normal form: for every accepted byte string, what was parsed prints to bytes that are accepted
      again exactly if it is readable, as it always is within the size limit; they then give the same
      message up to negative zeros, and print to themselves. */
  lemma PrintIsNormalForm(S: Schema, t: MessageType, b: bytes, m: Msg)
    requires WfSchema(S) && Parse(S, t, b) == Some(m)
    ensures Wf(S, t, m)
    ensures var n := Serialize(S, t, m);
      && (Parse(S, t, n).Some? <==> Readable(S, t, m))
      && (|n| <= MAX_LENGTH ==> Readable(S, t, m))
      && (Readable(S, t, m) ==>
            && Parse(S, t, n) == Some(Copy(S, t, m))
            && Serialize(S, t, Copy(S, t, m)) == n
            && (Parse(S, t, n) == Parse(S, t, b) <==> Canonical(S, t, m)))
  {
    hide Wf, Readable, ParseInto, Serialize, Canonical, Clean, Copy, WfSchema;
    EmptyWf(S, t);
    EmptyIsClean(S, t);
    ParseKeepsWf(S, t, Empty(S, t), b);
    ParseKeepsClean(S, t, Empty(S, t), b);
    RoundTrips(S, t, m);
    CopyPrintsTheSame(S, t, m);
    CopyIsSame(S, t, m);
    if |Serialize(S, t, m)| <= MAX_LENGTH { ShortIsReadable(S, t, m); }
  }

  // ------------------------------------------ types where copying is exact

  /** No implicit floating-point field, and submessages only of the types `ts`. */
  ghost predicate ExactFields(fs: seq<Field>, ts: set<MessageType>) {
    forall i :: 0 <= i < |fs| ==> ExactField(fs[i], ts)
  }

  ghost predicate ExactField(f: Field, ts: set<MessageType>) {
    && !(f.rule.Implicit? && (f.kind.Float? || f.kind.Double?))
    && (f.kind.Message? ==> f.kind.target in ts)
  }

  /** A set of types closed under field references without any implicit floating-point field. */
  ghost predicate Exact(S: Schema, ts: set<MessageType>) {
    forall t <- ts :: ExactFields(FieldsOf(S, t), ts)
  }

  lemma {:induction false} ExactIsCanonical(S: Schema, ts: set<MessageType>, t: MessageType, m: Msg)
    requires WfSchema(S) && Exact(S, ts) && t in ts && Wf(S, t, m)
    ensures Canonical(S, t, m)
    decreases m, 1
  {
    var fs := FieldsOf(S, t);
    forall i, j | 0 <= i < |fs| && 0 <= j < |m.slots[i].vs|
      ensures fs[i].rule.Implicit? ==> !NegativeZero(fs[i].kind, m.slots[i].vs[j])
      ensures CanonicalValue(S, fs[i].kind, m.slots[i].vs[j])
    {
      var f, v := fs[i], m.slots[i].vs[j];
      assert ExactField(f, ts) && WfSlot(S, f, m.slots[i].vs);
      assert WfValue(S, f.kind, v);
      if v.Sub? {
        SlotsAreSmaller(m, i, j);
        ExactIsCanonical(S, ts, f.kind.target, v.m);
      }
    }
  }

  // ---------------------------------------- types without checked strings

  ghost predicate UncheckedFields(fs: seq<Field>, ts: set<MessageType>) {
    forall i :: 0 <= i < |fs| ==> UncheckedField(fs[i], ts)
  }

  ghost predicate UncheckedField(f: Field, ts: set<MessageType>) {
    f.kind != Text(true) && (f.kind.Message? ==> f.kind.target in ts)
  }

  /** A set of types closed under field references whose parsers check no string. */
  ghost predicate Unchecked(S: Schema, ts: set<MessageType>) {
    forall t <- ts :: UncheckedFields(FieldsOf(S, t), ts)
  }

  lemma {:induction false} UncheckedIsClean(S: Schema, ts: set<MessageType>, t: MessageType, m: Msg)
    requires Unchecked(S, ts) && t in ts
    ensures Clean(S, t, m)
    decreases m
  {
    var fs := FieldsOf(S, t);
    forall i: nat, j: nat | i < |m.slots| && i < |fs| && j < |m.slots[i].vs|
      ensures CleanValue(S, fs[i].kind, m.slots[i].vs[j])
    {
      var v := m.slots[i].vs[j];
      assert UncheckedField(fs[i], ts);
      SlotsAreSmaller(m, i, j);
      if v.Sub? && fs[i].kind.Message? { UncheckedIsClean(S, ts, fs[i].kind.target, v.m); }
    }
  }
}
