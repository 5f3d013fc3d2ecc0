/** Logical message values, their well-formedness and `MergeFrom`. */
module Messages {
  import opened Wire
  import opened Schemas

  /** Numbers stand for integers, booleans, enum values and floating-point bit patterns. */
  datatype Value = Num(n: int) | Data(d: bytes) | Sub(m: Msg)

  /** The values a field holds: none or one for a singular field, all of them for a repeated one. */
  datatype Slot = Slot(vs: seq<Value>)

  /** A message: one slot per field, in field-number order, and the unknown fields met so far. */
  datatype Msg = Msg(slots: seq<Slot>, unknown: seq<Record>)

  function Default(k: Kind): Value {
    if k.Text? || k.Blob? then Data([]) else Num(0)
  }

  function Empty(S: Schema, t: MessageType): Msg {
    var fs := FieldsOf(S, t);
    Msg(seq(|fs|, i requires 0 <= i < |fs| => Slot(if fs[i].rule.Implicit? then [Default(fs[i].kind)] else [])), [])
  }

  /** The content of slot `i`. */
  function At(m: Msg, i: nat): seq<Value> {
    if i < |m.slots| then m.slots[i].vs else []
  }

  /** The zero test of proto3 printing and merging.  For floating-point fields it is a comparison
      with zero, so it also holds of negative zero and never of a NaN. */
  predicate IsZero(k: Kind, v: Value) {
    match v
    case Num(n) =>
      n == 0 || (k.Float? && n == TWO_TO_31) || (k.Double? && n == TWO_TO_63)
    case Data(d) => d == []
    case Sub(_) => false
  }

  /** The negative zero of a floating-point field, as a bit pattern. */
  predicate NegativeZero(k: Kind, v: Value) {
    (k.Float? && v == Num(0x8000_0000)) || (k.Double? && v == Num(0x8000_0000_0000_0000))
  }

  // --------------------------------------------------------- well-formedness

  /** Whether the parser of a message with fields `fs` leaves this record to the unknown fields. */
  predicate Unrecognized(fs: seq<Field>, r: Record) {
    var i := Find(fs, r.num);
    i == |fs| || !Accepts(fs[i], r.payload)
  }

  /** The record's wire type is one the field's case reads, and its enum value, if it is one, is
      declared. */
  predicate Accepts(f: Field, p: Payload) {
    match p
    case Scalar(v) => Numeric(f.kind) && !f.kind.Float? && !f.kind.Double? && ClosedEnumAccepts(f.kind, v)
    case Word64(_) => f.kind.Double?
    case Word32(_) => f.kind.Float?
    case Delimited(_) => !Numeric(f.kind) || f.rule.Repeated?
  }

  ghost predicate Wf(S: Schema, t: MessageType, m: Msg)
    decreases m
  {
    var fs := FieldsOf(S, t);
    && |m.slots| == |fs|
    && (forall i :: 0 <= i < |fs| ==> WfSlot(S, fs[i], m.slots[i].vs))
    && (forall i: nat, j: nat :: Siblings(fs, i, j) ==> m.slots[i].vs == [] || m.slots[j].vs == [])
    && (forall r <- m.unknown :: ValidRecord(r) && Unrecognized(fs, r))
  }

  ghost predicate WfSlot(S: Schema, f: Field, vs: seq<Value>)
    decreases vs
  {
    && (!f.rule.Repeated? ==> |vs| <= 1)
    && (f.rule.Implicit? ==> |vs| == 1)
    && forall j :: 0 <= j < |vs| ==> WfValue(S, f.kind, vs[j])
  }

  ghost predicate WfValue(S: Schema, k: Kind, v: Value)
    decreases v
  {
    match v
    case Num(n) => Numeric(k) && InRange(k, n)
    case Data(_) => k.Text? || k.Blob?
    case Sub(m) => k.Message? && Wf(S, k.target, m)
  }

  lemma EmptyWf(S: Schema, t: MessageType)
    requires WfSchema(S)
    ensures Wf(S, t, Empty(S, t))
  {
    var fs, e := FieldsOf(S, t), Empty(S, t);
    forall i: nat | i < |fs| ensures WfSlot(S, fs[i], e.slots[i].vs) {
      assert WfField(fs[i]);
      if fs[i].rule.Implicit? { DefaultWf(S, fs[i].kind); }
    }
    forall i: nat, j: nat | Siblings(fs, i, j) ensures e.slots[i].vs == [] {}
  }

  lemma DefaultWf(S: Schema, k: Kind)
    requires !k.Message? && !k.ClosedEnum?
    ensures WfValue(S, k, Default(k))
  {
  }

  // -------------------------------------------------------------------- merge

  /** Some field before `k`, other than `j` but in the same oneof, is set in `b`. */
  predicate Evicted(fs: seq<Field>, b: Msg, k: nat, j: nat) {
    exists i :: 0 <= i < k && Siblings(fs, i, j) && At(b, i) != []
  }

  /** Slot `j` of `a` after the first `k` fields of `b` have been merged into it. */
  function MergedSlot(S: Schema, fs: seq<Field>, a: Msg, b: Msg, k: nat, j: nat): seq<Value>
    decreases b, 1
  {
    var had := if Evicted(fs, b, k, j) then [] else At(a, j);
    if j < k && j < |fs| && j < |b.slots| then MergeSlot(S, fs[j], had, b.slots[j].vs) else had
  }

  function MergeUpto(S: Schema, t: MessageType, a: Msg, b: Msg, k: nat): (m: Msg)
    ensures |m.slots| == |a.slots|
    decreases b, 2
  {
    var fs := FieldsOf(S, t);
    Msg(seq(|a.slots|, j requires 0 <= j < |a.slots| => Slot(MergedSlot(S, fs, a, b, k, j))), a.unknown)
  }

  /** `a.MergeFrom(b)`. */
  function Merge(S: Schema, t: MessageType, a: Msg, b: Msg): (m: Msg)
    ensures |m.slots| == |a.slots| && m.unknown == a.unknown + b.unknown
    decreases b, 3
  {
    MergeUpto(S, t, a, b, |FieldsOf(S, t)|).(unknown := a.unknown + b.unknown)
  }

  /** The submessage a singular field already has, or the new one it gets. */
  function Base(S: Schema, t: MessageType, had: seq<Value>): Msg {
    if had != [] && had[0].Sub? then had[0].m else Empty(S, t)
  }

  function MergeSlot(S: Schema, f: Field, had: seq<Value>, from: seq<Value>): seq<Value>
    decreases from, 1
  {
    if from == [] then had
    else if f.rule.Repeated? then had + AdoptAll(S, f.kind, from)
    else if f.rule.Implicit? && IsZero(f.kind, from[0]) then had
    else [Adopt(S, f.kind, had, from[0])]
  }

  /** A value taken over from another message: a submessage is merged into the one that is there,
      or into a new one, never shared. */
  function Adopt(S: Schema, k: Kind, had: seq<Value>, v: Value): Value
    decreases v, 4
  {
    if v.Sub? && k.Message? then Sub(Merge(S, k.target, Base(S, k.target, had), v.m)) else v
  }

  function AdoptAll(S: Schema, k: Kind, vs: seq<Value>): (r: seq<Value>)
    ensures |r| == |vs|
    ensures forall i :: 0 <= i < |vs| ==> r[i] == Adopt(S, k, [], vs[i])
    decreases vs, 0
  {
    if vs == [] then [] else [Adopt(S, k, [], vs[0])] + AdoptAll(S, k, vs[1..])
  }

  /** What a merge leaves in field `j`. */
  lemma {:induction false} MergeAt(S: Schema, t: MessageType, a: Msg, b: Msg, j: nat)
    requires |a.slots| == |b.slots| == |FieldsOf(S, t)| && j < |a.slots|
    ensures var fs := FieldsOf(S, t);
      var m := Merge(S, t, a, b);
      && |m.slots| == |fs|
      && m.slots[j].vs
         == MergeSlot(S, fs[j], if Evicted(fs, b, |fs|, j) then [] else a.slots[j].vs, b.slots[j].vs)
  {
    var fs := FieldsOf(S, t);
    assert At(a, j) == a.slots[j].vs;
    assert MergeUpto(S, t, a, b, |fs|).slots[j] == Slot(MergedSlot(S, fs, a, b, |fs|, j));
  }

  /** A message is the merge of two others if each of its fields is. */
  lemma MergeBySlots(S: Schema, t: MessageType, a: Msg, b: Msg, m: Msg)
    requires |a.slots| == |b.slots| == |m.slots| == |FieldsOf(S, t)|
    requires m.unknown == a.unknown + b.unknown
    requires forall j :: 0 <= j < |m.slots| ==> !FieldsOf(S, t)[j].rule.Oneof?
    requires forall j :: 0 <= j < |m.slots| ==>
               m.slots[j].vs == MergeSlot(S, FieldsOf(S, t)[j], a.slots[j].vs, b.slots[j].vs)
    ensures m == Merge(S, t, a, b)
  {
    forall j: nat | j < |m.slots| ensures m.slots[j] == Merge(S, t, a, b).slots[j] {
      MergeAt(S, t, a, b, j);
      assert m.slots[j].vs == Merge(S, t, a, b).slots[j].vs;
    }
    assert m.slots == Merge(S, t, a, b).slots;
  }
}
