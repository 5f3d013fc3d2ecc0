/** Parsing and merging keep messages well formed, and printing is a normal form for what was
    parsed. */
module NormalForm {
  import opened Wire
  import Utf8
  import opened Schemas
  import opened Messages
  import opened Codec
  import opened MasterLaw

  // ---------------------------------------------------------- parse keeps Wf

  /** Storing typed values of the right number in a field keeps a message well formed. */
  lemma StoreWf(S: Schema, t: MessageType, m: Msg, i: nat, vs: seq<Value>)
    requires WfSchema(S) && Wf(S, t, m) && i < |FieldsOf(S, t)| && WfSlot(S, FieldsOf(S, t)[i], vs)
    ensures Wf(S, t, Store(FieldsOf(S, t), m, i, vs))
  {
    var fs := FieldsOf(S, t);
    var m' := Store(fs, m, i, vs);
    forall j | 0 <= j < |fs| ensures WfSlot(S, fs[j], m'.slots[j].vs) {
      assert WfSlot(S, fs[j], m.slots[j].vs);
    }
  }

  lemma AppendUnknownWf(S: Schema, t: MessageType, m: Msg, r: Record)
    requires Wf(S, t, m) && ValidRecord(r) && Unrecognized(FieldsOf(S, t), r)
    ensures Wf(S, t, m.(unknown := m.unknown + [r]))
  {
  }

  lemma {:induction false} UnpackWf(S: Schema, f: Field, b: bytes)
    requires Numeric(f.kind) && !f.kind.ClosedEnum?
    ensures Unpack(f.kind, b).Some? ==> forall v <- Unpack(f.kind, b).value :: WfValue(S, f.kind, v)
    decreases |b|
  {
    var k := f.kind;
    if b != [] && ReadOne(k, b).Ok? {
      UnpackWf(S, f, ReadOne(k, b).rest);
      UnpackedInRange(k, b);
      UnpackStep(k, b);
    }
  }

  lemma UnpackedInRange(k: Kind, b: bytes)
    requires Numeric(k) && !k.ClosedEnum? && ReadOne(k, b).Ok?
    ensures InRange(k, Unpacked(k, ReadOne(k, b).value))
  {
    var v := ReadOne(k, b).value;
    if k.Float? {
      FixedValueBound(b, 4);
    } else if k.Double? {
      FixedValueBound(b, 8);
    } else {
      FromWireInRange(k, v);
    }
  }

  /** A decoded payload holds values of the field's kind, one of them unless the field is repeated. */
  lemma {:induction false} DecodeWf(S: Schema, f: Field, had: seq<Value>, p: Payload)
    requires WfSchema(S) && WfField(f) && ValidPayload(p)
    requires f.kind.Message? && had != [] ==> WfValue(S, f.kind, had[0])
    ensures var d := Decode(S, f, had, p);
      d.Values? ==> (forall v <- d.vs :: WfValue(S, f.kind, v)) && (f.rule.Repeated? || |d.vs| == 1)
    decreases PayloadLength(p), 1
  {
    if Accepts(f, p) {
      match p
      case Scalar(v) => FromWireInRange(f.kind, v);
      case Word64(_) =>
      case Word32(_) =>
      case Delimited(d) =>
        if f.kind.Message? {
          EmptyWf(S, f.kind.target);
          ParseKeepsWf(S, f.kind.target, Base(S, f.kind.target, if f.rule.Repeated? then [] else had), d);
        } else if Numeric(f.kind) {
          UnpackWf(S, f, d);
        }
    }
  }

  lemma {:induction false} ApplyKeepsWf(S: Schema, t: MessageType, m: Msg, r: Record)
    requires WfSchema(S) && Wf(S, t, m) && ValidRecord(r)
    ensures Apply(S, t, m, r).Some? ==> Wf(S, t, Apply(S, t, m, r).value)
    decreases PayloadLength(r.payload), 2
  {
    hide Store, ParseInto, WfValue, Unpack, ReadRecord, ValidPayload, InRange, Base;
    var fs := FieldsOf(S, t);
    var i := Find(fs, r.num);
    if Unrecognized(fs, r) {
      AppendUnknownWf(S, t, m, r);
    } else {
      assert WfSlot(S, fs[i], m.slots[i].vs);
      DecodeWf(S, fs[i], At(m, i), r.payload);
      match Decode(S, fs[i], At(m, i), r.payload)
      case Malformed =>
      case Values(vs) =>
        var ws := if fs[i].rule.Repeated? then At(m, i) + vs else vs;
        assert WfSlot(S, fs[i], ws);
        StoreWf(S, t, m, i, ws);
    }
  }

  /** Every message a parse leaves behind is well formed; in particular its unknown fields are
      records its own parser would again leave alone, at every depth. */
  lemma {:induction false} ParseKeepsWf(S: Schema, t: MessageType, m: Msg, b: bytes)
    requires WfSchema(S) && Wf(S, t, m)
    ensures ParseInto(S, t, m, b).Some? ==> Wf(S, t, ParseInto(S, t, m, b).value)
    decreases |b|, 0
  {
    if b != [] && ReadRecord(b).Ok? {
      var r, rest := ReadRecord(b).value, ReadRecord(b).rest;
      ApplyKeepsWf(S, t, m, r);
      match Apply(S, t, m, r)
      case None =>
      case Some(m') => ParseKeepsWf(S, t, m', rest);
    }
  }

  // ---------------------------------------------------------- merge keeps Wf

  lemma {:induction false} AdoptWf(S: Schema, f: Field, had: seq<Value>, v: Value)
    requires WfSchema(S) && WfValue(S, f.kind, v)
    requires had != [] && f.kind.Message? ==> WfValue(S, f.kind, had[0])
    ensures WfValue(S, f.kind, Adopt(S, f.kind, had, v))
    decreases v, 0
  {
    if v.Sub? {
      EmptyWf(S, f.kind.target);
      MergeKeepsWf(S, f.kind.target, Base(S, f.kind.target, had), v.m);
    }
  }

  lemma {:induction false} MergeSlotWf(S: Schema, f: Field, had: seq<Value>, from: seq<Value>)
    requires WfSchema(S) && WfSlot(S, f, had) && WfSlot(S, f, from)
    ensures WfSlot(S, f, MergeSlot(S, f, had, from))
    ensures MergeSlot(S, f, had, from) == [] ==> had == [] && from == []
    decreases from, 1
  {
    forall i | 0 <= i < |from|
      ensures WfValue(S, f.kind, Adopt(S, f.kind, [], from[i]))
      ensures WfValue(S, f.kind, Adopt(S, f.kind, had, from[i]))
    {
      AdoptWf(S, f, [], from[i]);
      AdoptWf(S, f, had, from[i]);
    }
  }

  lemma {:induction false} MergeKeepsWf(S: Schema, t: MessageType, a: Msg, b: Msg)
    requires WfSchema(S) && Wf(S, t, a) && Wf(S, t, b)
    ensures Wf(S, t, Merge(S, t, a, b))
    decreases b, 2
  {
    var fs := FieldsOf(S, t);
    var m := Merge(S, t, a, b);
    assert |m.slots| == |fs|;
    forall j: nat | j < |fs|
      ensures WfSlot(S, fs[j], m.slots[j].vs)
      ensures m.slots[j].vs == [] <== b.slots[j].vs == [] && (a.slots[j].vs == [] || Evicted(fs, b, |fs|, j))
    {
      assert WfSlot(S, fs[j], a.slots[j].vs) && WfSlot(S, fs[j], b.slots[j].vs);
      MergeAt(S, t, a, b, j);
      MergeSlotWf(S, fs[j], if Evicted(fs, b, |fs|, j) then [] else a.slots[j].vs, b.slots[j].vs);
    }
    forall i: nat, j: nat | Siblings(fs, i, j) ensures m.slots[i].vs == [] || m.slots[j].vs == [] {
      assert b.slots[i].vs != [] ==> Evicted(fs, b, |fs|, j);
      assert b.slots[j].vs != [] ==> Evicted(fs, b, |fs|, i) by { assert Siblings(fs, j, i); }
    }
  }

  // ------------------------------------------------------------ clean strings

  /** Every string the parser checks encodes a sequence of Unicode scalar values, at every depth. */
  ghost predicate Clean(S: Schema, t: MessageType, m: Msg)
    decreases m
  {
    forall i :: 0 <= i < |m.slots| && i < |FieldsOf(S, t)| ==> CleanSlot(S, FieldsOf(S, t)[i], m.slots[i].vs)
  }

  ghost predicate CleanSlot(S: Schema, f: Field, vs: seq<Value>)
    decreases vs
  {
    forall j :: 0 <= j < |vs| ==> CleanValue(S, f.kind, vs[j])
  }

  ghost predicate CleanValue(S: Schema, k: Kind, v: Value)
    decreases v
  {
    match v
    case Num(_) => true
    case Data(d) => k == Text(true) ==> Utf8.IsText(d)
    case Sub(m) => k.Message? ==> Clean(S, k.target, m)
  }

  lemma EmptyIsClean(S: Schema, t: MessageType)
    ensures Clean(S, t, Empty(S, t))
  {
    Utf8.ValidIffText([]);
  }

  lemma {:induction false} UnpackClean(S: Schema, k: Kind, b: bytes)
    ensures Unpack(k, b).Some? ==> forall v <- Unpack(k, b).value :: CleanValue(S, k, v)
    decreases |b|
  {
    if b != [] && ReadOne(k, b).Ok? { UnpackClean(S, k, ReadOne(k, b).rest); }
  }

  lemma {:induction false} DecodeClean(S: Schema, f: Field, had: seq<Value>, p: Payload)
    requires had != [] ==> CleanValue(S, f.kind, had[0])
    ensures var d := Decode(S, f, had, p); d.Values? ==> forall v <- d.vs :: CleanValue(S, f.kind, v)
    decreases PayloadLength(p), 1
  {
    if Accepts(f, p) && p.Delimited? {
      if f.kind.Message? {
        EmptyIsClean(S, f.kind.target);
        ParseKeepsClean(S, f.kind.target, Base(S, f.kind.target, if f.rule.Repeated? then [] else had), p.data);
      } else if Numeric(f.kind) {
        UnpackClean(S, f.kind, p.data);
      } else {
        Utf8.ValidIffText(p.data);
      }
    }
  }

  lemma {:induction false} ApplyKeepsClean(S: Schema, t: MessageType, m: Msg, r: Record)
    requires Clean(S, t, m)
    ensures Apply(S, t, m, r).Some? ==> Clean(S, t, Apply(S, t, m, r).value)
    decreases PayloadLength(r.payload), 2
  {
    var fs := FieldsOf(S, t);
    var i := Find(fs, r.num);
    if i < |fs| {
      if i < |m.slots| { assert CleanSlot(S, fs[i], m.slots[i].vs); }
      DecodeClean(S, fs[i], At(m, i), r.payload);
      match Decode(S, fs[i], At(m, i), r.payload)
      case Malformed =>
      case Unusual =>
      case Values(vs) =>
        var m' := Apply(S, t, m, r).value;
        forall j | 0 <= j < |m'.slots| && j < |fs| ensures CleanSlot(S, fs[j], m'.slots[j].vs) {
          assert CleanSlot(S, fs[j], m.slots[j].vs);
        }
    }
  }

  lemma {:induction false} ParseKeepsClean(S: Schema, t: MessageType, m: Msg, b: bytes)
    requires Clean(S, t, m)
    ensures ParseInto(S, t, m, b).Some? ==> Clean(S, t, ParseInto(S, t, m, b).value)
    decreases |b|, 0
  {
    if b != [] && ReadRecord(b).Ok? {
      var r, rest := ReadRecord(b).value, ReadRecord(b).rest;
      ApplyKeepsClean(S, t, m, r);
      match Apply(S, t, m, r)
      case None =>
      case Some(m') => ParseKeepsClean(S, t, m', rest);
    }
  }
}
