/** The algebra of `MergeFrom`: units, and exactly when it is associative. */
module MergeAlgebra {
  import opened Wire
  import opened Schemas
  import opened Messages
  import opened Codec
  import opened NormalForm
  import opened RoundTrip

  /** Merging an empty message in changes nothing. */
  lemma EmptyIsRightUnit(S: Schema, t: MessageType, a: Msg)
    requires WfSchema(S) && Wf(S, t, a)
    ensures Merge(S, t, a, Empty(S, t)) == a
  {
    var fs, e := FieldsOf(S, t), Empty(S, t);
    var m := Merge(S, t, a, e);
    forall j: nat | j < |fs| ensures m.slots[j] == a.slots[j] {
      MergeAt(S, t, a, e, j);
      assert !Evicted(fs, e, |fs|, j);
    }
    assert m.slots == a.slots && a.unknown + [] == a.unknown;
  }

  // ------------------------------------------------------- being overwritten

  /** Whatever `x` holds, a merge of `z` into it replaces or repeats. */
  ghost predicate Overwritten(S: Schema, t: MessageType, x: Msg, z: Msg)
    decreases z
  {
    var fs := FieldsOf(S, t);
    && x.unknown == []
    && forall j :: 0 <= j < |fs| && j < |z.slots| ==>
         OverwrittenSlot(S, fs[j], if Evicted(fs, z, |fs|, j) then [] else At(x, j), z.slots[j].vs)
  }

  ghost predicate OverwrittenSlot(S: Schema, f: Field, had: seq<Value>, from: seq<Value>)
    decreases from
  {
    if from == [] || (f.rule.Implicit? && IsZero(f.kind, from[0])) then had == Fresh(f)
    else if f.rule.Repeated? then had == []
    else OverwrittenValue(S, f.kind, had, from[0])
  }

  ghost predicate OverwrittenValue(S: Schema, k: Kind, had: seq<Value>, v: Value)
    decreases v
  {
    v.Sub? && k.Message? ==> Overwritten(S, k.target, Base(S, k.target, had), v.m)
  }

  lemma {:induction false} EmptyIsOverwritten(S: Schema, t: MessageType, z: Msg)
    requires WfSchema(S) && Wf(S, t, z)
    ensures Overwritten(S, t, Empty(S, t), z)
    decreases z, 1
  {
    var fs := FieldsOf(S, t);
    forall j: nat | j < |fs| ensures OverwrittenSlot(S, fs[j], Fresh(fs[j]), z.slots[j].vs) {
      assert WfSlot(S, fs[j], z.slots[j].vs);
      if z.slots[j].vs != [] {
        var v := z.slots[j].vs[0];
        assert WfValue(S, fs[j].kind, v);
        if v.Sub? { EmptyIsOverwritten(S, fs[j].kind.target, v.m); }
      }
    }
  }

  lemma {:induction false} OverwrittenValueIff(S: Schema, f: Field, had: seq<Value>, v: Value)
    requires WfSchema(S) && WfValue(S, f.kind, v) && (had != [] && f.kind.Message? ==> WfValue(S, f.kind, had[0]))
    ensures Adopt(S, f.kind, had, v) == Adopt(S, f.kind, [], v) <==> OverwrittenValue(S, f.kind, had, v)
    decreases v, 0
  {
    if v.Sub? {
      var t := f.kind.target;
      EmptyWf(S, t);
      OverwrittenIff(S, t, Base(S, t, had), v.m);
    }
  }

  lemma {:induction false} OverwrittenSlotIff(S: Schema, f: Field, had: seq<Value>, from: seq<Value>)
    requires WfSchema(S) && WfField(f) && WfSlot(S, f, had) && WfSlot(S, f, from)
    ensures MergeSlot(S, f, had, from) == MergeSlot(S, f, Fresh(f), from) <==> OverwrittenSlot(S, f, had, from)
    decreases from, 1
  {
    if from == [] || (f.rule.Implicit? && IsZero(f.kind, from[0])) {
    } else if f.rule.Repeated? {
      var ws := AdoptAll(S, f.kind, from);
      assert |had + ws| == |[] + ws| <==> had == [];
    } else {
      OverwrittenValueIff(S, f, had, from[0]);
    }
  }

  lemma {:induction false} OverwrittenAt(S: Schema, t: MessageType, x: Msg, z: Msg, j: nat)
    requires WfSchema(S) && Wf(S, t, x) && Wf(S, t, z) && j < |FieldsOf(S, t)|
    ensures var fs := FieldsOf(S, t);
      Merge(S, t, x, z).slots[j] == Copy(S, t, z).slots[j]
      <==> OverwrittenSlot(S, fs[j], if Evicted(fs, z, |fs|, j) then [] else At(x, j), z.slots[j].vs)
    decreases z, 2
  {
    var fs := FieldsOf(S, t);
    assert WfSlot(S, fs[j], x.slots[j].vs) && WfSlot(S, fs[j], z.slots[j].vs);
    MergeAt(S, t, x, z, j);
    CopyAt(S, t, z, j);
    OverwrittenSlotIff(S, fs[j], if Evicted(fs, z, |fs|, j) then [] else At(x, j), z.slots[j].vs);
  }

  /** A merge of `z` hides what was there exactly when everything there is overwritten. */
  lemma {:induction false} OverwrittenIff(S: Schema, t: MessageType, x: Msg, z: Msg)
    requires WfSchema(S) && Wf(S, t, x) && Wf(S, t, z)
    ensures Merge(S, t, x, z) == Copy(S, t, z) <==> Overwritten(S, t, x, z)
    decreases z, 3
  {
    hide Merge, MergeSlot, OverwrittenSlot, Evicted;
    var fs := FieldsOf(S, t);
    var m, c := Merge(S, t, x, z), Copy(S, t, z);
    assert |Empty(S, t).slots| == |fs|;
    assert x.unknown + z.unknown == [] + z.unknown <==> x.unknown == [] by {
      assert |x.unknown + z.unknown| == |x.unknown| + |z.unknown|;
    }
    forall j: nat | j < |fs| { OverwrittenAt(S, t, x, z, j); }
    assert m.slots == c.slots <==> forall j :: 0 <= j < |fs| ==> m.slots[j] == c.slots[j];
  }

  // ----------------------------------------------------------- being hidden

  /** Merging `z` over `x` leaves nothing of `x` and all of `z`: every field `z` does not overwrite is
      the same in both, and `z` holds no negative zero that a copy would drop. */
  ghost predicate Hidden(S: Schema, t: MessageType, x: Msg, z: Msg)
    decreases z
  {
    var fs := FieldsOf(S, t);
    && x.unknown == []
    && forall j :: 0 <= j < |fs| && j < |z.slots| ==>
         HiddenSlot(S, fs[j], if Evicted(fs, z, |fs|, j) then [] else At(x, j), z.slots[j].vs)
  }

  ghost predicate HiddenSlot(S: Schema, f: Field, had: seq<Value>, from: seq<Value>)
    decreases from
  {
    if from == [] || (f.rule.Implicit? && IsZero(f.kind, from[0])) then had == from
    else if f.rule.Repeated? then had == [] && CanonicalSlot(S, f, from)
    else HiddenValue(S, f.kind, had, from[0])
  }

  ghost predicate HiddenValue(S: Schema, k: Kind, had: seq<Value>, v: Value)
    decreases v
  {
    v.Sub? && k.Message? ==> Hidden(S, k.target, Base(S, k.target, had), v.m)
  }

  lemma {:induction false} HiddenValueIff(S: Schema, f: Field, had: seq<Value>, v: Value)
    requires WfSchema(S) && WfValue(S, f.kind, v) && (had != [] && f.kind.Message? ==> WfValue(S, f.kind, had[0]))
    ensures Adopt(S, f.kind, had, v) == v <==> HiddenValue(S, f.kind, had, v)
    decreases v, 0
  {
    if v.Sub? {
      var t := f.kind.target;
      EmptyWf(S, t);
      HiddenIff(S, t, Base(S, t, had), v.m);
    }
  }

  lemma {:induction false} HiddenSlotIff(S: Schema, f: Field, had: seq<Value>, from: seq<Value>)
    requires WfSchema(S) && WfField(f) && WfSlot(S, f, had) && WfSlot(S, f, from)
    ensures MergeSlot(S, f, had, from) == from <==> HiddenSlot(S, f, had, from)
    decreases from, 1
  {
    hide Merge, CanonicalSlot;
    if from == [] || (f.rule.Implicit? && IsZero(f.kind, from[0])) {
    } else if f.rule.Repeated? {
      CopiedSlotIsSame(S, f, from);
      assert |had + AdoptAll(S, f.kind, from)| == |had| + |from|;
      assert [] + AdoptAll(S, f.kind, from) == AdoptAll(S, f.kind, from);
    } else {
      HiddenValueIff(S, f, had, from[0]);
      assert from == [from[0]];
    }
  }

  lemma {:induction false} HiddenAt(S: Schema, t: MessageType, x: Msg, z: Msg, j: nat)
    requires WfSchema(S) && Wf(S, t, x) && Wf(S, t, z) && j < |FieldsOf(S, t)|
    ensures var fs := FieldsOf(S, t);
      Merge(S, t, x, z).slots[j] == z.slots[j]
      <==> HiddenSlot(S, fs[j], if Evicted(fs, z, |fs|, j) then [] else At(x, j), z.slots[j].vs)
    decreases z, 2
  {
    var fs := FieldsOf(S, t);
    assert WfSlot(S, fs[j], x.slots[j].vs) && WfSlot(S, fs[j], z.slots[j].vs);
    MergeAt(S, t, x, z, j);
    HiddenSlotIff(S, fs[j], if Evicted(fs, z, |fs|, j) then [] else At(x, j), z.slots[j].vs);
  }

  /** A merge of `z` gives just `z` exactly when what was there is hidden, at every depth. */
  lemma {:induction false} HiddenIff(S: Schema, t: MessageType, x: Msg, z: Msg)
    requires WfSchema(S) && Wf(S, t, x) && Wf(S, t, z)
    ensures Merge(S, t, x, z) == z <==> Hidden(S, t, x, z)
    decreases z, 3
  {
    hide Merge, MergeSlot, HiddenSlot, Evicted;
    var fs, m := FieldsOf(S, t), Merge(S, t, x, z);
    assert |x.unknown + z.unknown| == |x.unknown| + |z.unknown|;
    assert x.unknown == [] ==> x.unknown + z.unknown == z.unknown;
    forall j: nat | j < |fs| { HiddenAt(S, t, x, z, j); }
    assert m.slots == z.slots <==> forall j :: 0 <= j < |fs| ==> m.slots[j] == z.slots[j];
  }

  // ----------------------------------------------------------- associativity

  /** `b` moves a oneof away from a submessage that `a` holds and `c` moves it back to that member:
      the one way two orders of merging can differ.  They then agree only if `c` overwrites all
      that `a` had there. */
  ghost predicate Associates(S: Schema, t: MessageType, a: Msg, b: Msg, c: Msg)
    decreases c
  {
    var fs := FieldsOf(S, t);
    forall j :: 0 <= j < |fs| && j < |c.slots| && c.slots[j].vs != [] ==>
      AssociatesValue(S, fs[j], At(a, j), At(b, j), Evicted(fs, b, |fs|, j), c.slots[j].vs[0])
  }

  ghost predicate AssociatesValue(S: Schema, f: Field, had: seq<Value>, mid: seq<Value>, switched: bool, v: Value)
    decreases v
  {
    v.Sub? && f.kind.Message? && !f.rule.Repeated? ==>
      var t := f.kind.target;
      if switched && had != [] then Overwritten(S, t, Base(S, t, had), v.m)
      else Associates(S, t, Base(S, t, had), Base(S, t, mid), v.m)
  }

  /** An empty message in the middle never matters. */
  lemma {:induction false} EmptyMiddleAssociates(S: Schema, t: MessageType, a: Msg, c: Msg)
    ensures Associates(S, t, a, Empty(S, t), c)
    decreases c, 0
  {
    var fs, e := FieldsOf(S, t), Empty(S, t);
    forall j: nat | j < |fs| && j < |c.slots| && c.slots[j].vs != []
      ensures AssociatesValue(S, fs[j], At(a, j), At(e, j), Evicted(fs, e, |fs|, j), c.slots[j].vs[0])
    {
      assert !Evicted(fs, e, |fs|, j);
      var v := c.slots[j].vs[0];
      if v.Sub? && fs[j].kind.Message? {
        assert c.slots[j].vs[0] < c;
        EmptyMiddleAssociates(S, fs[j].kind.target, Base(S, fs[j].kind.target, At(a, j)), v.m);
      }
    }
  }

  lemma {:induction false} EvictedByMerge(S: Schema, t: MessageType, b: Msg, c: Msg, j: nat)
    requires WfSchema(S) && Wf(S, t, b) && Wf(S, t, c) && j < |FieldsOf(S, t)|
    ensures var fs := FieldsOf(S, t);
      Evicted(fs, Merge(S, t, b, c), |fs|, j) <==> Evicted(fs, c, |fs|, j) || (Evicted(fs, b, |fs|, j) && At(c, j) == [])
  {
    var fs := FieldsOf(S, t);
    var m := Merge(S, t, b, c);
    forall i: nat | i < |fs|
      ensures At(m, i) == [] <==> At(c, i) == [] && (At(b, i) == [] || Evicted(fs, c, |fs|, i))
    {
      MergeAt(S, t, b, c, i);
      assert WfSlot(S, fs[i], b.slots[i].vs) && WfSlot(S, fs[i], c.slots[i].vs);
      MergeSlotWf(S, fs[i], if Evicted(fs, c, |fs|, i) then [] else b.slots[i].vs, c.slots[i].vs);
      MergeSlotGrows(S, fs[i], if Evicted(fs, c, |fs|, i) then [] else b.slots[i].vs, c.slots[i].vs);
    }
    if Evicted(fs, m, |fs|, j) && !Evicted(fs, c, |fs|, j) {
      var i: nat :| i < |fs| && Siblings(fs, i, j) && At(m, i) != [];
      assert Siblings(fs, j, i);
    }
    if Evicted(fs, c, |fs|, j) {
      var i: nat :| i < |fs| && Siblings(fs, i, j) && At(c, i) != [];
      assert At(m, i) != [];
    } else if Evicted(fs, b, |fs|, j) && At(c, j) == [] {
      var i: nat :| i < |fs| && Siblings(fs, i, j) && At(b, i) != [];
      assert !Evicted(fs, c, |fs|, i);
      assert At(m, i) != [];
    }
  }

  lemma MergeSlotGrows(S: Schema, f: Field, had: seq<Value>, from: seq<Value>)
    ensures had != [] || (from != [] && !f.rule.Implicit?) ==> MergeSlot(S, f, had, from) != []
  {
  }

  /** Three values of a singular field, none of them evicted. */
  lemma {:induction false} AssocValue(S: Schema, f: Field, had: seq<Value>, mid: seq<Value>, v: Value)
    requires WfSchema(S) && WfField(f) && !f.rule.Repeated?
    requires WfSlot(S, f, had) && WfSlot(S, f, mid) && WfValue(S, f.kind, v)
    ensures Adopt(S, f.kind, MergeSlot(S, f, had, mid), v) == Adopt(S, f.kind, had, Adopt(S, f.kind, mid, v))
       <==> AssociatesValue(S, f, had, mid, false, v)
    decreases v, 1
  {
    hide Merge, Wf, Empty;
    if v.Sub? {
      var t := f.kind.target;
      EmptyWf(S, t);
      AssocIff(S, t, Base(S, t, had), Base(S, t, mid), v.m);
      if mid == [] { EmptyIsRightUnit(S, t, Base(S, t, had)); }
      else { assert mid == [mid[0]] && WfValue(S, f.kind, mid[0]); }
    }
  }

  /** A submessage value merged in after its copy was merged into nothing. */
  lemma {:induction false} CopyThenAdopt(S: Schema, f: Field, had: seq<Value>, v: Value)
    requires WfSchema(S) && WfValue(S, f.kind, v) && (had != [] && f.kind.Message? ==> WfValue(S, f.kind, had[0]))
    ensures Adopt(S, f.kind, had, Adopt(S, f.kind, [], v)) == Adopt(S, f.kind, had, v)
    decreases v, 1
  {
    if v.Sub? {
      var t := f.kind.target;
      var base := Base(S, t, had);
      EmptyWf(S, t);
      EmptyMiddleAssociates(S, t, base, v.m);
      AssocIff(S, t, base, Empty(S, t), v.m);
      EmptyIsRightUnit(S, t, base);
    }
  }

  lemma AdoptAllConcat(S: Schema, k: Kind, vs: seq<Value>, ws: seq<Value>)
    ensures AdoptAll(S, k, vs + ws) == AdoptAll(S, k, vs) + AdoptAll(S, k, ws)
  {
    hide Adopt, AdoptAll;
    var both, parts := AdoptAll(S, k, vs + ws), AdoptAll(S, k, vs) + AdoptAll(S, k, ws);
    forall i | 0 <= i < |vs + ws| ensures both[i] == parts[i] {
      assert both[i] == Adopt(S, k, [], (vs + ws)[i]);
    }
    assert both == parts;
  }

  lemma {:induction false} AssocRepeated(S: Schema, f: Field, had: seq<Value>, mid: seq<Value>, vs: seq<Value>)
    requires WfSchema(S) && f.rule.Repeated? && WfSlot(S, f, vs)
    ensures MergeSlot(S, f, MergeSlot(S, f, had, mid), vs) == MergeSlot(S, f, had, MergeSlot(S, f, mid, vs))
    decreases vs, 2
  {
    var k := f.kind;
    if vs != [] {
      forall i | 0 <= i < |vs| ensures Adopt(S, k, [], Adopt(S, k, [], vs[i])) == Adopt(S, k, [], vs[i]) {
        CopyThenAdopt(S, f, [], vs[i]);
      }
      assert AdoptAll(S, k, AdoptAll(S, k, vs)) == AdoptAll(S, k, vs);
      AdoptAllConcat(S, k, mid, AdoptAll(S, k, vs));
      assert had + (AdoptAll(S, k, mid) + AdoptAll(S, k, vs)) == had + AdoptAll(S, k, mid) + AdoptAll(S, k, vs);
      if mid == [] {
        assert mid + AdoptAll(S, k, vs) == AdoptAll(S, k, vs);
      }
    }
  }

  /** Three contents of one field, none of them evicted. */
  lemma {:induction false} AssocSlot(S: Schema, f: Field, had: seq<Value>, mid: seq<Value>, vs: seq<Value>)
    requires WfSchema(S) && WfField(f) && WfSlot(S, f, had) && WfSlot(S, f, mid) && WfSlot(S, f, vs)
    ensures MergeSlot(S, f, MergeSlot(S, f, had, mid), vs) == MergeSlot(S, f, had, MergeSlot(S, f, mid, vs))
       <==> vs == [] || AssociatesValue(S, f, had, mid, false, vs[0])
    decreases vs, 3
  {
    if f.rule.Repeated? {
      AssocRepeated(S, f, had, mid, vs);
    } else if vs != [] {
      AssocValue(S, f, had, mid, vs[0]);
    }
  }

  /** A oneof member set in `a`, switched away from by `b` and back to by `c`. */
  lemma {:induction false} AssocSwitched(S: Schema, f: Field, had: seq<Value>, vs: seq<Value>)
    requires WfSchema(S) && WfField(f) && f.rule.Oneof? && WfSlot(S, f, had) && WfSlot(S, f, vs) && vs != []
    ensures MergeSlot(S, f, [], vs) == MergeSlot(S, f, had, MergeSlot(S, f, [], vs))
       <==> AssociatesValue(S, f, had, [], true, vs[0])
    decreases vs, 3
  {
    CopyThenAdopt(S, f, had, vs[0]);
    OverwrittenValueIff(S, f, had, vs[0]);
    if vs[0].Sub? {
      EmptyIsOverwritten(S, f.kind.target, vs[0].m);
      EmptyMiddleAssociates(S, f.kind.target, Empty(S, f.kind.target), vs[0].m);
    }
  }

  lemma {:induction false} AssocAt(S: Schema, t: MessageType, a: Msg, b: Msg, c: Msg, j: nat)
    requires WfSchema(S) && Wf(S, t, a) && Wf(S, t, b) && Wf(S, t, c) && j < |FieldsOf(S, t)|
    ensures var fs := FieldsOf(S, t);
      Merge(S, t, Merge(S, t, a, b), c).slots[j] == Merge(S, t, a, Merge(S, t, b, c)).slots[j]
      <==> c.slots[j].vs == [] || AssociatesValue(S, fs[j], At(a, j), At(b, j), Evicted(fs, b, |fs|, j), c.slots[j].vs[0])
    decreases c, 2
  {
    var fs := FieldsOf(S, t);
    var f := fs[j];
    var x, y, z := a.slots[j].vs, b.slots[j].vs, c.slots[j].vs;
    var eb, ec := Evicted(fs, b, |fs|, j), Evicted(fs, c, |fs|, j);
    assert WfSlot(S, f, x) && WfSlot(S, f, y) && WfSlot(S, f, z);
    MergeAt(S, t, a, b, j);
    MergeAt(S, t, Merge(S, t, a, b), c, j);
    MergeAt(S, t, b, c, j);
    MergeAt(S, t, a, Merge(S, t, b, c), j);
    EvictedByMerge(S, t, b, c, j);
    if z != [] {
      if eb { AssocSwitched(S, f, x, z); } else { AssocSlot(S, f, x, y, z); }
    }
  }

  /** Merging is associative exactly when no oneof is switched away from a submessage and back
      without that submessage being overwritten, at any depth where three submessages meet. */
  lemma {:induction false} AssocIff(S: Schema, t: MessageType, a: Msg, b: Msg, c: Msg)
    requires WfSchema(S) && Wf(S, t, a) && Wf(S, t, b) && Wf(S, t, c)
    ensures Merge(S, t, Merge(S, t, a, b), c) == Merge(S, t, a, Merge(S, t, b, c)) <==> Associates(S, t, a, b, c)
    decreases c, 3
  {
    var fs := FieldsOf(S, t);
    var l, r := Merge(S, t, Merge(S, t, a, b), c), Merge(S, t, a, Merge(S, t, b, c));
    assert a.unknown + b.unknown + c.unknown == a.unknown + (b.unknown + c.unknown);
    forall j: nat | j < |fs| { AssocAt(S, t, a, b, c, j); }
    assert l.slots == r.slots <==> forall j :: 0 <= j < |fs| ==> l.slots[j] == r.slots[j];
  }

  /** No oneof member is a submessage, and singular submessages are only of the types `ts`. */
  ghost predicate PlainFields(fs: seq<Field>, ts: set<MessageType>) {
    forall i :: 0 <= i < |fs| ==> PlainField(fs[i], ts)
  }

  ghost predicate PlainField(f: Field, ts: set<MessageType>) {
    f.kind.Message? && !f.rule.Repeated? ==> !f.rule.Oneof? && f.kind.target in ts
  }

  /** Types whose singular submessages, at every depth reached through singular fields, belong to
      no oneof: there merging is always associative. */
  ghost predicate Plain(S: Schema, ts: set<MessageType>) {
    forall t <- ts :: PlainFields(FieldsOf(S, t), ts)
  }

  lemma {:induction false} PlainAssociates(S: Schema, ts: set<MessageType>, t: MessageType, a: Msg, b: Msg, c: Msg)
    requires Plain(S, ts) && t in ts
    ensures Associates(S, t, a, b, c)
    decreases c
  {
    var fs := FieldsOf(S, t);
    forall j: nat | j < |fs| && j < |c.slots| && c.slots[j].vs != []
      ensures AssociatesValue(S, fs[j], At(a, j), At(b, j), Evicted(fs, b, |fs|, j), c.slots[j].vs[0])
    {
      var f, v := fs[j], c.slots[j].vs[0];
      assert PlainField(f, ts) && v < c;
      if v.Sub? && f.kind.Message? && !f.rule.Repeated? {
        var target := f.kind.target;
        PlainAssociates(S, ts, target, Base(S, target, At(a, j)), Base(S, target, At(b, j)), v.m);
      }
    }
  }
}
