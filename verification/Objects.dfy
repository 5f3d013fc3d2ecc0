/** Messages as the proto2 code keeps them in memory: has-bits, values that stay behind when their bit
    is cleared, and submessages that stay allocated, each again such an object.  Clearing, merging
    and parsing work on the bits, and a parse may fail anywhere and leave an object half parsed. */
module Objects {
  import opened Wire
  import Utf8
  import opened Schemas
  import opened Messages
  import opened Codec
  import opened MasterLaw
  import opened NormalForm
  import opened RoundTrip
  import opened MergeAlgebra
  import opened Parsing

  datatype Object = Object(cells: seq<Cell>, unknown: seq<Record>)

  /** What is kept for one field. */
  datatype Cell =
    | Kept(has: bool, v: Value)                             // a number or a string
    | Child(has: bool, p: Option<Object>)                   // a submessage, perhaps still null
    | OneofChild(p: Option<Object>)                         // a member of a oneof, null unless it is the live one
    | List(vs: seq<Value>)                                  // repeated numbers or strings
    | Children(live: seq<Object>, spare: seq<Object>)       // repeated submessages, and cleared ones kept for reuse

  // ------------------------------------------------------- the message it shows

  function View(o: Object): (m: Msg)
    ensures |m.slots| == |o.cells| && m.unknown == o.unknown
    decreases o
  {
    Msg(seq(|o.cells|, i requires 0 <= i < |o.cells| => Slot(Shown(o.cells[i]))), o.unknown)
  }

  function Shown(c: Cell): seq<Value>
    decreases c
  {
    match c
    case Kept(has, v) => if has then [v] else []
    case Child(has, p) => if has && p.Some? then [Sub(View(p.value))] else []
    case OneofChild(p) => if p.Some? then [Sub(View(p.value))] else []
    case List(vs) => vs
    case Children(live, _) => seq(|live|, i requires 0 <= i < |live| => Sub(View(live[i])))
  }

  function NewCell(f: Field): Cell {
    match f.rule
    case Repeated(_) => if f.kind.Message? then Children([], []) else List([])
    case Oneof(_) => OneofChild(None)
    case _ => if f.kind.Message? then Child(false, None) else Kept(false, Default(f.kind))
  }

  /** A new object. */
  function New(S: Schema, t: MessageType): Object {
    var fs := FieldsOf(S, t);
    Object(seq(|fs|, i requires 0 <= i < |fs| => NewCell(fs[i])), [])
  }

  // ------------------------------------------------------------- the invariant

  /** The member is the live one of its oneof. */
  predicate Live(c: Cell) {
    c.OneofChild? && c.p.Some?
  }

  /** No bit is set, nothing is live and every list is empty. */
  predicate Bare(o: Object) {
    o.unknown == [] && forall i :: 0 <= i < |o.cells| ==> BareCell(o.cells[i])
  }

  predicate BareCell(c: Cell) {
    match c
    case Kept(has, _) => !has
    case Child(has, _) => !has
    case OneofChild(p) => p.None?
    case List(vs) => vs == []
    case Children(live, _) => live == []
  }

  /** At every depth: a value whose bit is not set is zero or empty, a submessage whose bit is not set
      is null or bare, and bare are the spare ones. */
  ghost predicate Inv(S: Schema, t: MessageType, o: Object)
    decreases o
  {
    var fs := FieldsOf(S, t);
    && |o.cells| == |fs|
    && (forall i :: 0 <= i < |fs| ==> InvCell(S, fs[i], o.cells[i]))
    && (forall i: nat, j: nat :: Siblings(fs, i, j) ==> !Live(o.cells[i]) || !Live(o.cells[j]))
    && (forall r <- o.unknown :: ValidRecord(r) && Unrecognized(fs, r))
  }

  ghost predicate InvCell(S: Schema, f: Field, c: Cell)
    decreases c
  {
    match c
    case Kept(has, v) =>
      f.rule.Optional? && !f.kind.Message? && WfValue(S, f.kind, v) && (has || v == Default(f.kind))
    case Child(has, p) =>
      && f.rule.Optional? && f.kind.Message? && (has ==> p.Some?)
      && (p.Some? ==> Inv(S, f.kind.target, p.value) && (has || Bare(p.value)))
    case OneofChild(p) =>
      f.rule.Oneof? && f.kind.Message? && (p.Some? ==> Inv(S, f.kind.target, p.value))
    case List(vs) =>
      f.rule.Repeated? && !f.kind.Message? && forall i :: 0 <= i < |vs| ==> WfValue(S, f.kind, vs[i])
    case Children(live, spare) =>
      && f.rule.Repeated? && f.kind.Message?
      && (forall i :: 0 <= i < |live| ==> Inv(S, f.kind.target, live[i]))
      && (forall i :: 0 <= i < |spare| ==> Inv(S, f.kind.target, spare[i]) && Bare(spare[i]))
  }

  /** Fields of proto2 messages: presence is explicit, and oneofs hold submessages. */
  ghost predicate ExplicitField(f: Field, ts: set<MessageType>) {
    && !f.rule.Implicit? && (f.rule.Oneof? ==> f.kind.Message?)
    && (f.kind.Message? ==> f.kind.target in ts)
  }

  ghost predicate ExplicitFields(fs: seq<Field>, ts: set<MessageType>) {
    forall i :: 0 <= i < |fs| ==> ExplicitField(fs[i], ts)
  }

  /** A set of proto2 messages closed under field references. */
  ghost predicate Explicit(S: Schema, ts: set<MessageType>) {
    WfSchema(S) && forall t <- ts :: ExplicitFields(FieldsOf(S, t), ts)
  }

  lemma NewIsBare(S: Schema, ts: set<MessageType>, t: MessageType)
    requires Explicit(S, ts) && t in ts
    ensures Inv(S, t, New(S, t)) && Bare(New(S, t))
  {
    var fs, o := FieldsOf(S, t), New(S, t);
    forall i | 0 <= i < |fs| ensures InvCell(S, fs[i], o.cells[i]) {
      assert ExplicitField(fs[i], ts) && WfField(fs[i]);
    }
  }

  lemma NewByCells(S: Schema, t: MessageType, o: Object)
    requires |o.cells| == |FieldsOf(S, t)| && o.unknown == []
    requires forall i :: 0 <= i < |o.cells| ==> o.cells[i] == NewCell(FieldsOf(S, t)[i])
    ensures o == New(S, t)
  {
    assert o.cells == New(S, t).cells;
  }

  /** A bare object shows the empty message. */
  lemma BareIsEmpty(S: Schema, t: MessageType, o: Object)
    requires Inv(S, t, o) && Bare(o)
    ensures View(o) == Empty(S, t)
  {
    var fs := FieldsOf(S, t);
    forall i | 0 <= i < |fs| ensures View(o).slots[i] == Empty(S, t).slots[i] {
      assert InvCell(S, fs[i], o.cells[i]) && BareCell(o.cells[i]);
    }
    assert View(o).slots == Empty(S, t).slots;
  }

  /** What an object that satisfies the invariant shows is a well-formed message. */
  lemma {:induction false} ViewIsWf(S: Schema, t: MessageType, o: Object)
    requires Inv(S, t, o)
    ensures Wf(S, t, View(o))
    decreases o, 1
  {
    var fs, m := FieldsOf(S, t), View(o);
    forall i | 0 <= i < |fs| ensures WfSlot(S, fs[i], m.slots[i].vs) {
      assert InvCell(S, fs[i], o.cells[i]);
      ShownIsWf(S, fs[i], o.cells[i]);
    }
    forall i: nat, j: nat | Siblings(fs, i, j) ensures m.slots[i].vs == [] || m.slots[j].vs == [] {
      assert InvCell(S, fs[i], o.cells[i]) && InvCell(S, fs[j], o.cells[j]);
      assert m.slots[i] == Slot(Shown(o.cells[i])) && m.slots[j] == Slot(Shown(o.cells[j]));
    }
  }

  lemma {:induction false} ShownIsWf(S: Schema, f: Field, c: Cell)
    requires InvCell(S, f, c)
    ensures WfSlot(S, f, Shown(c))
    decreases c, 0
  {
    match c
    case Kept(_, _) =>
    case Child(_, p) => if p.Some? { ViewIsWf(S, f.kind.target, p.value); }
    case OneofChild(p) => if p.Some? { ViewIsWf(S, f.kind.target, p.value); }
    case List(_) =>
    case Children(live, _) =>
      forall i | 0 <= i < |live| ensures WfValue(S, f.kind, Shown(c)[i]) { ViewIsWf(S, f.kind.target, live[i]); }
  }

  /** An object is what its cells are, if none of them is in a oneof. */
  lemma InvByCells(S: Schema, t: MessageType, o: Object, m: Msg)
    requires Wf(S, t, m) && |o.cells| == |FieldsOf(S, t)| == |m.slots| && o.unknown == m.unknown
    requires forall i :: 0 <= i < |o.cells| ==>
               InvCell(S, FieldsOf(S, t)[i], o.cells[i]) && Shown(o.cells[i]) == m.slots[i].vs && !Live(o.cells[i])
    ensures Inv(S, t, o) && View(o) == m
  {
    forall i | 0 <= i < |o.cells| ensures View(o).slots[i] == m.slots[i] {
      assert Shown(o.cells[i]) == m.slots[i].vs;
    }
    assert View(o).slots == m.slots;
  }

  lemma CellsOf(S: Schema, t: MessageType, o: Object)
    requires Inv(S, t, o)
    ensures |o.cells| == |FieldsOf(S, t)| && o.unknown == View(o).unknown
    ensures forall i :: 0 <= i < |o.cells| ==>
              InvCell(S, FieldsOf(S, t)[i], o.cells[i]) && View(o).slots[i] == Slot(Shown(o.cells[i]))
  {
  }

  // ------------------------------------------------------------------ clearing

  /** `Clear()`: what has no bit set is not touched, submessages stay allocated.  (Numbers are zeroed in
      groups; that this comes to the same is part of the contract of `ValueProto.Clear`.) */
  function Clear(o: Object): (r: Object)
    ensures |r.cells| == |o.cells|
    decreases o
  {
    Object(seq(|o.cells|, i requires 0 <= i < |o.cells| => ClearCell(o.cells[i])), [])
  }

  function ClearCell(c: Cell): Cell
    decreases c
  {
    match c
    case Kept(has, v) => if has then Kept(false, if v.Data? then Data([]) else Num(0)) else c
    case Child(has, p) => if has && p.Some? then Child(false, Some(Clear(p.value))) else c
    case OneofChild(_) => OneofChild(None)
    case List(_) => List([])
    case Children(live, spare) =>
      Children([], seq(|live|, i requires 0 <= i < |live| => Clear(live[i])) + spare)
  }

  /** After it nothing is set, at any depth, although only what had its bit set was visited. */
  lemma {:induction false} ClearIsBare(S: Schema, t: MessageType, o: Object)
    requires Inv(S, t, o)
    ensures Inv(S, t, Clear(o)) && Bare(Clear(o)) && View(Clear(o)) == Empty(S, t)
    decreases o, 1
  {
    var fs, r := FieldsOf(S, t), Clear(o);
    forall i | 0 <= i < |fs| ensures InvCell(S, fs[i], r.cells[i]) && BareCell(r.cells[i]) {
      assert InvCell(S, fs[i], o.cells[i]);
      ClearCellIsBare(S, fs[i], o.cells[i]);
    }
    BareIsEmpty(S, t, r);
  }

  lemma ClearByCells(o: Object, r: Object)
    requires |r.cells| == |o.cells| && r.unknown == []
    requires forall i :: 0 <= i < |o.cells| ==> r.cells[i] == ClearCell(o.cells[i])
    ensures r == Clear(o)
  {
    assert r.cells == Clear(o).cells;
  }

  lemma {:induction false} ClearCellIsBare(S: Schema, f: Field, c: Cell)
    requires InvCell(S, f, c)
    ensures InvCell(S, f, ClearCell(c)) && BareCell(ClearCell(c))
    decreases c, 0
  {
    match c
    case Kept(_, v) =>
      assert v.Num? || v.Data?;
    case Child(has, p) => if has { ClearIsBare(S, f.kind.target, p.value); }
    case OneofChild(_) =>
    case List(_) =>
    case Children(live, spare) =>
      forall i | 0 <= i < |live| ensures Inv(S, f.kind.target, Clear(live[i])) && Bare(Clear(live[i])) {
        ClearIsBare(S, f.kind.target, live[i]);
      }
  }

  // ------------------------------------------------------------------- merging

  /** `_internal_mutable_x`: the submessage that is there, or a new one. */
  function Mutable(S: Schema, t: MessageType, p: Option<Object>): Object {
    if p.Some? then p.value else New(S, t)
  }

  /** `_internal_add_x`: a spare submessage, or a new one. */
  function NextSpare(S: Schema, t: MessageType, spare: seq<Object>): Object {
    if spare != [] then spare[0] else New(S, t)
  }

  function Spared(spare: seq<Object>): seq<Object> {
    if spare != [] then spare[1..] else []
  }

  function Pointed(c: Cell): Option<Object> {
    match c
    case Child(_, p) => p
    case OneofChild(p) => p
    case _ => None
  }

  /** Another member of the oneof of field `j` is live in `b`. */
  predicate Overridden(fs: seq<Field>, b: Object, j: nat) {
    exists i :: 0 <= i < |b.cells| && Siblings(fs, i, j) && Live(b.cells[i])
  }

  function MergeFrom(S: Schema, t: MessageType, a: Object, b: Object): (r: Object)
    ensures |r.cells| == |a.cells| && r.unknown == a.unknown + b.unknown
    decreases b, 1
  {
    var fs := FieldsOf(S, t);
    Object(seq(|a.cells|, j requires 0 <= j < |a.cells| =>
                 if j < |fs| && j < |b.cells|
                 then MergeCell(S, fs[j], if Overridden(fs, b, j) then OneofChild(None) else a.cells[j], b.cells[j])
                 else a.cells[j]),
           a.unknown + b.unknown)
  }

  function MergeCell(S: Schema, f: Field, x: Cell, y: Cell): Cell
    decreases y, 0
  {
    match y
    case Kept(has, v) => if has then Kept(true, v) else x
    case Child(has, p) =>
      if has && p.Some? && f.kind.Message?
      then Child(true, Some(MergeFrom(S, f.kind.target, Mutable(S, f.kind.target, Pointed(x)), p.value)))
      else x
    case OneofChild(p) =>
      if p.Some? && f.kind.Message?
      then OneofChild(Some(MergeFrom(S, f.kind.target, Mutable(S, f.kind.target, Pointed(x)), p.value)))
      else x
    case List(vs) => if x.List? then List(x.vs + vs) else x
    case Children(live, _) =>
      if x.Children? && f.kind.Message? then MergeChildren(S, f.kind.target, x.live, x.spare, live) else x
  }

  /** Elements are merged into spare ones as long as there are any, and then into new ones. */
  function MergeChildren(S: Schema, t: MessageType, live: seq<Object>, spare: seq<Object>, from: seq<Object>): (r: Cell)
    ensures r.Children?
    decreases from, 0
  {
    if from == [] then Children(live, spare)
    else MergeChildren(S, t, live + [MergeFrom(S, t, NextSpare(S, t, spare), from[0])], Spared(spare), from[1..])
  }

  /** Without oneofs the fields are merged one by one. */
  lemma MergeByCells(S: Schema, t: MessageType, a: Object, b: Object, r: Object)
    requires |a.cells| == |b.cells| == |r.cells| == |FieldsOf(S, t)| && r.unknown == a.unknown + b.unknown
    requires forall i :: 0 <= i < |r.cells| ==> !FieldsOf(S, t)[i].rule.Oneof?
    requires forall i :: 0 <= i < |r.cells| ==> r.cells[i] == MergeCell(S, FieldsOf(S, t)[i], a.cells[i], b.cells[i])
    ensures r == MergeFrom(S, t, a, b)
  {
    hide MergeCell;
    assert r.cells == MergeFrom(S, t, a, b).cells;
  }

  function CopyFrom(S: Schema, t: MessageType, o: Object, from: Object): Object {
    MergeFrom(S, t, Clear(o), from)
  }

  lemma {:induction false} MutableIsBase(S: Schema, ts: set<MessageType>, f: Field, c: Cell)
    requires Explicit(S, ts) && f.kind.Message? && f.kind.target in ts && InvCell(S, f, c) && !f.rule.Repeated?
    ensures var t := f.kind.target;
      var o := Mutable(S, t, Pointed(c));
      Inv(S, t, o) && View(o) == Base(S, t, Shown(c))
  {
    var t := f.kind.target;
    var o := Mutable(S, t, Pointed(c));
    NewIsBare(S, ts, t);
    if Shown(c) == [] { BareIsEmpty(S, t, o); }
  }

  lemma {:induction false} SpareIsEmpty(S: Schema, ts: set<MessageType>, f: Field, c: Cell)
    requires Explicit(S, ts) && f.kind.Message? && f.kind.target in ts && InvCell(S, f, c) && f.rule.Repeated?
    ensures var t := f.kind.target;
      var o := NextSpare(S, t, c.spare);
      Inv(S, t, o) && Bare(o) && View(o) == Empty(S, t)
  {
    NewIsBare(S, ts, f.kind.target);
    BareIsEmpty(S, f.kind.target, NextSpare(S, f.kind.target, c.spare));
  }

  /** One more live element takes the place of a spare one. */
  lemma {:induction false} ElementAdded(S: Schema, f: Field, c: Cell, o: Object)
    requires InvCell(S, f, c) && f.rule.Repeated? && f.kind.Message? && Inv(S, f.kind.target, o)
    ensures var c' := Children(c.live + [o], Spared(c.spare));
      InvCell(S, f, c') && Shown(c') == Shown(c) + [Sub(View(o))]
  {
  }

  lemma {:induction false} MergeRefines(S: Schema, ts: set<MessageType>, t: MessageType, a: Object, b: Object)
    requires Explicit(S, ts) && t in ts && Inv(S, t, a) && Inv(S, t, b)
    ensures Inv(S, t, MergeFrom(S, t, a, b))
    ensures View(MergeFrom(S, t, a, b)) == Merge(S, t, View(a), View(b))
    decreases b, 1
  {
    var fs, r := FieldsOf(S, t), MergeFrom(S, t, a, b);
    forall j: nat | j < |fs|
      ensures InvCell(S, fs[j], r.cells[j])
      ensures Shown(r.cells[j]) == Merge(S, t, View(a), View(b)).slots[j].vs
      ensures Live(r.cells[j]) ==> Live(b.cells[j]) || (Live(a.cells[j]) && !Overridden(fs, b, j))
    {
      var x := if Overridden(fs, b, j) then OneofChild(None) else a.cells[j];
      assert ExplicitField(fs[j], ts) && InvCell(S, fs[j], a.cells[j]) && InvCell(S, fs[j], b.cells[j]);
      assert InvCell(S, fs[j], x);
      MergeCellRefines(S, ts, fs[j], x, b.cells[j]);
      MergeAt(S, t, View(a), View(b), j);
      OverriddenIsEvicted(S, t, b, j);
    }
    forall i: nat, j: nat | Siblings(fs, i, j) ensures !Live(r.cells[i]) || !Live(r.cells[j]) {
      assert Siblings(fs, j, i);
      assert Live(b.cells[i]) ==> Overridden(fs, b, j);
      assert Live(b.cells[j]) ==> Overridden(fs, b, i);
    }
    assert View(r).slots == Merge(S, t, View(a), View(b)).slots;
  }

  lemma OverriddenIsEvicted(S: Schema, t: MessageType, b: Object, j: nat)
    requires Inv(S, t, b)
    ensures Overridden(FieldsOf(S, t), b, j) <==> Evicted(FieldsOf(S, t), View(b), |FieldsOf(S, t)|, j)
  {
    var fs := FieldsOf(S, t);
    forall i: nat | Siblings(fs, i, j) ensures Live(b.cells[i]) <==> At(View(b), i) != [] {
      assert InvCell(S, fs[i], b.cells[i]);
    }
  }

  lemma {:induction false} MergeCellRefines(S: Schema, ts: set<MessageType>, f: Field, x: Cell, y: Cell)
    requires Explicit(S, ts) && ExplicitField(f, ts) && InvCell(S, f, x) && InvCell(S, f, y)
    ensures InvCell(S, f, MergeCell(S, f, x, y))
    ensures Shown(MergeCell(S, f, x, y)) == MergeSlot(S, f, Shown(x), Shown(y))
    ensures Live(MergeCell(S, f, x, y)) <==> Live(x) || Live(y)
    decreases y, 0
  {
    hide Inv, View, MergeFrom, Merge, MergeChildren, AdoptAll, Empty, Mutable, WfValue;
    match y
    case Kept(_, _) =>
    case Child(has, p) =>
      if has {
        MutableIsBase(S, ts, f, x);
        MergeRefines(S, ts, f.kind.target, Mutable(S, f.kind.target, Pointed(x)), p.value);
      }
    case OneofChild(p) =>
      if p.Some? {
        MutableIsBase(S, ts, f, x);
        MergeRefines(S, ts, f.kind.target, Mutable(S, f.kind.target, Pointed(x)), p.value);
      }
    case List(vs) =>
      if vs == [] { assert Shown(x) + [] == Shown(x); }
      AdoptPlain(S, f.kind, vs);
    case Children(live, _) =>
      MergeChildrenRefines(S, ts, f, x, live);
      if live == [] { assert Shown(x) + [] == Shown(x); }
  }

  lemma {:induction false} AdoptPlain(S: Schema, k: Kind, vs: seq<Value>)
    requires !k.Message?
    ensures AdoptAll(S, k, vs) == vs
  {
  }

  lemma HasChildren(S: Schema, f: Field, c: Cell)
    requires InvCell(S, f, c) && f.rule.Repeated? && f.kind.Message?
    ensures c.Children?
  {
  }

  /** What the elements show. */
  function ShownAll(os: seq<Object>): (vs: seq<Value>)
    ensures |vs| == |os| && forall i :: 0 <= i < |os| ==> vs[i] == Sub(View(os[i]))
  {
    seq(|os|, i requires 0 <= i < |os| => Sub(View(os[i])))
  }

  lemma AdoptFirst(S: Schema, k: Kind, us: seq<Value>, from: seq<Object>)
    requires from != [] && k.Message?
    ensures us + [Sub(Merge(S, k.target, Empty(S, k.target), View(from[0])))] + AdoptAll(S, k, ShownAll(from[1..]))
         == us + AdoptAll(S, k, ShownAll(from))
  {
    hide Merge, View, Empty;
    assert ShownAll(from)[1..] == ShownAll(from[1..]);
  }

  lemma {:induction false} MergeChildrenRefines(S: Schema, ts: set<MessageType>, f: Field, x: Cell, from: seq<Object>)
    requires Explicit(S, ts) && ExplicitField(f, ts) && f.kind.Message? && f.rule.Repeated? && InvCell(S, f, x)
    requires forall i :: 0 <= i < |from| ==> Inv(S, f.kind.target, from[i])
    ensures var r := MergeChildren(S, f.kind.target, x.live, x.spare, from);
      InvCell(S, f, r) && Shown(r) == Shown(x) + AdoptAll(S, f.kind, ShownAll(from))
    decreases from, 0
  {
    hide Inv, InvCell, Bare, MergeFrom, Merge, Empty, View, Shown, WfSchema, NextSpare, Spared, AdoptAll;
    var t := f.kind.target;
    HasChildren(S, f, x);
    if from != [] {
      var o := MergeFrom(S, t, NextSpare(S, t, x.spare), from[0]);
      SpareIsEmpty(S, ts, f, x);
      MergeRefines(S, ts, t, NextSpare(S, t, x.spare), from[0]);
      ElementAdded(S, f, x, o);
      var x' := Children(x.live + [o], Spared(x.spare));
      MergeChildrenRefines(S, ts, f, x', from[1..]);
      AdoptFirst(S, f.kind, Shown(x), from);
    } else {
      assert Children(x.live, x.spare) == x;
      assert ShownAll(from) == [] && AdoptAll(S, f.kind, []) == [];
      assert Shown(x) + [] == Shown(x);
    }
  }

  // ------------------------------------------------------------------- parsing

  /** What a reader that fails may leave in a number, a string or a list: anything of the field's
      kind. */
  type Junk = Field -> seq<Value>

  predicate Plausible(k: Kind, v: Value) {
    match v
    case Num(n) => Numeric(k) && InRange(k, n)
    case Data(_) => k.Text? || k.Blob?
    case Sub(_) => false
  }

  function JunkOf(f: Field, junk: Junk): (vs: seq<Value>)
    ensures forall i :: 0 <= i < |vs| ==> Plausible(f.kind, vs[i])
  {
    var vs := junk(f);
    if forall i :: 0 <= i < |vs| ==> Plausible(f.kind, vs[i]) then vs else []
  }

  function OneJunk(f: Field, junk: Junk): Value {
    var vs := JunkOf(f, junk);
    if vs != [] then vs[0] else Default(f.kind)
  }

  datatype Parsed = Parsed(ok: bool, o: Object)
  datatype CellRead = CellRead(ok: bool, c: Cell)

  /** `MergeFromString`: what the object is afterwards, also if the parse fails. */
  function ParseFrom(S: Schema, t: MessageType, o: Object, b: bytes, junk: Junk): Parsed
    decreases |b|, 1
  {
    if b == [] then Parsed(true, o)
    else match ReadRecord(b)
      case Fail => Parsed(false, Broken(S, t, o, b, junk))
      case Ok(r, rest) =>
        var p := ApplyTo(S, t, o, r, junk);
        if p.ok then ParseFrom(S, t, p.o, rest, junk) else p
  }

  /** Field `i` gets a new cell; other members of its oneof are deleted. */
  function Put(fs: seq<Field>, o: Object, i: nat, c: Cell): Object {
    o.(cells := seq(|o.cells|, j requires 0 <= j < |o.cells| =>
                      if j == i then c else if Siblings(fs, i, j) then OneofChild(None) else o.cells[j]))
  }

  function ApplyTo(S: Schema, t: MessageType, o: Object, r: Record, junk: Junk): Parsed
    decreases PayloadLength(r.payload), 4
  {
    var fs := FieldsOf(S, t);
    var i := Find(fs, r.num);
    if Unrecognized(fs, r) || i >= |o.cells| then Parsed(true, o.(unknown := o.unknown + [r]))
    else
      var c := Take(S, fs[i], o.cells[i], r.payload, junk);
      Parsed(c.ok, Put(fs, o, i, c.c))
  }

  /** The case of one field: the bit is set, or the submessage made, before the payload is looked at. */
  function Take(S: Schema, f: Field, c: Cell, p: Payload, junk: Junk): CellRead
    decreases PayloadLength(p), 3
  {
    match c
    case Kept(_, _) => (
      match p
      case Scalar(v) => CellRead(true, Kept(true, Num(FromWire(f.kind, v))))
      case Word64(bits) => CellRead(true, Kept(true, Num(bits)))
      case Word32(bits) => CellRead(true, Kept(true, Num(bits)))
      case Delimited(d) => CellRead(f.kind == Text(true) ==> Utf8.Valid(d), Kept(true, Data(d))))
    case List(vs) => (
      match p
      case Scalar(v) => CellRead(true, List(vs + [Num(FromWire(f.kind, v))]))
      case Word64(bits) => CellRead(true, List(vs + [Num(bits)]))
      case Word32(bits) => CellRead(true, List(vs + [Num(bits)]))
      case Delimited(d) =>
        if !Numeric(f.kind) then CellRead(f.kind == Text(true) ==> Utf8.Valid(d), List(vs + [Data(d)]))
        else match Unpack(f.kind, d)
          case None => CellRead(false, List(vs + JunkOf(f, junk)))
          case Some(ws) => CellRead(true, List(vs + ws)))
    case _ => if f.kind.Message? && p.Delimited? then Enter(S, f, c, p.data, junk) else CellRead(true, c)
  }

  /** `ParseMessage` on the submessage that is there, a spare one or a new one; it stays as the nested
      parse leaves it. */
  function Enter(S: Schema, f: Field, c: Cell, d: bytes, junk: Junk): CellRead
    requires f.kind.Message?
    decreases |d|, 2
  {
    var t := f.kind.target;
    match c
    case Child(_, q) =>
      var p := ParseFrom(S, t, Mutable(S, t, q), d, junk); CellRead(p.ok, Child(true, Some(p.o)))
    case OneofChild(q) =>
      var p := ParseFrom(S, t, Mutable(S, t, q), d, junk); CellRead(p.ok, OneofChild(Some(p.o)))
    case Children(live, spare) =>
      var p := ParseFrom(S, t, NextSpare(S, t, spare), d, junk);
      CellRead(p.ok, Children(live + [p.o], Spared(spare)))
    case _ => CellRead(true, c)
  }

  /** The object after a record that cannot be read to its end. */
  function Broken(S: Schema, t: MessageType, o: Object, b: bytes, junk: Junk): Object
    decreases |b|, 0
  {
    match ReadTag(b)
    case Fail => o
    case Ok(tag, b1) =>
      var fs := FieldsOf(S, t);
      var i := Find(fs, tag / 8);
      if i < |fs| && i < |o.cells| && Takes(fs[i], tag % 8)
      then BrokenField(S, fs, o, i, b1, junk) else o
  }

  function BrokenField(S: Schema, fs: seq<Field>, o: Object, i: nat, b1: bytes, junk: Junk): Object
    requires i < |fs| && i < |o.cells|
    decreases |b1|, 4
  {
    Put(fs, o, i, BrokenCell(S, fs[i], o.cells[i], b1, junk))
  }

  /** A number or a string is spoilt, except that a closed enum is tested before it is stored; a nested
      parser runs on what there is. */
  function BrokenCell(S: Schema, f: Field, c: Cell, b1: bytes, junk: Junk): Cell
    decreases |b1|, 3
  {
    match c
    case Kept(_, _) => if f.kind.ClosedEnum? then c else Kept(true, OneJunk(f, junk))
    case List(vs) => List(vs + JunkOf(f, junk))
    case _ => if f.kind.Message? then Enter(S, f, c, Available(b1), junk).c else c
  }

  function Available(b1: bytes): (d: bytes)
    ensures |d| <= |b1|
  {
    match ReadSize(b1) case Fail => [] case Ok(_, rest) => rest
  }

  // ----------------------------------------------- parsing refines the specification

  /** A cell with one of its oneof set keeps the invariant. */
  lemma PutKeepsInv(S: Schema, t: MessageType, o: Object, i: nat, c: Cell)
    requires Inv(S, t, o) && i < |FieldsOf(S, t)| && InvCell(S, FieldsOf(S, t)[i], c)
    ensures Inv(S, t, Put(FieldsOf(S, t), o, i, c))
    ensures View(Put(FieldsOf(S, t), o, i, c)) == Store(FieldsOf(S, t), View(o), i, Shown(c))
  {
    var fs := FieldsOf(S, t);
    var r := Put(fs, o, i, c);
    forall j: nat | j < |fs| ensures InvCell(S, fs[j], r.cells[j]) {
      assert InvCell(S, fs[j], o.cells[j]);
    }
    forall j: nat, k: nat | Siblings(fs, j, k) ensures !Live(r.cells[j]) || !Live(r.cells[k]) {
      if i != j && i != k { assert !Live(o.cells[j]) || !Live(o.cells[k]); }
    }
    assert View(r).slots == Store(fs, View(o), i, Shown(c)).slots;
  }

  /** What the case of a field does to its cell is what the specification does to its content. */
  ghost predicate TakesAs(S: Schema, f: Field, c: Cell, p: Payload, r: CellRead) {
    && InvCell(S, f, r.c)
    && match Decode(S, f, Shown(c), p)
       case Malformed => !r.ok
       case Unusual => false
       case Values(vs) => r.ok && Shown(r.c) == if f.rule.Repeated? then Shown(c) + vs else vs
  }

  lemma {:induction false} ParseRefines(S: Schema, ts: set<MessageType>, t: MessageType, o: Object, b: bytes,
                                        junk: Junk)
    requires Explicit(S, ts) && t in ts && Inv(S, t, o)
    ensures var p := ParseFrom(S, t, o, b, junk);
      && Inv(S, t, p.o)
      && ParseInto(S, t, View(o), b) == if p.ok then Some(View(p.o)) else None
    decreases |b|, 1
  {
    hide Inv, View, Apply, ApplyTo, Broken, ReadRecord, WfSchema;
    if b != [] {
      match ReadRecord(b)
      case Fail => BrokenKeepsInv(S, ts, t, o, b, junk);
      case Ok(r, rest) =>
        ApplyRefines(S, ts, t, o, r, junk);
        var p := ApplyTo(S, t, o, r, junk);
        if p.ok { ParseRefines(S, ts, t, p.o, rest, junk); }
    }
  }

  lemma {:induction false} ApplyRefines(S: Schema, ts: set<MessageType>, t: MessageType, o: Object, r: Record,
                                        junk: Junk)
    requires Explicit(S, ts) && t in ts && Inv(S, t, o) && ValidRecord(r)
    ensures var p := ApplyTo(S, t, o, r, junk);
      && Inv(S, t, p.o)
      && Apply(S, t, View(o), r) == if p.ok then Some(View(p.o)) else None
    decreases PayloadLength(r.payload), 4
  {
    hide Put, Store, Take, Decode;
    var fs := FieldsOf(S, t);
    var i := Find(fs, r.num);
    if Unrecognized(fs, r) {
      assert View(o.(unknown := o.unknown + [r])).slots == View(o).slots;
      UnrecognizedIsKept(S, t, View(o), r);
    } else {
      assert InvCell(S, fs[i], o.cells[i]) && ExplicitField(fs[i], ts);
      TakeRefines(S, ts, fs[i], o.cells[i], r.payload, junk);
      PutKeepsInv(S, t, o, i, Take(S, fs[i], o.cells[i], r.payload, junk).c);
      assert At(View(o), i) == Shown(o.cells[i]);
    }
  }

  lemma {:induction false} TakeRefines(S: Schema, ts: set<MessageType>, f: Field, c: Cell, p: Payload, junk: Junk)
    requires Explicit(S, ts) && WfField(f) && ExplicitField(f, ts) && InvCell(S, f, c)
    requires ValidPayload(p) && Accepts(f, p)
    ensures TakesAs(S, f, c, p, Take(S, f, c, p, junk))
    decreases PayloadLength(p), 3
  {
    if f.kind.Message? {
      EnterRefines(S, ts, f, c, p.data, junk);
    } else if c.Kept? {
      KeptRefines(S, f, c, p, junk);
    } else {
      ListRefines(S, f, c, p, junk);
    }
  }

  lemma KeptRefines(S: Schema, f: Field, c: Cell, p: Payload, junk: Junk)
    requires WfField(f) && c.Kept? && InvCell(S, f, c) && ValidPayload(p) && Accepts(f, p)
    ensures TakesAs(S, f, c, p, Take(S, f, c, p, junk))
  {
    if p.Scalar? { FromWireInRange(f.kind, p.v); }
  }

  lemma ListRefines(S: Schema, f: Field, c: Cell, p: Payload, junk: Junk)
    requires WfField(f) && c.List? && InvCell(S, f, c) && ValidPayload(p) && Accepts(f, p)
    ensures TakesAs(S, f, c, p, Take(S, f, c, p, junk))
  {
    match p
    case Scalar(v) => FromWireInRange(f.kind, v);
    case Word64(_) =>
    case Word32(_) =>
    case Delimited(d) => if Numeric(f.kind) { UnpackWf(S, f, d); }
  }

  lemma {:induction false} EnterRefines(S: Schema, ts: set<MessageType>, f: Field, c: Cell, d: bytes, junk: Junk)
    requires Explicit(S, ts) && WfField(f) && ExplicitField(f, ts) && InvCell(S, f, c) && f.kind.Message?
    ensures TakesAs(S, f, c, Delimited(d), Enter(S, f, c, d, junk))
    decreases |d|, 2
  {
    hide ParseFrom, ParseInto, Inv, View, New, Empty;
    var t := f.kind.target;
    if f.rule.Repeated? {
      HasChildren(S, f, c);
      SpareIsEmpty(S, ts, f, c);
      ParseRefines(S, ts, t, NextSpare(S, t, c.spare), d, junk);
      ElementAdded(S, f, c, ParseFrom(S, t, NextSpare(S, t, c.spare), d, junk).o);
    } else {
      MutableIsBase(S, ts, f, c);
      ParseRefines(S, ts, t, Mutable(S, t, Pointed(c)), d, junk);
    }
  }

  /** A record that breaks off leaves the invariant, at every depth. */
  lemma {:induction false} BrokenKeepsInv(S: Schema, ts: set<MessageType>, t: MessageType, o: Object, b: bytes,
                                          junk: Junk)
    requires Explicit(S, ts) && t in ts && Inv(S, t, o)
    ensures Inv(S, t, Broken(S, t, o, b, junk))
    decreases |b|, 0
  {
    hide BrokenField, Inv, Explicit, Takes, Varint;
    match ReadTag(b)
    case Fail =>
    case Ok(tag, b1) =>
      var i := Find(FieldsOf(S, t), tag / 8);
      if i < |FieldsOf(S, t)| { BrokenFieldKeepsInv(S, ts, t, o, i, b1, junk); }
  }

  lemma {:induction false} BrokenFieldKeepsInv(S: Schema, ts: set<MessageType>, t: MessageType, o: Object, i: nat,
                                               b1: bytes, junk: Junk)
    requires Explicit(S, ts) && t in ts && Inv(S, t, o) && i < |FieldsOf(S, t)|
    ensures i < |o.cells| ==> Inv(S, t, BrokenField(S, FieldsOf(S, t), o, i, b1, junk))
    decreases |b1|, 4
  {
    hide Inv, InvCell, View, Store, BrokenCell, Put;
    var fs := FieldsOf(S, t);
    CellAt(S, ts, t, o, i);
    BrokenCellKeepsInv(S, ts, fs[i], o.cells[i], b1, junk);
    PutKeepsInv(S, t, o, i, BrokenCell(S, fs[i], o.cells[i], b1, junk));
  }

  lemma CellAt(S: Schema, ts: set<MessageType>, t: MessageType, o: Object, i: nat)
    requires Explicit(S, ts) && t in ts && Inv(S, t, o) && i < |FieldsOf(S, t)|
    ensures |o.cells| == |FieldsOf(S, t)| && InvCell(S, FieldsOf(S, t)[i], o.cells[i])
    ensures WfField(FieldsOf(S, t)[i]) && ExplicitField(FieldsOf(S, t)[i], ts)
  {
  }

  lemma {:induction false} BrokenCellKeepsInv(S: Schema, ts: set<MessageType>, f: Field, c: Cell, b1: bytes, junk: Junk)
    requires Explicit(S, ts) && WfField(f) && ExplicitField(f, ts) && InvCell(S, f, c)
    ensures InvCell(S, f, BrokenCell(S, f, c, b1, junk))
    decreases |b1|, 3
  {
    hide Enter;
    if f.kind.Message? {
      EnterRefines(S, ts, f, c, Available(b1), junk);
    } else {
      DefaultIsPlausible(f.kind);
    }
  }

  lemma DefaultIsPlausible(k: Kind)
    requires !k.Message? && (k.ClosedEnum? ==> k.last >= 0)
    ensures Plausible(k, Default(k))
  {
  }

  // ---------------------------------------------------------- history does not matter

  /** How an object came about. */
  datatype History =
    | Created
    | Cleared(h: History)
    | Merged(h: History, from: History)
    | Copied(h: History, from: History)
    | Fed(h: History, b: bytes, junk: Junk)    // a parse, which may have failed

  function Build(S: Schema, t: MessageType, h: History): Object {
    match h
    case Created => New(S, t)
    case Cleared(h') => Clear(Build(S, t, h'))
    case Merged(h', from) => MergeFrom(S, t, Build(S, t, h'), Build(S, t, from))
    case Copied(h', from) => CopyFrom(S, t, Build(S, t, h'), Build(S, t, from))
    case Fed(h', b, junk) => ParseFrom(S, t, Build(S, t, h'), b, junk).o
  }

  /** Whatever happened to it, an object satisfies the invariant. */
  lemma {:induction false} HistoryKeepsInv(S: Schema, ts: set<MessageType>, t: MessageType, h: History)
    requires Explicit(S, ts) && t in ts
    ensures Inv(S, t, Build(S, t, h))
    decreases h
  {
    hide Inv, Clear, MergeFrom, ParseFrom, New, View, Merge, ParseInto, Empty;
    match h
    case Created => NewIsBare(S, ts, t);
    case Cleared(h') =>
      HistoryKeepsInv(S, ts, t, h');
      ClearIsBare(S, t, Build(S, t, h'));
    case Merged(h', from) =>
      HistoryKeepsInv(S, ts, t, h');
      HistoryKeepsInv(S, ts, t, from);
      MergeRefines(S, ts, t, Build(S, t, h'), Build(S, t, from));
    case Copied(h', from) =>
      HistoryKeepsInv(S, ts, t, h');
      HistoryKeepsInv(S, ts, t, from);
      CopyShowsTheSame(S, ts, t, Build(S, t, h'), Build(S, t, from));
    case Fed(h', b, junk) =>
      HistoryKeepsInv(S, ts, t, h');
      ParseRefines(S, ts, t, Build(S, t, h'), b, junk);
  }

  lemma ExplicitIsExact(S: Schema, ts: set<MessageType>)
    requires Explicit(S, ts)
    ensures Exact(S, ts)
  {
    forall t | t in ts ensures ExactFields(FieldsOf(S, t), ts) {
      assert ExplicitFields(FieldsOf(S, t), ts);
      forall i | 0 <= i < |FieldsOf(S, t)| ensures ExactField(FieldsOf(S, t)[i], ts) {
        assert ExplicitField(FieldsOf(S, t)[i], ts);
      }
    }
  }

  lemma CopyShowsTheSame(S: Schema, ts: set<MessageType>, t: MessageType, o: Object, x: Object)
    requires Explicit(S, ts) && t in ts && Inv(S, t, o) && Inv(S, t, x)
    ensures Inv(S, t, CopyFrom(S, t, o, x)) && View(CopyFrom(S, t, o, x)) == View(x)
  {
    hide Inv, Clear, MergeFrom, View, Merge, Empty, Exact;
    ClearIsBare(S, t, o);
    MergeRefines(S, ts, t, Clear(o), x);
    ViewIsWf(S, t, x);
    ExplicitIsExact(S, ts);
    ExactIsCanonical(S, ts, t, View(x));
    CopyIsSame(S, t, View(x));
  }

  /** A copy shows what the original shows, whatever happened to either before. */
  lemma CopyForgetsHistory(S: Schema, ts: set<MessageType>, t: MessageType, h: History, from: History)
    requires Explicit(S, ts) && t in ts
    ensures View(Build(S, t, Copied(h, from))) == View(Build(S, t, from))
    ensures View(Build(S, t, Cleared(h))) == Empty(S, t)
  {
    hide Inv, View, Empty;
    HistoryKeepsInv(S, ts, t, h);
    HistoryKeepsInv(S, ts, t, from);
    CopyShowsTheSame(S, ts, t, Build(S, t, h), Build(S, t, from));
    ClearIsBare(S, t, Build(S, t, h));
  }

  /** Nothing is kept at any depth but zeros, empty strings, nulls and objects that are hollow again. */
  ghost predicate Hollow(o: Object)
    decreases o
  {
    o.unknown == [] && forall i :: 0 <= i < |o.cells| ==> HollowCell(o.cells[i])
  }

  ghost predicate HollowCell(c: Cell)
    decreases c
  {
    match c
    case Kept(has, v) => !has && (v == Num(0) || v == Data([]))
    case Child(has, p) => !has && (p.Some? ==> Hollow(p.value))
    case OneofChild(p) => p.None?
    case List(vs) => vs == []
    case Children(live, spare) => live == [] && forall i :: 0 <= i < |spare| ==> Hollow(spare[i])
  }

  lemma {:induction false} BareIsHollow(S: Schema, t: MessageType, o: Object)
    requires Inv(S, t, o) && Bare(o)
    ensures Hollow(o)
    decreases o, 1
  {
    forall i | 0 <= i < |o.cells| ensures HollowCell(o.cells[i]) {
      var f := FieldsOf(S, t)[i];
      assert InvCell(S, f, o.cells[i]) && BareCell(o.cells[i]);
      SparesAreHollow(S, f, o.cells[i]);
    }
  }

  /** What a field keeps though its bit is not set is hollow. */
  lemma {:induction false} SparesAreHollow(S: Schema, f: Field, c: Cell)
    requires InvCell(S, f, c)
    ensures c.Kept? && !c.has ==> c.v == Num(0) || c.v == Data([])
    ensures c.Child? && !c.has && c.p.Some? ==> Hollow(c.p.value)
    ensures c.Children? ==> forall i :: 0 <= i < |c.spare| ==> Hollow(c.spare[i])
    decreases c, 0
  {
    match c
    case Kept(_, _) =>
    case Child(has, p) => if !has && p.Some? { BareIsHollow(S, f.kind.target, p.value); }
    case OneofChild(_) =>
    case List(_) =>
    case Children(_, spare) =>
      forall i | 0 <= i < |spare| ensures Hollow(spare[i]) { BareIsHollow(S, f.kind.target, spare[i]); }
  }

  /** So whatever happened to an object: what has its bit not set is zero, empty, null or hollow. */
  lemma {:induction false} UnsetIsHollow(S: Schema, ts: set<MessageType>, t: MessageType, h: History, i: nat)
    requires Explicit(S, ts) && t in ts && i < |Build(S, t, h).cells|
    ensures var c := Build(S, t, h).cells[i];
      && (c.Kept? && !c.has ==> c.v == Num(0) || c.v == Data([]))
      && (c.Child? && !c.has && c.p.Some? ==> Hollow(c.p.value))
      && (c.Children? ==> forall k :: 0 <= k < |c.spare| ==> Hollow(c.spare[k]))
  {
    hide Hollow, Build, Explicit;
    HistoryKeepsInv(S, ts, t, h);
    SparesAreHollow(S, FieldsOf(S, t)[i], Build(S, t, h).cells[i]);
  }

  lemma ClearedIsHollow(S: Schema, ts: set<MessageType>, t: MessageType, h: History)
    requires Explicit(S, ts) && t in ts
    ensures Hollow(Build(S, t, Cleared(h)))
  {
    hide Hollow, View, Inv;
    HistoryKeepsInv(S, ts, t, h);
    ClearIsBare(S, t, Build(S, t, h));
    BareIsHollow(S, t, Clear(Build(S, t, h)));
  }

  /** That is what copying rests on: a retained submessage that still shows something while its bit is
      not set is passed over by `Clear()` and comes to light in the copy. */
  lemma {:induction false} StaleChildLeaks(S: Schema, ts: set<MessageType>, f: Field, stale: Object)
    requires Explicit(S, ts) && f.rule.Optional? && f.kind.Message? && f.kind.target in ts
    requires Inv(S, f.kind.target, stale) && View(stale) != Empty(S, f.kind.target)
    ensures var from := Child(true, Some(New(S, f.kind.target)));
      Shown(MergeCell(S, f, ClearCell(Child(false, Some(stale))), from)) != Shown(from)
  {
    hide Inv, View, MergeFrom, Merge, New, Empty;
    var t := f.kind.target;
    NewIsBare(S, ts, t);
    BareIsEmpty(S, t, New(S, t));
    MergeRefines(S, ts, t, stale, New(S, t));
    ViewIsWf(S, t, stale);
    EmptyIsRightUnit(S, t, View(stale));
  }

  // ------------------------------------------------ what was retained is invisible

  lemma ParseStep(S: Schema, t: MessageType, o: Object, b: bytes, junk: Junk)
    ensures b == [] ==> ParseFrom(S, t, o, b, junk) == Parsed(true, o)
    ensures b != [] && ReadRecord(b).Fail? ==> ParseFrom(S, t, o, b, junk) == Parsed(false, Broken(S, t, o, b, junk))
    ensures b != [] && ReadRecord(b).Ok? ==>
              ParseFrom(S, t, o, b, junk) == Onwards(S, t, ApplyTo(S, t, o, ReadRecord(b).value, junk),
                                                     ReadRecord(b).rest, junk)
  {
  }

  function Onwards(S: Schema, t: MessageType, p: Parsed, rest: bytes, junk: Junk): Parsed {
    if p.ok then ParseFrom(S, t, p.o, rest, junk) else p
  }

  /** Two objects that show the same message show the same after the same parse, even if it fails. */
  lemma {:induction false} ParseLooksTheSame(S: Schema, ts: set<MessageType>, t: MessageType, o: Object, x: Object,
                                             b: bytes, junk: Junk)
    requires Explicit(S, ts) && t in ts && Inv(S, t, o) && Inv(S, t, x) && View(o) == View(x)
    ensures ParseFrom(S, t, o, b, junk).ok == ParseFrom(S, t, x, b, junk).ok
    ensures View(ParseFrom(S, t, o, b, junk).o) == View(ParseFrom(S, t, x, b, junk).o)
    decreases |b|, 1
  {
    hide Inv, View, ParseFrom, ApplyTo, Broken, ReadRecord, Explicit, ParseInto;
    ParseStep(S, t, o, b, junk);
    ParseStep(S, t, x, b, junk);
    if b != [] {
      match ReadRecord(b)
      case Fail => BrokenLooksTheSame(S, ts, t, o, x, b, junk);
      case Ok(r, rest) =>
        ApplyLooksTheSame(S, ts, t, o, x, r, junk);
        var p, q := ApplyTo(S, t, o, r, junk), ApplyTo(S, t, x, r, junk);
        if p.ok { ParseLooksTheSame(S, ts, t, p.o, q.o, rest, junk); }
    }
  }

  lemma {:induction false} ApplyLooksTheSame(S: Schema, ts: set<MessageType>, t: MessageType, o: Object, x: Object,
                                             r: Record, junk: Junk)
    requires Explicit(S, ts) && t in ts && Inv(S, t, o) && Inv(S, t, x) && View(o) == View(x) && ValidRecord(r)
    ensures ApplyTo(S, t, o, r, junk).ok == ApplyTo(S, t, x, r, junk).ok
    ensures View(ApplyTo(S, t, o, r, junk).o) == View(ApplyTo(S, t, x, r, junk).o)
    ensures Inv(S, t, ApplyTo(S, t, o, r, junk).o) && Inv(S, t, ApplyTo(S, t, x, r, junk).o)
    decreases PayloadLength(r.payload), 4
  {
    hide Put, Store, Take, Decode, Apply, Inv, InvCell, Shown;
    var fs := FieldsOf(S, t);
    var i := Find(fs, r.num);
    if Unrecognized(fs, r) {
      ApplyRefines(S, ts, t, o, r, junk);
      ApplyRefines(S, ts, t, x, r, junk);
    } else {
      CellAt(S, ts, t, o, i);
      CellAt(S, ts, t, x, i);
      ShownAt(o, i);
      ShownAt(x, i);
      var f := fs[i];
      TakeLooksTheSame(S, ts, f, o.cells[i], x.cells[i], r.payload, junk);
      TakeRefines(S, ts, f, o.cells[i], r.payload, junk);
      TakeRefines(S, ts, f, x.cells[i], r.payload, junk);
      PutKeepsInv(S, t, o, i, Take(S, f, o.cells[i], r.payload, junk).c);
      PutKeepsInv(S, t, x, i, Take(S, f, x.cells[i], r.payload, junk).c);
    }
  }

  lemma ShownAt(o: Object, i: nat)
    requires i < |o.cells|
    ensures View(o).slots[i] == Slot(Shown(o.cells[i]))
  {
  }

  lemma {:induction false} TakeLooksTheSame(S: Schema, ts: set<MessageType>, f: Field, c: Cell, d: Cell, p: Payload,
                                            junk: Junk)
    requires Explicit(S, ts) && WfField(f) && ExplicitField(f, ts) && InvCell(S, f, c) && InvCell(S, f, d)
    requires Shown(c) == Shown(d) && ValidPayload(p) && Accepts(f, p)
    ensures Take(S, f, c, p, junk).ok == Take(S, f, d, p, junk).ok
    ensures Shown(Take(S, f, c, p, junk).c) == Shown(Take(S, f, d, p, junk).c)
    decreases PayloadLength(p), 3
  {
    if f.kind.Message? { EnterLooksTheSame(S, ts, f, c, d, p.data, junk); }
  }

  lemma {:induction false} EnterLooksTheSame(S: Schema, ts: set<MessageType>, f: Field, c: Cell, d: Cell, data: bytes,
                                             junk: Junk)
    requires Explicit(S, ts) && WfField(f) && ExplicitField(f, ts) && InvCell(S, f, c) && InvCell(S, f, d)
    requires Shown(c) == Shown(d) && f.kind.Message?
    ensures Enter(S, f, c, data, junk).ok == Enter(S, f, d, data, junk).ok
    ensures Shown(Enter(S, f, c, data, junk).c) == Shown(Enter(S, f, d, data, junk).c)
    decreases |data|, 2
  {
    hide ParseFrom, ParseInto, Inv, View, New, Empty;
    var t := f.kind.target;
    if f.rule.Repeated? {
      HasChildren(S, f, c);
      HasChildren(S, f, d);
      SpareIsEmpty(S, ts, f, c);
      SpareIsEmpty(S, ts, f, d);
      var o, x := NextSpare(S, t, c.spare), NextSpare(S, t, d.spare);
      ParseRefines(S, ts, t, o, data, junk);
      ParseRefines(S, ts, t, x, data, junk);
      ParseLooksTheSame(S, ts, t, o, x, data, junk);
      ElementAdded(S, f, c, ParseFrom(S, t, o, data, junk).o);
      ElementAdded(S, f, d, ParseFrom(S, t, x, data, junk).o);
    } else {
      MutableIsBase(S, ts, f, c);
      MutableIsBase(S, ts, f, d);
      ParseLooksTheSame(S, ts, t, Mutable(S, t, Pointed(c)), Mutable(S, t, Pointed(d)), data, junk);
    }
  }

  lemma {:induction false} BrokenLooksTheSame(S: Schema, ts: set<MessageType>, t: MessageType, o: Object, x: Object,
                                              b: bytes, junk: Junk)
    requires Explicit(S, ts) && t in ts && Inv(S, t, o) && Inv(S, t, x) && View(o) == View(x)
    ensures View(Broken(S, t, o, b, junk)) == View(Broken(S, t, x, b, junk))
    decreases |b|, 0
  {
    hide BrokenField, Inv, Explicit, Takes, Varint, View;
    match ReadTag(b)
    case Fail =>
    case Ok(tag, b1) =>
      var i := Find(FieldsOf(S, t), tag / 8);
      if i < |FieldsOf(S, t)| { BrokenFieldLooksTheSame(S, ts, t, o, x, i, b1, junk); }
  }

  lemma {:induction false} BrokenFieldLooksTheSame(S: Schema, ts: set<MessageType>, t: MessageType, o: Object, x: Object,
                                                   i: nat, b1: bytes, junk: Junk)
    requires Explicit(S, ts) && t in ts && Inv(S, t, o) && Inv(S, t, x) && View(o) == View(x)
    requires i < |FieldsOf(S, t)|
    ensures |o.cells| == |x.cells| == |FieldsOf(S, t)|
    ensures View(BrokenField(S, FieldsOf(S, t), o, i, b1, junk)) == View(BrokenField(S, FieldsOf(S, t), x, i, b1, junk))
    decreases |b1|, 4
  {
    hide Inv, InvCell, View, Store, BrokenCell, Put, Shown;
    var fs := FieldsOf(S, t);
    CellAt(S, ts, t, o, i);
    CellAt(S, ts, t, x, i);
    ShownAt(o, i);
    ShownAt(x, i);
    BrokenCellLooksTheSame(S, ts, fs[i], o.cells[i], x.cells[i], b1, junk);
    BrokenCellKeepsInv(S, ts, fs[i], o.cells[i], b1, junk);
    BrokenCellKeepsInv(S, ts, fs[i], x.cells[i], b1, junk);
    PutKeepsInv(S, t, o, i, BrokenCell(S, fs[i], o.cells[i], b1, junk));
    PutKeepsInv(S, t, x, i, BrokenCell(S, fs[i], x.cells[i], b1, junk));
  }

  lemma {:induction false} BrokenCellLooksTheSame(S: Schema, ts: set<MessageType>, f: Field, c: Cell, d: Cell,
                                                  b1: bytes, junk: Junk)
    requires Explicit(S, ts) && WfField(f) && ExplicitField(f, ts) && InvCell(S, f, c) && InvCell(S, f, d)
    requires Shown(c) == Shown(d)
    ensures Shown(BrokenCell(S, f, c, b1, junk)) == Shown(BrokenCell(S, f, d, b1, junk))
    decreases |b1|, 3
  {
    hide Enter, View;
    if f.kind.Message? { EnterLooksTheSame(S, ts, f, c, d, Available(b1), junk); }
  }

  /** The memory an object retained cannot be observed through any operation. */
  lemma RetainedIsInvisible(S: Schema, ts: set<MessageType>, t: MessageType, h: History, h': History, from: History,
                            from': History, b: bytes, junk: Junk)
    requires Explicit(S, ts) && t in ts
    requires View(Build(S, t, h)) == View(Build(S, t, h')) && View(Build(S, t, from)) == View(Build(S, t, from'))
    ensures View(Build(S, t, Merged(h, from))) == View(Build(S, t, Merged(h', from')))
    ensures View(Build(S, t, Fed(h, b, junk))) == View(Build(S, t, Fed(h', b, junk)))
    ensures ParseFrom(S, t, Build(S, t, h), b, junk).ok == ParseFrom(S, t, Build(S, t, h'), b, junk).ok
  {
    hide Inv, View, ParseFrom, MergeFrom, Merge;
    HistoryKeepsInv(S, ts, t, h);
    HistoryKeepsInv(S, ts, t, h');
    HistoryKeepsInv(S, ts, t, from);
    HistoryKeepsInv(S, ts, t, from');
    MergeRefines(S, ts, t, Build(S, t, h), Build(S, t, from));
    MergeRefines(S, ts, t, Build(S, t, h'), Build(S, t, from'));
    ParseLooksTheSame(S, ts, t, Build(S, t, h), Build(S, t, h'), b, junk);
  }

  // ------------------------------------------------------ the loops of the parsers

  /** `ParseMessage` of a singular submessage: the nested parser goes on with the object that is there,
      which stays half parsed if it fails. */
  method ReadObject(S: Schema, ghost ts: set<MessageType>, ghost t: MessageType, ghost m: Msg, ghost i: nat, f: Field,
                    base: Object, ghost b: bytes, b1: bytes)
    returns (ok: bool, o: Object, rest: bytes)
    requires Explicit(S, ts) && ExplicitField(f, ts) && f.kind.Message? && !f.rule.Repeated?
    requires Inv(S, f.kind.target, base) && View(base) == Base(S, f.kind.target, At(m, i))
    requires AtPlainField(S, t, m, i, f, 2, b, b1)
    ensures Handled(S, t, ok, m, b, SetSlot(m, i, [Sub(View(o))]), rest)
    ensures Inv(S, f.kind.target, o) && Wf(S, t, SetSlot(m, i, [Sub(View(o))]))
  {
    hide ParseInto, ParseFrom, ReadTag, Wf, StepsTo, Fails, Varint, Store, ReadDelimited, Inv, View, Base, Explicit;
    DelimitedTurn(S, t, m, i, f, b, b1);
    var junk: Junk := *;
    var p;
    match ReadDelimited(b1) {
      case Fail =>
        p := ParseFrom(S, f.kind.target, base, Available(b1), junk);
        ParseRefines(S, ts, f.kind.target, base, Available(b1), junk);
        ok, o, rest := false, p.o, b1;
      case Ok(d, rest') =>
        p := ParseFrom(S, f.kind.target, base, d, junk);
        ParseRefines(S, ts, f.kind.target, base, d, junk);
        DelimitedIsDecoded(S, f, At(m, i), d);
        ok, o, rest := p.ok, p.o, rest';
    }
    ViewIsWf(S, f.kind.target, o);
    assert WfValue(S, f.kind, Sub(View(o)));
    SetSlotWf(S, t, m, i, [Sub(View(o))]);
    StoreIsSetSlot(FieldsOf(S, t), m, i, [Sub(View(o))]);
  }

  /** `ParseMessage` of one more element, into a spare object or a new one, which stays half parsed if
      that fails. */
  method ReadElement(S: Schema, ghost ts: set<MessageType>, f: Field, cell: Cell, b1: bytes)
    returns (ok: bool, c: Cell, ghost v: Value, rest: bytes)
    requires Explicit(S, ts) && WfField(f) && ExplicitField(f, ts) && f.kind.Message? && f.rule.Repeated?
    requires InvCell(S, f, cell)
    ensures InvCell(S, f, c)
    ensures if ok then ReadValue(S, f, [], b1) == Ok(v, rest) && Shown(c) == Shown(cell) + [v]
            else ReadValue(S, f, [], b1).Fail?
  {
    hide Enter, InvCell, Shown, ParseInto, Explicit;
    var junk: Junk := *;
    v := Num(0);
    match ReadDelimited(b1) {
      case Fail =>
        EnterRefines(S, ts, f, cell, Available(b1), junk);
        ok, c, rest := false, Enter(S, f, cell, Available(b1), junk).c, b1;
      case Ok(d, rest') =>
        EnterRefines(S, ts, f, cell, d, junk);
        DelimitedIsDecoded(S, f, Shown(cell), d);
        var r := Enter(S, f, cell, d, junk);
        ok, c, rest := r.ok, r.c, rest';
        if ok { v := ReadValue(S, f, [], b1).value; }
    }
  }

  /** The do-while loop of a repeated submessage. */
  method ReadElements(S: Schema, ghost ts: set<MessageType>, ghost t: MessageType, ghost m: Msg, ghost i: nat, f: Field,
                      cell: Cell, ghost b: bytes, b1: bytes)
    returns (ok: bool, c: Cell, rest: bytes)
    requires Explicit(S, ts) && ExplicitField(f, ts) && f.kind.Message? && f.rule.Repeated?
    requires InvCell(S, f, cell) && Shown(cell) == At(m, i) && AtPlainField(S, t, m, i, f, 2, b, b1)
    ensures Handled(S, t, ok, m, b, SetSlot(m, i, Shown(c)), rest)
    ensures InvCell(S, f, c) && Wf(S, t, SetSlot(m, i, Shown(c)))
  {
    hide ReadTag, Wf, StepsTo, Fails, Varint, InvCell, Shown, Explicit, ReadValue, ParseInto, Store;
    var tag := Tag(f.num, 2);
    ghost var vs, at := [], b;
    ok, c, rest := true, cell, b1;
    assert Shown(c) + [] == Shown(c);
    var more := true;
    while more
      invariant InvCell(S, f, c)
      invariant ok ==> Shown(c) == At(m, i) + vs
      invariant more ==> ok && InRun(S, t, m, i, f, b, vs, at, rest)
      invariant !more ==> Handled(S, t, ok, m, b, Append(FieldsOf(S, t), m, i, vs), rest)
      decreases more, |rest|
    {
      RunStep(S, t, m, i, f, b, vs, at, rest);
      ghost var v;
      ok, c, v, rest := ReadElement(S, ts, f, c, rest);
      if ok {
        assert At(m, i) + vs + [v] == At(m, i) + (vs + [v]);
        vs := vs + [v];
      }
      var dataAvailable: bool := *;
      more := ok && dataAvailable && ExpectTag(tag, rest);
      if more {
        ExpectedTagIsRead(tag, rest);
        at := rest;
        rest := rest[|Varint(tag)|..];
      }
    }
    ShownIsWf(S, f, c);
    SetSlotWf(S, t, m, i, Shown(c));
    StoreIsSetSlot(FieldsOf(S, t), m, i, Shown(c));
  }
}
