/** The master law beyond printed bytes: for which inputs, of any origin, parsing into a message is the
    same as merging what the input parses to on its own. */
module AnyInput {
  import opened Wire
  import Utf8
  import opened Schemas
  import opened Messages
  import opened Codec
  import opened MasterLaw
  import opened NormalForm
  import opened RoundTrip
  import opened Streams
  import opened MergeAlgebra

  // -------------------------------------- whether an input is accepted at all

  /** Whether a payload is malformed does not depend on what the field holds ... */
  lemma {:induction false} DecodeAlike(S: Schema, f: Field, had: seq<Value>, had': seq<Value>, p: Payload)
    ensures Decode(S, f, had, p).Malformed? <==> Decode(S, f, had', p).Malformed?
    decreases PayloadLength(p), 1
  {
    hide ParseInto, Unpack;
    if Accepts(f, p) && f.kind.Message? {
      var t := f.kind.target;
      ParseAlike(S, t, Base(S, t, if f.rule.Repeated? then [] else had),
                 Base(S, t, if f.rule.Repeated? then [] else had'), p.data);
    }
  }

  /** ... and so whether an input is accepted does not depend on the message it is parsed into. */
  lemma {:induction false} ParseAlike(S: Schema, t: MessageType, m: Msg, m': Msg, b: bytes)
    ensures ParseInto(S, t, m, b).Some? <==> ParseInto(S, t, m', b).Some?
    decreases |b|, 0
  {
    if b != [] && ReadRecord(b).Ok? {
      var r, rest := ReadRecord(b).value, ReadRecord(b).rest;
      var fs := FieldsOf(S, t);
      var i := Find(fs, r.num);
      if i < |fs| { DecodeAlike(S, fs[i], At(m, i), At(m', i), r.payload); }
      assert Apply(S, t, m, r).Some? <==> Apply(S, t, m', r).Some?;
      if Apply(S, t, m, r).Some? {
        ParseAlike(S, t, Apply(S, t, m, r).value, Apply(S, t, m', r).value, rest);
      }
    }
  }

  // --------------------------------------------------- the way of a single field

  /** The case of field `i` takes the record. */
  predicate TakesRecord(fs: seq<Field>, i: nat, r: Record) {
    i < |fs| && Find(fs, r.num) == i && Accepts(fs[i], r.payload)
  }

  /** Content of field `j` after one more record. */
  function NextContent(S: Schema, fs: seq<Field>, j: nat, had: seq<Value>, r: Record): seq<Value>
    requires j < |fs|
  {
    var i := Find(fs, r.num);
    if !TakesRecord(fs, i, r) then had
    else if i == j then
      match Decode(S, fs[j], had, r.payload)
      case Values(vs) => if fs[j].rule.Repeated? then had + vs else vs
      case _ => had
    else if Siblings(fs, i, j) then [] else had
  }

  function After(S: Schema, fs: seq<Field>, j: nat, had: seq<Value>, rs: seq<Record>): seq<Value>
    requires j < |fs|
    decreases |rs|
  {
    if rs == [] then had
    else NextContent(S, fs, j, After(S, fs, j, had, rs[..|rs| - 1]), rs[|rs| - 1])
  }

  lemma ApplyAt(S: Schema, t: MessageType, m: Msg, r: Record, j: nat)
    requires j < |FieldsOf(S, t)| == |m.slots| && Apply(S, t, m, r).Some?
    ensures At(Apply(S, t, m, r).value, j) == NextContent(S, FieldsOf(S, t), j, At(m, j), r)
  {
  }

  lemma {:induction false} ApplyAllAt(S: Schema, t: MessageType, m: Msg, rs: seq<Record>, j: nat)
    requires j < |FieldsOf(S, t)| == |m.slots| && ApplyAll(S, t, m, rs).Some?
    ensures At(ApplyAll(S, t, m, rs).value, j) == After(S, FieldsOf(S, t), j, At(m, j), rs)
    decreases |rs|
  {
    hide Apply, ApplyAll, NextContent;
    if rs == [] {
      NothingApplied(S, t, m);
    } else {
      var init, r := rs[..|rs| - 1], rs[|rs| - 1];
      assert rs == init + [r];
      ApplyAllConcat(S, t, m, init, [r]);
      ApplyAllKeepsShape(S, t, m, init);
      OneRecord(S, t, ApplyAll(S, t, m, init).value, r);
      ApplyAllAt(S, t, m, init, j);
      ApplyAt(S, t, ApplyAll(S, t, m, init).value, r, j);
    }
  }

  lemma NothingApplied(S: Schema, t: MessageType, m: Msg)
    ensures ApplyAll(S, t, m, []) == Some(m)
  {
  }

  /** The records no field takes. */
  function Left(fs: seq<Field>, rs: seq<Record>): seq<Record> {
    if rs == [] then [] else (if Unrecognized(fs, rs[0]) then [rs[0]] else []) + Left(fs, rs[1..])
  }

  lemma UnknownAfterOne(S: Schema, t: MessageType, m: Msg, r: Record)
    requires Apply(S, t, m, r).Some?
    ensures Apply(S, t, m, r).value.unknown == m.unknown + if Unrecognized(FieldsOf(S, t), r) then [r] else []
  {
    assert m.unknown + [] == m.unknown;
  }

  lemma {:induction false} UnknownAfter(S: Schema, t: MessageType, m: Msg, rs: seq<Record>)
    requires ApplyAll(S, t, m, rs).Some?
    ensures ApplyAll(S, t, m, rs).value.unknown == m.unknown + Left(FieldsOf(S, t), rs)
    decreases |rs|
  {
    hide Apply, Unrecognized;
    if rs == [] {
      assert m.unknown + [] == m.unknown;
    } else {
      UnknownAfterOne(S, t, m, rs[0]);
      UnknownAfter(S, t, Apply(S, t, m, rs[0]).value, rs[1..]);
      var first := if Unrecognized(FieldsOf(S, t), rs[0]) then [rs[0]] else [];
      assert m.unknown + first + Left(FieldsOf(S, t), rs[1..]) == m.unknown + (first + Left(FieldsOf(S, t), rs[1..]));
    }
  }

  // ------------------------------------------------- repeated fields and scalars

  /** A repeated field gains the same, whatever it holds. */
  lemma {:induction false} RepeatedAfter(S: Schema, fs: seq<Field>, j: nat, had: seq<Value>, rs: seq<Record>)
    requires j < |fs| && fs[j].rule.Repeated?
    ensures After(S, fs, j, had, rs) == had + After(S, fs, j, [], rs)
    decreases |rs|
  {
    if rs == [] {
      assert had + [] == had;
    } else {
      var init, r := rs[..|rs| - 1], rs[|rs| - 1];
      var x, y := After(S, fs, j, had, init), After(S, fs, j, [], init);
      RepeatedAfter(S, fs, j, had, init);
      DecodeIgnoresContent(S, fs[j], x, y, r.payload);
      match Decode(S, fs[j], y, r.payload)
      case Values(vs) => assert had + y + vs == had + (y + vs);
      case _ =>
    }
  }

  /** Some record sets field `j` or another member of its oneof. */
  predicate Touched(fs: seq<Field>, j: nat, rs: seq<Record>) {
    exists k :: 0 <= k < |rs| && Touches(fs, j, rs[k])
  }

  predicate Touches(fs: seq<Field>, j: nat, r: Record) {
    var i := Find(fs, r.num);
    TakesRecord(fs, i, r) && (i == j || Siblings(fs, i, j))
  }

  lemma TouchedStep(fs: seq<Field>, j: nat, rs: seq<Record>)
    requires rs != []
    ensures Touched(fs, j, rs) <==> Touched(fs, j, rs[..|rs| - 1]) || Touches(fs, j, rs[|rs| - 1])
  {
    var n := |rs| - 1;
    if Touched(fs, j, rs[..n]) {
      var k :| 0 <= k < n && Touches(fs, j, rs[..n][k]);
      assert Touches(fs, j, rs[k]);
    }
    if Touched(fs, j, rs) && !Touches(fs, j, rs[n]) {
      var k :| 0 <= k < |rs| && Touches(fs, j, rs[k]);
      assert rs[..n][k] == rs[k];
    }
  }

  lemma {:induction false} UntouchedAfter(S: Schema, fs: seq<Field>, j: nat, had: seq<Value>, rs: seq<Record>)
    requires j < |fs| && !Touched(fs, j, rs)
    ensures After(S, fs, j, had, rs) == had
    decreases |rs|
  {
    if rs != [] {
      TouchedStep(fs, j, rs);
      UntouchedAfter(S, fs, j, had, rs[..|rs| - 1]);
    }
  }

  /** A number or string that is set at all holds the same afterwards, whatever was there. */
  lemma {:induction false} ScalarAfter(S: Schema, fs: seq<Field>, j: nat, had: seq<Value>, had': seq<Value>,
                                       rs: seq<Record>)
    requires j < |fs| && !fs[j].rule.Repeated? && !fs[j].kind.Message? && Touched(fs, j, rs)
    requires forall k :: 0 <= k < |rs| && TakesRecord(fs, j, rs[k]) ==> !Decode(S, fs[j], [], rs[k].payload).Malformed?
    ensures After(S, fs, j, had, rs) == After(S, fs, j, had', rs)
    decreases |rs|
  {
    var init, r := rs[..|rs| - 1], rs[|rs| - 1];
    TouchedStep(fs, j, rs);
    if Touches(fs, j, r) {
      if TakesRecord(fs, j, r) { assert !Decode(S, fs[j], [], r.payload).Malformed?; }
    } else {
      forall k | 0 <= k < |init| && TakesRecord(fs, j, init[k])
        ensures !Decode(S, fs[j], [], init[k].payload).Malformed?
      {
        assert init[k] == rs[k];
      }
      ScalarAfter(S, fs, j, had, had', init);
    }
  }

  // ---------------------------------------------------------- singular submessages

  /** The records for a submessage since its oneof was last elsewhere: whether it ever was, whether
      there are any, and their contents put end to end. */
  datatype Gathered = Gathered(switched: bool, any: bool, data: bytes)

  function Gather(fs: seq<Field>, j: nat, rs: seq<Record>): Gathered
    decreases |rs|
  {
    if rs == [] then Gathered(false, false, [])
    else
      var g, r := Gather(fs, j, rs[..|rs| - 1]), rs[|rs| - 1];
      var i := Find(fs, r.num);
      if !TakesRecord(fs, i, r) then g
      else if i == j then
        Gathered(g.switched, true, g.data + if r.payload.Delimited? then r.payload.data else [])
      else if Siblings(fs, i, j) then Gathered(true, false, []) else g
  }

  /** The submessage is what parsing the gathered contents makes of the one it started with. */
  ghost predicate GatheredIn(S: Schema, f: Field, had: seq<Value>, g: Gathered, x: seq<Value>)
    requires f.kind.Message?
  {
    var t := f.kind.target;
    if g.any then
      var p := ParseInto(S, t, if g.switched then Empty(S, t) else Base(S, t, had), g.data);
      p.Some? && x == [Sub(p.value)]
    else g.data == [] && x == if g.switched then [] else had
  }

  lemma {:induction false} MessageAfter(S: Schema, fs: seq<Field>, j: nat, had: seq<Value>, rs: seq<Record>)
    requires j < |fs| && !fs[j].rule.Repeated? && fs[j].kind.Message?
    requires forall k :: 0 <= k < |rs| && TakesRecord(fs, j, rs[k]) ==> !Decode(S, fs[j], [], rs[k].payload).Malformed?
    ensures GatheredIn(S, fs[j], had, Gather(fs, j, rs), After(S, fs, j, had, rs))
    decreases |rs|
  {
    if rs != [] {
      var init, r := rs[..|rs| - 1], rs[|rs| - 1];
      forall k | 0 <= k < |init| && TakesRecord(fs, j, init[k])
        ensures !Decode(S, fs[j], [], init[k].payload).Malformed?
      {
        assert init[k] == rs[k];
      }
      MessageAfter(S, fs, j, had, init);
      if TakesRecord(fs, j, r) {
        assert !Decode(S, fs[j], [], r.payload).Malformed?;
        DecodeAlike(S, fs[j], [], After(S, fs, j, had, init), r.payload);
        OneMore(S, fs[j], had, Gather(fs, j, init), After(S, fs, j, had, init), r.payload.data);
      }
    }
  }

  lemma OneMore(S: Schema, f: Field, had: seq<Value>, g: Gathered, x: seq<Value>, d: bytes)
    requires f.kind.Message? && !f.rule.Repeated? && GatheredIn(S, f, had, g, x)
    requires ParseInto(S, f.kind.target, Base(S, f.kind.target, x), d).Some?
    ensures GatheredIn(S, f, had, Gathered(g.switched, true, g.data + d),
                       [Sub(ParseInto(S, f.kind.target, Base(S, f.kind.target, x), d).value)])
  {
    var t := f.kind.target;
    if g.any {
      ParseIsFold(S, t, if g.switched then Empty(S, t) else Base(S, t, had), g.data, d);
    } else {
      assert [] + d == d;
    }
  }

  // --------------------------------------------------------------- what is shorter

  function TotalData(rs: seq<Record>): nat {
    if rs == [] then 0 else PayloadLength(rs[0].payload) + TotalData(rs[1..])
  }

  lemma {:induction false} TotalDataSnoc(rs: seq<Record>, r: Record)
    ensures TotalData(rs + [r]) == TotalData(rs) + PayloadLength(r.payload)
    decreases |rs|
  {
    if rs != [] {
      assert (rs + [r])[1..] == rs[1..] + [r];
      TotalDataSnoc(rs[1..], r);
    }
  }

  lemma {:induction false} GatheredIsPart(fs: seq<Field>, j: nat, rs: seq<Record>)
    ensures |Gather(fs, j, rs).data| <= TotalData(rs)
    decreases |rs|
  {
    if rs != [] {
      var init, r := rs[..|rs| - 1], rs[|rs| - 1];
      GatheredIsPart(fs, j, init);
      assert rs == init + [r];
      TotalDataSnoc(init, r);
    }
  }

  lemma RecordIsLonger(b: bytes)
    requires ReadRecord(b).Ok?
    ensures PayloadLength(ReadRecord(b).value.payload) + |ReadRecord(b).rest| < |b|
  {
  }

  lemma {:induction false} InputIsLonger(b: bytes)
    requires RecordsOf(b).Some?
    ensures TotalData(RecordsOf(b).value) <= |b| && (b != [] ==> TotalData(RecordsOf(b).value) < |b|)
    decreases |b|
  {
    if b != [] {
      RecordIsLonger(b);
      InputIsLonger(ReadRecord(b).rest);
    }
  }

  lemma GatheredIsShorter(fs: seq<Field>, j: nat, b: bytes)
    requires RecordsOf(b).Some? && Gather(fs, j, RecordsOf(b).value).any
    ensures |Gather(fs, j, RecordsOf(b).value).data| < |b|
  {
    GatheredIsPart(fs, j, RecordsOf(b).value);
    InputIsLonger(b);
  }

  // ------------------------------------------------------------------ the condition

  /** When parsing `b` into `m` is merging into `m` what `b` parses to: no proto3 scalar is set to zero
      by an explicit record over something else, no repeated element holds a negative zero that
      merging drops, and where the oneof of a submessage is switched away and back, what comes last
      hides what was there; and so on in the submessages. */
  ghost predicate MergesAs(S: Schema, t: MessageType, m: Msg, b: bytes)
    requires RecordsOf(b).Some?
    decreases |b|, 1
  {
    forall j :: 0 <= j < |FieldsOf(S, t)| ==> SlotMergesAs(S, FieldsOf(S, t), j, At(m, j), b)
  }

  ghost predicate SlotMergesAs(S: Schema, fs: seq<Field>, j: nat, had: seq<Value>, b: bytes)
    requires j < |fs| && RecordsOf(b).Some?
    decreases |b|, 0
  {
    var f, rs := fs[j], RecordsOf(b).value;
    var y := After(S, fs, j, Fresh(f), rs);
    if f.rule.Repeated? then CanonicalSlot(S, f, y)
    else if f.kind.Message? then
      var g := Gather(fs, j, rs);
      g.any ==>
        if g.switched then y != [] && y[0].Sub? && Hidden(S, f.kind.target, Base(S, f.kind.target, had), y[0].m)
        else
          GatheredIsShorter(fs, j, b);
          RecordsOf(g.data).Some? && MergesAs(S, f.kind.target, Base(S, f.kind.target, had), g.data)
    else
      f.rule.Implicit? && Touched(fs, j, rs) ==> y != [] && (!IsZero(f.kind, y[0]) || had == y)
  }

  // -------------------------------------------------------------------- the law

  lemma {:induction false} AcceptedRecords(S: Schema, t: MessageType, m: Msg, rs: seq<Record>, j: nat, k: nat)
    requires j < |FieldsOf(S, t)| && k < |rs| && ApplyAll(S, t, m, rs).Some? && TakesRecord(FieldsOf(S, t), j, rs[k])
    ensures !Decode(S, FieldsOf(S, t)[j], [], rs[k].payload).Malformed?
    decreases |rs|
  {
    if k == 0 {
      DecodeAlike(S, FieldsOf(S, t)[j], [], At(m, j), rs[0].payload);
    } else {
      AcceptedRecords(S, t, Apply(S, t, m, rs[0]).value, rs[1..], j, k - 1);
    }
  }

  /** Which records touch a field of a oneof. */
  lemma {:induction false} TouchedIsMembers(fs: seq<Field>, g: nat, j: nat, rs: seq<Record>)
    requires j < |fs| && fs[j].rule == Oneof(g)
    ensures Touched(fs, j, rs) <==> Members(fs, g, rs) != []
    decreases |rs|
  {
    if rs != [] {
      TouchedIsMembers(fs, g, j, rs[1..]);
      assert Touches(fs, j, rs[0]) <==> SetsMember(fs, g, rs[0]);
      if Touched(fs, j, rs[1..]) {
        var k :| 0 <= k < |rs[1..]| && Touches(fs, j, rs[1..][k]);
        assert Touches(fs, j, rs[k + 1]);
      }
      if Touched(fs, j, rs) && !Touches(fs, j, rs[0]) {
        var k :| 0 <= k < |rs| && Touches(fs, j, rs[k]);
        assert Touches(fs, j, rs[1..][k - 1]);
      }
    }
  }

  /** In a message parsed from nothing, a oneof field is evicted if it was touched and is empty. */
  lemma EvictedAfter(S: Schema, t: MessageType, rs: seq<Record>, j: nat)
    requires j < |FieldsOf(S, t)| && ApplyAll(S, t, Empty(S, t), rs).Some?
    ensures var fs := FieldsOf(S, t);
      var e := ApplyAll(S, t, Empty(S, t), rs).value;
      Evicted(fs, e, |fs|, j) <==> fs[j].rule.Oneof? && Touched(fs, j, rs) && At(e, j) == []
  {
    hide ApplyAll, Members, Touched, LastRunWins, SameMembers, RunStart;
    var fs, e0 := FieldsOf(S, t), Empty(S, t);
    var e := ApplyAll(S, t, e0, rs).value;
    if fs[j].rule.Oneof? {
      var g := fs[j].rule.group;
      TouchedIsMembers(fs, g, j, rs);
      if Touched(fs, j, rs) {
        LastOneofRunWins(S, t, g, e0, rs);
        WinnerEvicts(S, t, g, rs, e, j);
      } else {
        NoMemberRecords(S, t, g, e0, rs);
        NoneEvicted(S, t, g, e, j);
      }
    }
  }

  lemma {:induction false} WinnerEvicts(S: Schema, t: MessageType, g: nat, rs: seq<Record>, e: Msg, j: nat)
    requires j < |FieldsOf(S, t)| && FieldsOf(S, t)[j].rule == Oneof(g)
    requires Members(FieldsOf(S, t), g, rs) != []
    requires LastRunWins(S, t, g, Empty(S, t), Members(FieldsOf(S, t), g, rs), e)
    ensures Evicted(FieldsOf(S, t), e, |FieldsOf(S, t)|, j) <==> At(e, j) == []
  {
    hide ApplyAll, ClearOneof, RunStart, Members, Empty;
    var fs := FieldsOf(S, t);
    var ms := Members(fs, g, rs);
    MembersAreMembers(fs, g, rs);
    assert SetsMember(fs, g, ms[|ms| - 1]);
    var i := Find(fs, ms[|ms| - 1].num);
    if i != j { assert Siblings(fs, i, j); }
  }

  lemma NoneEvicted(S: Schema, t: MessageType, g: nat, e: Msg, j: nat)
    requires j < |FieldsOf(S, t)| && FieldsOf(S, t)[j].rule == Oneof(g) && SameMembers(FieldsOf(S, t), g, Empty(S, t), e)
    ensures !Evicted(FieldsOf(S, t), e, |FieldsOf(S, t)|, j)
  {
    var fs := FieldsOf(S, t);
    forall i: nat | Siblings(fs, i, j) ensures At(e, i) == [] {
      assert e.slots[i] == Empty(S, t).slots[i];
    }
  }

  /** What both parses leave in field `j`. */
  lemma BothSides(S: Schema, t: MessageType, m: Msg, rs: seq<Record>, j: nat)
    requires WfSchema(S) && Wf(S, t, m) && j < |FieldsOf(S, t)|
    requires ApplyAll(S, t, m, rs).Some? && ApplyAll(S, t, Empty(S, t), rs).Some?
    ensures var fs := FieldsOf(S, t);
      var e := ApplyAll(S, t, Empty(S, t), rs).value;
      && At(ApplyAll(S, t, m, rs).value, j) == After(S, fs, j, At(m, j), rs)
      && At(e, j) == After(S, fs, j, Fresh(fs[j]), rs)
      && (Evicted(fs, e, |fs|, j) <==> fs[j].rule.Oneof? && Touched(fs, j, rs) && At(e, j) == [])
  {
    hide ApplyAll, After, Touched, Evicted;
    ApplyAllAt(S, t, m, rs, j);
    ApplyAllAt(S, t, Empty(S, t), rs, j);
    EvictedAfter(S, t, rs, j);
  }

  lemma RepeatedSlotIff(S: Schema, t: MessageType, m: Msg, rs: seq<Record>, j: nat, b: bytes)
    requires WfSchema(S) && Wf(S, t, m) && j < |FieldsOf(S, t)| && RecordsOf(b) == Some(rs)
    requires ApplyAll(S, t, m, rs).Some? && ApplyAll(S, t, Empty(S, t), rs).Some?
    requires FieldsOf(S, t)[j].rule.Repeated? && Wf(S, t, ApplyAll(S, t, Empty(S, t), rs).value)
    ensures SlotIff(S, t, m, rs, j, b)
  {
    hide ApplyAll, After, Touched, Evicted, MergeSlot, CanonicalSlot, Wf, WfSchema, RecordsOf;
    var fs := FieldsOf(S, t);
    var had, gained := At(m, j), After(S, fs, j, [], rs);
    BothSides(S, t, m, rs, j);
    SlotsAreTyped(S, t, ApplyAll(S, t, Empty(S, t), rs).value, j);
    RepeatedAfter(S, fs, j, had, rs);
    RepeatedMerges(S, fs[j], had, gained);
  }

  lemma ScalarSlotIff(S: Schema, t: MessageType, m: Msg, rs: seq<Record>, j: nat, b: bytes)
    requires WfSchema(S) && Wf(S, t, m) && j < |FieldsOf(S, t)| && RecordsOf(b) == Some(rs)
    requires ApplyAll(S, t, m, rs).Some? && ApplyAll(S, t, Empty(S, t), rs).Some?
    requires !FieldsOf(S, t)[j].rule.Repeated? && !FieldsOf(S, t)[j].kind.Message?
    requires Wf(S, t, ApplyAll(S, t, Empty(S, t), rs).value)
    ensures SlotIff(S, t, m, rs, j, b)
  {
    hide ApplyAll, After, Touched, Evicted, Wf, WfSchema, RecordsOf, MergesAs, Merge;
    var fs := FieldsOf(S, t);
    var f, had := fs[j], At(m, j);
    BothSides(S, t, m, rs, j);
    SlotsAreTyped(S, t, ApplyAll(S, t, Empty(S, t), rs).value, j);
    if Touched(fs, j, rs) {
      forall k | 0 <= k < |rs| && TakesRecord(fs, j, rs[k]) ensures !Decode(S, f, [], rs[k].payload).Malformed? {
        AcceptedRecords(S, t, m, rs, j, k);
      }
      ScalarAfter(S, fs, j, had, Fresh(f), rs);
      if !f.rule.Oneof? { TouchedIsSet(S, fs, j, had, rs); }
      var y := After(S, fs, j, had, rs);
      ScalarMerged(S, f, had, y);
      ScalarMerged(S, f, [], y);
      if f.rule.Implicit? {
        assert At(ApplyAll(S, t, Empty(S, t), rs).value, j) == y;
      } else {
        assert SlotMergesAs(S, fs, j, had, b);
      }
    } else {
      UntouchedAfter(S, fs, j, had, rs);
      UntouchedAfter(S, fs, j, Fresh(f), rs);
    }
  }

  lemma ScalarMerged(S: Schema, f: Field, had: seq<Value>, y: seq<Value>)
    requires !f.rule.Repeated? && !f.kind.Message? && |y| <= 1
    ensures MergeSlot(S, f, had, y) == if y == [] || (f.rule.Implicit? && IsZero(f.kind, y[0])) then had else y
  {
    if y != [] { assert y == [y[0]]; }
  }

  /** Outside oneofs a record always sets its field. */
  lemma {:induction false} TouchedIsSet(S: Schema, fs: seq<Field>, j: nat, had: seq<Value>, rs: seq<Record>)
    requires j < |fs| && !fs[j].rule.Repeated? && !fs[j].kind.Message? && !fs[j].rule.Oneof? && Touched(fs, j, rs)
    requires forall k :: 0 <= k < |rs| && TakesRecord(fs, j, rs[k]) ==> !Decode(S, fs[j], [], rs[k].payload).Malformed?
    ensures After(S, fs, j, had, rs) != []
    decreases |rs|
  {
    var init, r := rs[..|rs| - 1], rs[|rs| - 1];
    TouchedStep(fs, j, rs);
    if TakesRecord(fs, j, r) {
      assert !Decode(S, fs[j], [], r.payload).Malformed?;
    } else {
      forall k | 0 <= k < |init| && TakesRecord(fs, j, init[k])
        ensures !Decode(S, fs[j], [], init[k].payload).Malformed?
      {
        assert init[k] == rs[k];
      }
      TouchedIsSet(S, fs, j, had, init);
    }
  }

  /** A singular submessage. */
  lemma {:induction false} MessageSlotIff(S: Schema, t: MessageType, m: Msg, rs: seq<Record>, j: nat, b: bytes)
    requires WfSchema(S) && Wf(S, t, m) && j < |FieldsOf(S, t)| && RecordsOf(b) == Some(rs)
    requires ApplyAll(S, t, m, rs).Some? && ApplyAll(S, t, Empty(S, t), rs).Some?
    requires !FieldsOf(S, t)[j].rule.Repeated? && FieldsOf(S, t)[j].kind.Message?
    ensures SlotIff(S, t, m, rs, j, b)
    decreases |b|, 0
  {
    hide Base, ApplyAll, After, Touched, Evicted, Wf, RecordsOf, MergesAs, Merge, MergeSlot, ParseInto, Empty, Gather, Hidden;
    var fs := FieldsOf(S, t);
    var f, had, g := fs[j], At(m, j), Gather(fs, j, rs);
    var target := f.kind.target;
    NothingIsEmpty(S, target);
    BothSides(S, t, m, rs, j);
    SlotsAreTyped(S, t, m, j);
    forall k | 0 <= k < |rs| && TakesRecord(fs, j, rs[k]) ensures !Decode(S, f, [], rs[k].payload).Malformed? {
      AcceptedRecords(S, t, m, rs, j, k);
    }
    MessageAfter(S, fs, j, had, rs);
    MessageAfter(S, fs, j, [], rs);
    GatherTouches(fs, j, rs);
    if !g.any {
      NothingMerged(S, f, had);
      NothingMerged(S, f, []);
      assert SlotMergesAs(S, fs, j, had, b);
    } else if g.switched {
      var z := ParseInto(S, target, Empty(S, target), g.data).value;
      EmptyWf(S, target);
      ParseKeepsWf(S, target, Empty(S, target), g.data);
      MessageIsTyped(S, f, had);
      HiddenIff(S, target, Base(S, target, had), z);
      OneSubmessage(S, f, had, z, z);
    } else {
      GatheredIsShorter(fs, j, b);
      MessageIsTyped(S, f, had);
      InputMergesIff(S, target, Base(S, target, had), g.data);
      var p, z := ParseInto(S, target, Base(S, target, had), g.data).value, Parse(S, target, g.data).value;
      OneSubmessage(S, f, had, p, z);
      assert SlotMergesAs(S, fs, j, had, b) <==> MergesAs(S, target, Base(S, target, had), g.data);
    }
  }

  lemma NothingIsEmpty(S: Schema, t: MessageType)
    ensures Base(S, t, []) == Empty(S, t)
  {
  }

  lemma NothingMerged(S: Schema, f: Field, had: seq<Value>)
    ensures MergeSlot(S, f, had, []) == had
  {
  }

  /** A submessage merged in. */
  lemma OneSubmessage(S: Schema, f: Field, had: seq<Value>, p: Msg, z: Msg)
    requires f.kind.Message? && !f.rule.Repeated? && !f.rule.Implicit?
    ensures [Sub(p)] == MergeSlot(S, f, had, [Sub(z)]) <==> p == Merge(S, f.kind.target, Base(S, f.kind.target, had), z)
  {
    hide Merge;
    var m := Merge(S, f.kind.target, Base(S, f.kind.target, had), z);
    assert [Sub(p)][0] == Sub(p) && [Sub(m)][0] == Sub(m);
  }

  lemma MessageIsTyped(S: Schema, f: Field, had: seq<Value>)
    requires WfSchema(S) && f.kind.Message? && WfSlot(S, f, had)
    ensures Wf(S, f.kind.target, Base(S, f.kind.target, had))
  {
    EmptyWf(S, f.kind.target);
    if had != [] { assert WfValue(S, f.kind, had[0]); }
  }

  lemma {:induction false} GatherTouches(fs: seq<Field>, j: nat, rs: seq<Record>)
    ensures Touched(fs, j, rs) <==> Gather(fs, j, rs).any || Gather(fs, j, rs).switched
    ensures j < |fs| && !fs[j].rule.Oneof? ==> !Gather(fs, j, rs).switched
    decreases |rs|
  {
    if rs != [] {
      TouchedStep(fs, j, rs);
      GatherTouches(fs, j, rs[..|rs| - 1]);
    }
  }

  /** For every well-formed message and every input that parses at all: parsing it into the message is
      merging what it parses to, exactly if the condition holds. */
  lemma {:induction false} InputMergesIff(S: Schema, t: MessageType, m: Msg, b: bytes)
    requires WfSchema(S) && Wf(S, t, m) && Parse(S, t, b).Some?
    ensures RecordsOf(b).Some? && ParseInto(S, t, m, b).Some?
    ensures ParseInto(S, t, m, b) == Some(Merge(S, t, m, Parse(S, t, b).value)) <==> MergesAs(S, t, m, b)
    decreases |b|, 1
  {
    hide Apply, ApplyAll, Merge, MergeSlot, Evicted, Wf, SlotMergesAs, RecordsOf, ParseInto, Empty;
    EmptyWf(S, t);
    ParseAlike(S, t, m, Empty(S, t), b);
    ParseAppliesRecords(S, t, m, b);
    ParseAppliesRecords(S, t, Empty(S, t), b);
    ParseKeepsWf(S, t, m, b);
    ParseKeepsWf(S, t, Empty(S, t), b);
    var rs := RecordsOf(b).value;
    forall j: nat | j < |FieldsOf(S, t)| ensures SlotIff(S, t, m, rs, j, b) {
      var f := FieldsOf(S, t)[j];
      if f.rule.Repeated? { RepeatedSlotIff(S, t, m, rs, j, b); }
      else if f.kind.Message? { MessageSlotIff(S, t, m, rs, j, b); }
      else { ScalarSlotIff(S, t, m, rs, j, b); }
    }
    SlotsTogether(S, t, m, rs, b);
  }

  lemma SlotsTogether(S: Schema, t: MessageType, m: Msg, rs: seq<Record>, b: bytes)
    requires WfSchema(S) && Wf(S, t, m) && RecordsOf(b) == Some(rs)
    requires ApplyAll(S, t, m, rs).Some? && ApplyAll(S, t, Empty(S, t), rs).Some?
    requires Wf(S, t, ApplyAll(S, t, m, rs).value) && Wf(S, t, ApplyAll(S, t, Empty(S, t), rs).value)
    requires forall j: nat :: j < |FieldsOf(S, t)| ==> SlotIff(S, t, m, rs, j, b)
    ensures ApplyAll(S, t, m, rs).value == Merge(S, t, m, ApplyAll(S, t, Empty(S, t), rs).value) <==> MergesAs(S, t, m, b)
  {
    hide ApplyAll, Merge, MergeSlot, Evicted, SlotMergesAs, RecordsOf;
    var fs := FieldsOf(S, t);
    var x, e := ApplyAll(S, t, m, rs).value, ApplyAll(S, t, Empty(S, t), rs).value;
    var y := Merge(S, t, m, e);
    UnknownAfter(S, t, m, rs);
    UnknownAfter(S, t, Empty(S, t), rs);
    assert [] + Left(fs, rs) == Left(fs, rs);
    assert |x.slots| == |e.slots| == |m.slots| == |fs|;
    forall j: nat | j < |fs| ensures x.slots[j] == y.slots[j] <==> SlotMergesAs(S, fs, j, At(m, j), b) {
      MergeAt(S, t, m, e, j);
      assert SlotIff(S, t, m, rs, j, b);
    }
    assert x.slots == y.slots <==> forall j: nat :: j < |fs| ==> x.slots[j] == y.slots[j];
  }

  /** Parsing and merging agree on field `j` exactly if the condition holds there. */
  ghost predicate SlotIff(S: Schema, t: MessageType, m: Msg, rs: seq<Record>, j: nat, b: bytes)
    requires j < |FieldsOf(S, t)| && RecordsOf(b) == Some(rs)
    requires ApplyAll(S, t, m, rs).Some? && ApplyAll(S, t, Empty(S, t), rs).Some?
  {
    var fs := FieldsOf(S, t);
    var m', e := ApplyAll(S, t, m, rs).value, ApplyAll(S, t, Empty(S, t), rs).value;
    At(m', j) == MergeSlot(S, fs[j], if Evicted(fs, e, |fs|, j) then [] else At(m, j), At(e, j))
    <==> SlotMergesAs(S, fs, j, At(m, j), b)
  }

  lemma SlotsAreTyped(S: Schema, t: MessageType, m: Msg, j: nat)
    requires WfSchema(S) && Wf(S, t, m) && j < |FieldsOf(S, t)|
    ensures |m.slots| == |FieldsOf(S, t)| && WfSlot(S, FieldsOf(S, t)[j], At(m, j)) && WfField(FieldsOf(S, t)[j])
  {
  }

  lemma RepeatedMerges(S: Schema, f: Field, had: seq<Value>, y: seq<Value>)
    requires WfSchema(S) && WfField(f) && f.rule.Repeated? && WfSlot(S, f, y)
    ensures had + y == MergeSlot(S, f, had, y) <==> CanonicalSlot(S, f, y)
  {
    CopiedSlotIsSame(S, f, y);
    if y == [] {
      assert had + y == had;
    } else {
      assert [] + AdoptAll(S, f.kind, y) == AdoptAll(S, f.kind, y);
      assert (had + y)[|had|..] == y && (had + AdoptAll(S, f.kind, y))[|had|..] == AdoptAll(S, f.kind, y);
    }
  }

  // ---------------------------------------------------------- where it always holds

  ghost predicate NoImplicit(S: Schema, ts: set<MessageType>) {
    forall t <- ts :: NoImplicitFields(FieldsOf(S, t))
  }

  ghost predicate NoImplicitFields(fs: seq<Field>) {
    forall i :: 0 <= i < |fs| ==> !fs[i].rule.Implicit?
  }

  /** Types with explicit presence and without submessages in oneofs on singular paths: there parsing
      any accepted input is merging. */
  lemma {:induction false} PlainInputsMerge(S: Schema, ts: set<MessageType>, xs: set<MessageType>, t: MessageType,
                                            m: Msg, b: bytes)
    requires WfSchema(S) && Plain(S, ts) && NoImplicit(S, ts) && Exact(S, xs) && ts <= xs && t in ts
    requires Wf(S, t, m) && Parse(S, t, b).Some?
    ensures RecordsOf(b).Some? && MergesAs(S, t, m, b)
    decreases |b|
  {
    hide Apply, ApplyAll, Wf, ParseInto, RecordsOf, Canonical, CanonicalSlot, Gather, After, Empty, Exact;
    ParseAppliesRecords(S, t, Empty(S, t), b);
    EmptyWf(S, t);
    ParseKeepsWf(S, t, Empty(S, t), b);
    var fs, rs := FieldsOf(S, t), RecordsOf(b).value;
    assert NoImplicitFields(fs) && PlainFields(fs, ts);
    forall j: nat | j < |fs| ensures SlotMergesAs(S, fs, j, At(m, j), b) {
      assert PlainField(fs[j], ts);
      if fs[j].rule.Repeated? {
        ParsedIsCanonical(S, xs, t, rs, j);
      } else if fs[j].kind.Message? && Gather(fs, j, rs).any {
        var target, had := fs[j].kind.target, At(m, j);
        GatherTouches(fs, j, rs);
        GatheredIsShorter(fs, j, b);
        GatheredParses(S, t, rs, j);
        SlotsAreTyped(S, t, m, j);
        MessageIsTyped(S, fs[j], had);
        PlainInputsMerge(S, ts, xs, target, Base(S, target, had), Gather(fs, j, rs).data);
      }
    }
  }

  lemma ParsedIsCanonical(S: Schema, xs: set<MessageType>, t: MessageType, rs: seq<Record>, j: nat)
    requires WfSchema(S) && Exact(S, xs) && t in xs && j < |FieldsOf(S, t)|
    requires ApplyAll(S, t, Empty(S, t), rs).Some? && Wf(S, t, ApplyAll(S, t, Empty(S, t), rs).value)
    ensures CanonicalSlot(S, FieldsOf(S, t)[j], After(S, FieldsOf(S, t), j, Fresh(FieldsOf(S, t)[j]), rs))
  {
    var e := ApplyAll(S, t, Empty(S, t), rs).value;
    ExactIsCanonical(S, xs, t, e);
    ApplyAllAt(S, t, Empty(S, t), rs, j);
    assert CanonicalSlot(S, FieldsOf(S, t)[j], e.slots[j].vs);
  }

  lemma GatheredParses(S: Schema, t: MessageType, rs: seq<Record>, j: nat)
    requires j < |FieldsOf(S, t)| && ApplyAll(S, t, Empty(S, t), rs).Some?
    requires !FieldsOf(S, t)[j].rule.Repeated? && FieldsOf(S, t)[j].kind.Message?
    requires Gather(FieldsOf(S, t), j, rs).any && !Gather(FieldsOf(S, t), j, rs).switched
    ensures Parse(S, FieldsOf(S, t)[j].kind.target, Gather(FieldsOf(S, t), j, rs).data).Some?
  {
    var fs := FieldsOf(S, t);
    forall k | 0 <= k < |rs| && TakesRecord(fs, j, rs[k]) ensures !Decode(S, fs[j], [], rs[k].payload).Malformed? {
      AcceptedRecords(S, t, Empty(S, t), rs, j, k);
    }
    MessageAfter(S, fs, j, [], rs);
  }
}
