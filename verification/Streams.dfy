/** Laws about the order and grouping of records in the input. */
module Streams {
  import opened Wire
  import opened Schemas
  import opened Messages
  import opened Codec
  import opened MasterLaw

  // -------------------------------------------------------- parsing is a fold

  /** Parsing a concatenation is parsing its parts one after the other, at every depth: nested
      length prefixes keep each submessage inside its own part. */
  lemma {:induction false} ParseIsFold(S: Schema, t: MessageType, m: Msg, a: bytes, b: bytes)
    requires ParseInto(S, t, m, a).Some?
    ensures ParseInto(S, t, m, a + b) == ParseInto(S, t, ParseInto(S, t, m, a).value, b)
    decreases |a|
  {
    if a == [] {
      assert a + b == b;
    } else {
      ReadRecordExtends(a, b);
      var r, rest := ReadRecord(a).value, ReadRecord(a).rest;
      ParseIsFold(S, t, Apply(S, t, m, r).value, rest, b);
    }
  }

  // -------------------------------------------- packed and unpacked elements

  /** The elements one record of repeated numeric field `f` contributes. */
  function Elements(f: Field, r: Record): Option<seq<Value>> {
    match r.payload
    case Scalar(v) => Some([Num(FromWire(f.kind, v))])
    case Word64(bits) => Some([Num(bits)])
    case Word32(bits) => Some([Num(bits)])
    case Delimited(d) => Unpack(f.kind, d)
  }

  function AllElements(f: Field, rs: seq<Record>): Option<seq<Value>> {
    if rs == [] then Some([])
    else match Elements(f, rs[0])
      case None => None
      case Some(vs) =>
        match AllElements(f, rs[1..])
        case None => None
        case Some(ws) => Some(vs + ws)
  }

  ghost predicate ElementsOf(f: Field, rs: seq<Record>) {
    f.rule.Repeated? && Numeric(f.kind) && forall r <- rs :: r.num == f.num && Accepts(f, r.payload)
  }

  /** However the elements of a repeated field are spread over packed and single-element records,
      the field receives just their sequence. */
  lemma {:induction false} RechunkingIsInvisible(S: Schema, t: MessageType, m: Msg, i: nat, rs: seq<Record>)
    requires WfSchema(S) && i < |FieldsOf(S, t)| && ElementsOf(FieldsOf(S, t)[i], rs)
    ensures var fs := FieldsOf(S, t);
      ApplyAll(S, t, m, rs)
      == match AllElements(fs[i], rs) case None => None case Some(vs) => Some(Append(fs, m, i, vs))
    decreases |rs|
  {
    hide Store, Unpack;
    var fs := FieldsOf(S, t);
    var f := fs[i];
    if rs == [] {
      AppendNothing(fs, m, i);
    } else {
      FindAt(fs, i);
      assert Accepts(f, rs[0].payload) && rs[0].num == f.num;
      assert rs == [rs[0]] + rs[1..];
      match Elements(f, rs[0])
      case None => assert Apply(S, t, m, rs[0]).None?;
      case Some(vs) =>
        assert Apply(S, t, m, rs[0]) == Some(Append(fs, m, i, vs));
        RechunkingIsInvisible(S, t, Append(fs, m, i, vs), i, rs[1..]);
        match AllElements(f, rs[1..])
        case None =>
        case Some(ws) => AppendTwice(fs, m, i, vs, ws);
    }
  }

  function Joined(a: Option<seq<Value>>, b: Option<seq<Value>>): Option<seq<Value>> {
    if a.Some? && b.Some? then Some(a.value + b.value) else None
  }

  lemma JoinedIsAssociative(a: Option<seq<Value>>, b: Option<seq<Value>>, c: Option<seq<Value>>)
    ensures Joined(a, Joined(b, c)) == Joined(Joined(a, b), c)
  {
    if a.Some? && b.Some? && c.Some? {
      assert a.value + (b.value + c.value) == a.value + b.value + c.value;
    }
  }

  /** A packed payload may be cut after any element, also into empty pieces. */
  lemma {:induction false} UnpackConcat(k: Kind, a: bytes, b: bytes)
    requires Unpack(k, a).Some?
    ensures Unpack(k, a + b) == Joined(Unpack(k, a), Unpack(k, b))
    decreases |a|
  {
    if a == [] {
      assert a + b == b;
      assert Unpack(k, b).Some? ==> [] + Unpack(k, b).value == Unpack(k, b).value;
    } else {
      var x, rest := UnpackConcatStep(k, a, b);
      UnpackConcat(k, rest, b);
      JoinedIsAssociative(x, Unpack(k, rest), Unpack(k, b));
    }
  }

  lemma UnpackConcatStep(k: Kind, a: bytes, b: bytes) returns (x: Option<seq<Value>>, rest: bytes)
    requires a != [] && Unpack(k, a).Some?
    ensures |rest| < |a| && Unpack(k, rest).Some?
    ensures Unpack(k, a) == Joined(x, Unpack(k, rest))
    ensures Unpack(k, a + b) == Joined(x, Unpack(k, rest + b))
  {
    ReadOneExtends(k, a, b);
    assert a + b != [];
    x, rest := Some([Num(Unpacked(k, ReadOne(k, a).value))]), ReadOne(k, a).rest;
  }

  function EndToEnd(parts: seq<bytes>): bytes {
    if parts == [] then [] else parts[0] + EndToEnd(parts[1..])
  }

  /** Each part is one whole element. */
  ghost predicate PartsAre(k: Kind, parts: seq<bytes>, vs: seq<Value>) {
    if parts == [] || vs == [] then parts == [] && vs == []
    else IsElement(k, parts[0], vs[0]) && PartsAre(k, parts[1..], vs[1..])
  }

  ghost predicate IsElement(k: Kind, part: bytes, v: Value) {
    part != [] && exists n: nat :: ReadOne(k, part) == Ok(n, []) && v == Num(Unpacked(k, n))
  }

  /** Reading depends on the bytes taken alone. */
  lemma ReadOneTakes(k: Kind, b: bytes)
    requires ReadOne(k, b).Ok?
    ensures ReadOne(k, b[..|b| - |ReadOne(k, b).rest|]) == Ok(ReadOne(k, b).value, [])
  {
    var n := |b| - |ReadOne(k, b).rest|;
    var part := b[..n];
    if k.Float? || k.Double? {
      assert part[..n] == part;
    } else {
      ReadGroupsEnds(b, 10);
      ReadGroupsMeans(b, n, 10);
      ReadGroupsMeans(part, n, 10);
      assert part[..n] == part;
    }
  }

  /** A payload is unpacked exactly if it is made of whole elements, and then into these. */
  lemma {:induction false} UnpackIff(k: Kind, b: bytes, vs: seq<Value>)
    ensures Unpack(k, b) == Some(vs) <==> exists parts :: EndToEnd(parts) == b && PartsAre(k, parts, vs)
  {
    if Unpack(k, b) == Some(vs) { UnpackedParts(k, b, vs); }
    if parts :| EndToEnd(parts) == b && PartsAre(k, parts, vs) { PartsUnpack(k, parts, vs); }
  }

  lemma {:induction false} UnpackedParts(k: Kind, b: bytes, vs: seq<Value>)
    requires Unpack(k, b) == Some(vs)
    ensures exists parts :: EndToEnd(parts) == b && PartsAre(k, parts, vs)
    decreases |b|
  {
    hide ReadOne, Unpack;
    if b == [] {
      NothingUnpacked(k);
      assert EndToEnd([]) == b && PartsAre(k, [], vs);
    } else {
      var part, rest := FirstElement(k, b, vs);
      UnpackedParts(k, rest, vs[1..]);
      var parts :| EndToEnd(parts) == rest && PartsAre(k, parts, vs[1..]);
      var all := [part] + parts;
      assert all[1..] == parts;
      assert EndToEnd(all) == b && PartsAre(k, all, vs);
    }
  }

  lemma NothingUnpacked(k: Kind)
    ensures Unpack(k, []) == Some([])
  {
  }

  lemma FirstElement(k: Kind, b: bytes, vs: seq<Value>) returns (part: bytes, rest: bytes)
    requires b != [] && Unpack(k, b) == Some(vs)
    ensures b == part + rest && part != [] && vs != [] && IsElement(k, part, vs[0]) && Unpack(k, rest) == Some(vs[1..])
  {
    hide ReadOne;
    UnpackStep(k, b);
    rest := ReadOne(k, b).rest;
    part := b[..|b| - |rest|];
    ReadOneTakes(k, b);
  }

  lemma {:induction false} PartsUnpack(k: Kind, parts: seq<bytes>, vs: seq<Value>)
    requires PartsAre(k, parts, vs)
    ensures Unpack(k, EndToEnd(parts)) == Some(vs)
    decreases |parts|
  {
    hide ReadOne;
    if parts != [] {
      var part, more := parts[0], EndToEnd(parts[1..]);
      PartsUnpack(k, parts[1..], vs[1..]);
      ReadOneExtends(k, part, more);
      assert [] + more == more;
      UnpackStep(k, part + more);
      assert vs == [vs[0]] + vs[1..];
    }
  }

  lemma ReadOneExtends(k: Kind, b: bytes, more: bytes)
    requires ReadOne(k, b).Ok?
    ensures ReadOne(k, b + more) == Ok(ReadOne(k, b).value, ReadOne(k, b).rest + more)
  {
    if k.Float? {
      assert (b + more)[..4] == b[..4] && (b + more)[4..] == b[4..] + more;
    } else if k.Double? {
      assert (b + more)[..8] == b[..8] && (b + more)[8..] == b[8..] + more;
    } else {
      ReadGroupsExtends(b, more, 10);
    }
  }

  /** Two packed records and the one packed record of their joined payloads mean the same. */
  lemma {:induction false} JoiningPackedRecords(S: Schema, t: MessageType, m: Msg, i: nat, a: bytes, b: bytes)
    requires WfSchema(S) && i < |FieldsOf(S, t)|
    requires var f := FieldsOf(S, t)[i]; f.rule.Repeated? && Numeric(f.kind) && Unpack(f.kind, a).Some?
    ensures var num := FieldsOf(S, t)[i].num;
      ApplyAll(S, t, m, [Record(num, Delimited(a)), Record(num, Delimited(b))])
      == ApplyAll(S, t, m, [Record(num, Delimited(a + b))])
  {
    var f := FieldsOf(S, t)[i];
    var two, one := [Record(f.num, Delimited(a)), Record(f.num, Delimited(b))], [Record(f.num, Delimited(a + b))];
    RechunkingIsInvisible(S, t, m, i, two);
    RechunkingIsInvisible(S, t, m, i, one);
    UnpackConcat(f.kind, a, b);
    assert two[1..] == [Record(f.num, Delimited(b))];
    assert AllElements(f, two[1..][1..]) == Some([]) && AllElements(f, one[1..]) == Some([]);
    match Unpack(f.kind, b)
    case None =>
    case Some(ws) =>
      assert ws + [] == ws && Unpack(f.kind, a).value + ws + [] == Unpack(f.kind, a).value + ws;
  }

  // ------------------------------------------------------------------- oneofs

  /** The record sets a member of oneof `g`. */
  predicate SetsMember(fs: seq<Field>, g: nat, r: Record) {
    var i := Find(fs, r.num);
    i < |fs| && fs[i].rule == Oneof(g) && Accepts(fs[i], r.payload)
  }

  function Members(fs: seq<Field>, g: nat, rs: seq<Record>): seq<Record> {
    if rs == [] then [] else (if SetsMember(fs, g, rs[0]) then [rs[0]] else []) + Members(fs, g, rs[1..])
  }

  /** Where the maximal run of records with the same field number ending at `k` begins. */
  function RunStart(ms: seq<Record>, k: nat): (j: nat)
    requires k < |ms|
    ensures j <= k && forall x :: j <= x <= k ==> ms[x].num == ms[k].num
    ensures j > 0 ==> ms[j - 1].num != ms[k].num
  {
    if k == 0 || ms[k - 1].num != ms[k].num then k else RunStart(ms, k - 1)
  }

  /** Both messages hold the same in the members of oneof `g`. */
  ghost predicate SameMembers(fs: seq<Field>, g: nat, m: Msg, m': Msg) {
    |m.slots| == |m'.slots| == |fs| && forall j :: 0 <= j < |fs| && fs[j].rule == Oneof(g) ==> m.slots[j] == m'.slots[j]
  }

  lemma {:induction false} ApplyKeepsSameMembers(S: Schema, t: MessageType, g: nat, m: Msg, m': Msg, r: Record)
    requires var fs := FieldsOf(S, t); SameMembers(fs, g, m, m') && SetsMember(fs, g, r)
    ensures Apply(S, t, m, r).Some? <==> Apply(S, t, m', r).Some?
    ensures Apply(S, t, m, r).Some? ==>
              SameMembers(FieldsOf(S, t), g, Apply(S, t, m, r).value, Apply(S, t, m', r).value)
  {
  }

  lemma {:induction false} OthersLeaveMembers(S: Schema, t: MessageType, g: nat, m: Msg, r: Record)
    requires var fs := FieldsOf(S, t); |m.slots| == |fs| && !SetsMember(fs, g, r) && Apply(S, t, m, r).Some?
    ensures SameMembers(FieldsOf(S, t), g, m, Apply(S, t, m, r).value)
  {
  }

  /** Records that set no member of the oneof, wherever they stand, do not matter to it. */
  lemma {:induction false} OnlyMembersMatter(S: Schema, t: MessageType, g: nat, m: Msg, m': Msg, rs: seq<Record>)
    requires SameMembers(FieldsOf(S, t), g, m, m') && ApplyAll(S, t, m, rs).Some?
    ensures var ms := Members(FieldsOf(S, t), g, rs);
      ApplyAll(S, t, m', ms).Some?
      && SameMembers(FieldsOf(S, t), g, ApplyAll(S, t, m, rs).value, ApplyAll(S, t, m', ms).value)
    decreases |rs|
  {
    if rs != [] {
      var fs := FieldsOf(S, t);
      var n := Apply(S, t, m, rs[0]).value;
      if SetsMember(fs, g, rs[0]) {
        ApplyKeepsSameMembers(S, t, g, m, m', rs[0]);
        var n' := Apply(S, t, m', rs[0]).value;
        OnlyMembersMatter(S, t, g, n, n', rs[1..]);
        assert Members(fs, g, rs)[1..] == Members(fs, g, rs[1..]);
      } else {
        OthersLeaveMembers(S, t, g, m, rs[0]);
        OnlyMembersMatter(S, t, g, n, m', rs[1..]);
        assert Members(fs, g, rs) == Members(fs, g, rs[1..]);
      }
    }
  }

  /** The message with every member of oneof `g` cleared. */
  function ClearOneof(fs: seq<Field>, g: nat, m: Msg): Msg {
    m.(slots := seq(|m.slots|, j requires 0 <= j < |m.slots| =>
                      if j < |fs| && fs[j].rule == Oneof(g) then Slot([]) else m.slots[j]))
  }

  lemma {:induction false} SettingClearsSiblings(S: Schema, t: MessageType, g: nat, m: Msg, x: Record, i: nat)
    requires var fs := FieldsOf(S, t);
      |m.slots| == |fs| && SetsMember(fs, g, x) && i < |fs| && fs[i].rule == Oneof(g) && fs[i].num != x.num
    requires Apply(S, t, m, x).Some?
    ensures At(Apply(S, t, m, x).value, i) == []
  {
    assert Siblings(FieldsOf(S, t), Find(FieldsOf(S, t), x.num), i);
  }

  /** Records for member `i` look only at that member. */
  lemma {:induction false} RunLooksAtItsField(S: Schema, t: MessageType, g: nat, i: nat, m: Msg, m': Msg,
                                              run: seq<Record>)
    requires var fs := FieldsOf(S, t);
      && |m.slots| == |m'.slots| == |fs| && i < |fs| && At(m, i) == At(m', i)
      && forall r <- run :: SetsMember(fs, g, r) && Find(fs, r.num) == i
    ensures ApplyAll(S, t, m, run).Some? <==> ApplyAll(S, t, m', run).Some?
    ensures ApplyAll(S, t, m, run).Some? ==>
              var n, n' := ApplyAll(S, t, m, run).value, ApplyAll(S, t, m', run).value;
              && At(n, i) == At(n', i)
              && (run != [] ==> At(n, i) != [] && forall j: nat :: Siblings(FieldsOf(S, t), i, j) ==> At(n, j) == [])
    decreases |run|
  {
    if run != [] {
      var r := run[0];
      assert SetsMember(FieldsOf(S, t), g, r) && Find(FieldsOf(S, t), r.num) == i;
      if Apply(S, t, m, r).Some? {
        forall j: nat | Siblings(FieldsOf(S, t), i, j) ensures At(Apply(S, t, m, r).value, j) == [] {}
        RunLooksAtItsField(S, t, g, i, Apply(S, t, m, r).value, Apply(S, t, m', r).value, run[1..]);
      }
    }
  }

  lemma {:induction false} MembersAreMembers(fs: seq<Field>, g: nat, rs: seq<Record>)
    ensures forall r <- Members(fs, g, rs) :: SetsMember(fs, g, r)
    decreases |rs|
  {
    if rs != [] { MembersAreMembers(fs, g, rs[1..]); }
  }

  lemma {:induction false} ApplyAllKeepsShape(S: Schema, t: MessageType, m: Msg, rs: seq<Record>)
    ensures ApplyAll(S, t, m, rs).Some? ==> |ApplyAll(S, t, m, rs).value.slots| == |m.slots|
    decreases |rs|
  {
    if rs != [] && Apply(S, t, m, rs[0]).Some? { ApplyAllKeepsShape(S, t, Apply(S, t, m, rs[0]).value, rs[1..]); }
  }

  /** After the members before a run, the run's field is empty if any of them was another field's. */
  lemma {:induction false} BeforeTheRun(S: Schema, t: MessageType, g: nat, m: Msg, ms: seq<Record>, i: nat)
    requires var fs := FieldsOf(S, t);
      && |m.slots| == |fs| && i < |fs| && fs[i].rule == Oneof(g)
      && ms != [] && fs[i].num != ms[|ms| - 1].num && forall r <- ms :: SetsMember(fs, g, r)
    requires ApplyAll(S, t, m, ms).Some?
    ensures At(ApplyAll(S, t, m, ms).value, i) == []
  {
    var init, x := ms[..|ms| - 1], ms[|ms| - 1];
    assert ms == init + [x];
    ApplyAllConcat(S, t, m, init, [x]);
    var mid := ApplyAll(S, t, m, init).value;
    ApplyAllKeepsShape(S, t, m, init);
    OneRecord(S, t, mid, x);
    SettingClearsSiblings(S, t, g, mid, x, i);
  }

  /** `m'` is what the member records `ms`, applied to `m`, make of oneof `g`: the member of the last of
      them is the one that is set, and it holds what the last run of records for it makes of nothing
      if another member's record comes before that run, and of what was there if none does. */
  ghost predicate LastRunWins(S: Schema, t: MessageType, g: nat, m: Msg, ms: seq<Record>, m': Msg)
    requires ms != []
  {
    var fs := FieldsOf(S, t);
    var start := RunStart(ms, |ms| - 1);
    var i := Find(fs, ms[|ms| - 1].num);
    var run := ApplyAll(S, t, if start == 0 then m else ClearOneof(fs, g, m), ms[start..]);
    && At(m', i) != []
    && (forall j: nat :: Siblings(fs, i, j) ==> At(m', j) == [])
    && run.Some? && At(m', i) == At(run.value, i)
  }

  /** The last run of a list of records that all set members of oneof `g`. */
  lemma LastRunOfMembers(S: Schema, t: MessageType, g: nat, m: Msg, ms: seq<Record>)
    requires |m.slots| == |FieldsOf(S, t)| && ApplyAll(S, t, m, ms).Some? && ms != []
    requires forall r <- ms :: SetsMember(FieldsOf(S, t), g, r)
    ensures LastRunWins(S, t, g, m, ms, ApplyAll(S, t, m, ms).value)
  {
    hide Apply, ApplyAll, ClearOneof, SetsMember, Find, RunStart;
    var fs := FieldsOf(S, t);
    var start := RunStart(ms, |ms| - 1);
    var i := Find(fs, ms[|ms| - 1].num);
    assert ms == ms[..start] + ms[start..];
    RunIsOfOneField(fs, g, ms);
    RunAfterOthers(S, t, g, m, ms[..start], ms[start..], i);
  }

  /** A run of records for member `i` after records for members, the last of which is another one. */
  lemma {:induction false} RunAfterOthers(S: Schema, t: MessageType, g: nat, m: Msg, before: seq<Record>,
                                         run: seq<Record>, i: nat)
    requires var fs := FieldsOf(S, t);
      && |m.slots| == |fs| && i < |fs| && fs[i].rule == Oneof(g) && (forall r <- before :: SetsMember(fs, g, r))
      && (before != [] ==> fs[i].num != before[|before| - 1].num)
      && run != [] && (forall r <- run :: SetsMember(fs, g, r) && Find(fs, r.num) == i)
    requires ApplyAll(S, t, m, before + run).Some?
    ensures var fs := FieldsOf(S, t);
      var n := ApplyAll(S, t, m, before + run).value;
      var alone := ApplyAll(S, t, if before == [] then m else ClearOneof(fs, g, m), run);
      && At(n, i) != [] && (forall j: nat :: Siblings(fs, i, j) ==> At(n, j) == [])
      && alone.Some? && At(n, i) == At(alone.value, i)
  {
    hide Apply, ApplyAll, ClearOneof, SetsMember, Find;
    ApplyAllConcat(S, t, m, before, run);
    ApplyAllKeepsShape(S, t, m, before);
    StartsAlike(S, t, g, m, before, i);
    var from := if before == [] then m else ClearOneof(FieldsOf(S, t), g, m);
    RunLooksAtItsField(S, t, g, i, ApplyAll(S, t, m, before).value, from, run);
  }

  lemma {:induction false} RunIsOfOneField(fs: seq<Field>, g: nat, ms: seq<Record>)
    requires ms != [] && forall r <- ms :: SetsMember(fs, g, r)
    ensures var start := RunStart(ms, |ms| - 1);
      var i := Find(fs, ms[|ms| - 1].num);
      && i < |fs| && fs[i].rule == Oneof(g) && (start > 0 ==> fs[i].num != ms[start - 1].num)
      && forall r <- ms[start..] :: SetsMember(fs, g, r) && Find(fs, r.num) == i
  {
    assert SetsMember(fs, g, ms[|ms| - 1]);
  }

  /** What field `i` holds before its last run. */
  lemma {:induction false} StartsAlike(S: Schema, t: MessageType, g: nat, m: Msg, ms: seq<Record>, i: nat)
    requires var fs := FieldsOf(S, t);
      && |m.slots| == |fs| && i < |fs| && fs[i].rule == Oneof(g) && (forall r <- ms :: SetsMember(fs, g, r))
      && (ms != [] ==> fs[i].num != ms[|ms| - 1].num)
    requires ApplyAll(S, t, m, ms).Some?
    ensures var from := if ms == [] then m else ClearOneof(FieldsOf(S, t), g, m);
      |from.slots| == |m.slots| && At(ApplyAll(S, t, m, ms).value, i) == At(from, i)
  {
    if ms != [] { BeforeTheRun(S, t, g, m, ms, i); }
  }

  /** Oneof parsing: whatever records of other fields come in between, the last run of member records
      decides. */
  lemma LastOneofRunWins(S: Schema, t: MessageType, g: nat, m: Msg, rs: seq<Record>)
    requires |m.slots| == |FieldsOf(S, t)| && ApplyAll(S, t, m, rs).Some?
    requires Members(FieldsOf(S, t), g, rs) != []
    ensures LastRunWins(S, t, g, m, Members(FieldsOf(S, t), g, rs), ApplyAll(S, t, m, rs).value)
  {
    hide Apply, ApplyAll, LastRunWins, SetsMember, Members;
    var fs := FieldsOf(S, t);
    var ms := Members(fs, g, rs);
    MembersAreMembers(fs, g, rs);
    OnlyMembersMatter(S, t, g, m, m, rs);
    LastRunOfMembers(S, t, g, m, ms);
    SameMembersWin(S, t, g, m, ms, ApplyAll(S, t, m, ms).value, ApplyAll(S, t, m, rs).value);
  }

  lemma SameMembersWin(S: Schema, t: MessageType, g: nat, m: Msg, ms: seq<Record>, m': Msg, n: Msg)
    requires ms != [] && SetsMember(FieldsOf(S, t), g, ms[|ms| - 1])
    requires LastRunWins(S, t, g, m, ms, m') && SameMembers(FieldsOf(S, t), g, n, m')
    ensures LastRunWins(S, t, g, m, ms, n)
  {
    hide ApplyAll, ClearOneof, RunStart;
    var fs := FieldsOf(S, t);
    var i := Find(fs, ms[|ms| - 1].num);
    assert n.slots[i] == m'.slots[i];
    forall j: nat | Siblings(fs, i, j) ensures At(n, j) == [] {
      assert n.slots[j] == m'.slots[j];
    }
  }

  /** The payloads of a run of records for a submessage, put end to end. */
  function Payloads(run: seq<Record>): bytes {
    if run == [] then []
    else (if run[0].payload.Delimited? then run[0].payload.data else []) + Payloads(run[1..])
  }

  lemma {:induction false} ApplySubmessage(S: Schema, t: MessageType, m: Msg, i: nat, d: bytes)
    requires WfSchema(S) && i < |FieldsOf(S, t)|
    requires var f := FieldsOf(S, t)[i]; f.kind.Message? && !f.rule.Repeated?
    ensures var f := FieldsOf(S, t)[i];
      Apply(S, t, m, Record(f.num, Delimited(d)))
      == match ParseInto(S, f.kind.target, Base(S, f.kind.target, At(m, i)), d)
         case None => None
         case Some(sub) => Some(Store(FieldsOf(S, t), m, i, [Sub(sub)]))
  {
    hide ParseInto, Store, Base, Ascending;
    FindAt(FieldsOf(S, t), i);
  }

  /** A singular submessage is parsed as if all its records were one: the contents are merged in
      order of arrival. */
  lemma {:induction false} RunsOfSubmessagesMerge(S: Schema, t: MessageType, m: Msg, i: nat, run: seq<Record>)
    requires WfSchema(S) && i < |FieldsOf(S, t)| == |m.slots| && run != []
    requires var f := FieldsOf(S, t)[i];
      f.kind.Message? && !f.rule.Repeated? && forall r <- run :: r.num == f.num && r.payload.Delimited?
    requires ApplyAll(S, t, m, run).Some?
    ensures var target := FieldsOf(S, t)[i].kind.target;
      var sub := ParseInto(S, target, Base(S, target, At(m, i)), Payloads(run));
      sub.Some? && At(ApplyAll(S, t, m, run).value, i) == [Sub(sub.value)]
    decreases |run|
  {
    var fs := FieldsOf(S, t);
    var target := fs[i].kind.target;
    var base := Base(S, target, At(m, i));
    var r := run[0];
    assert r.num == fs[i].num && r.payload.Delimited?;
    ApplySubmessage(S, t, m, i, r.payload.data);
    assert r == Record(fs[i].num, Delimited(r.payload.data));
    var m' := Apply(S, t, m, r).value;
    ParseIsFold(S, target, base, r.payload.data, Payloads(run[1..]));
    if run[1..] == [] {
      assert r.payload.data + Payloads(run[1..]) == r.payload.data;
    } else {
      RunsOfSubmessagesMerge(S, t, m', i, run[1..]);
    }
  }

  // ----------------------------------------------------------- oneofs of an input

  /** The records of an input, if it can be read to its end. */
  function RecordsOf(b: bytes): Option<seq<Record>>
    decreases |b|
  {
    if b == [] then Some([])
    else match ReadRecord(b)
      case Fail => None
      case Ok(r, rest) =>
        match RecordsOf(rest)
        case None => None
        case Some(rs) => Some([r] + rs)
  }

  lemma {:induction false} ParseAppliesRecords(S: Schema, t: MessageType, m: Msg, b: bytes)
    ensures ParseInto(S, t, m, b) == match RecordsOf(b) case None => None case Some(rs) => ApplyAll(S, t, m, rs)
    decreases |b|
  {
    if b != [] && ReadRecord(b).Ok? {
      var r, rest := ReadRecord(b).value, ReadRecord(b).rest;
      match Apply(S, t, m, r)
      case None =>
      case Some(m') => ParseAppliesRecords(S, t, m', rest);
    }
  }

  /** What the last run `run` of records for member `i` leaves in it, starting from `had`. */
  ghost function RunContent(S: Schema, f: Field, had: seq<Value>, run: seq<Record>): Option<seq<Value>>
    requires run != []
  {
    match f.kind
    case Message(t) =>
      (match ParseInto(S, t, Base(S, t, had), Payloads(run)) case None => None case Some(m) => Some([Sub(m)]))
    case _ =>
      match Decode(S, f, [], run[|run| - 1].payload) case Values(vs) => Some(vs) case _ => None
  }

  lemma RunFillsMember(S: Schema, t: MessageType, g: nat, m: Msg, i: nat, run: seq<Record>)
    requires WfSchema(S) && i < |FieldsOf(S, t)| == |m.slots| && run != [] && FieldsOf(S, t)[i].rule == Oneof(g)
    requires forall r <- run :: SetsMember(FieldsOf(S, t), g, r) && Find(FieldsOf(S, t), r.num) == i
    requires ApplyAll(S, t, m, run).Some?
    ensures RunContent(S, FieldsOf(S, t)[i], At(m, i), run) == Some(At(ApplyAll(S, t, m, run).value, i))
  {
    hide Apply, ApplyAll, ParseInto, Decode, WfSchema, Payloads;
    var f := FieldsOf(S, t)[i];
    if f.kind.Message? {
      forall r <- run ensures r.num == f.num && r.payload.Delimited? {
        assert SetsMember(FieldsOf(S, t), g, r) && Find(FieldsOf(S, t), r.num) == i;
      }
      RunsOfSubmessagesMerge(S, t, m, i, run);
    } else {
      LastOneWins(S, t, g, m, i, run);
    }
  }

  lemma LastOneWins(S: Schema, t: MessageType, g: nat, m: Msg, i: nat, run: seq<Record>)
    requires i < |FieldsOf(S, t)| == |m.slots| && run != [] && FieldsOf(S, t)[i].rule == Oneof(g)
    requires !FieldsOf(S, t)[i].kind.Message?
    requires forall r <- run :: SetsMember(FieldsOf(S, t), g, r) && Find(FieldsOf(S, t), r.num) == i
    requires ApplyAll(S, t, m, run).Some?
    ensures Decode(S, FieldsOf(S, t)[i], [], run[|run| - 1].payload) == Values(At(ApplyAll(S, t, m, run).value, i))
  {
    hide ApplyAll, ParseInto, Unpack;
    var init, x := run[..|run| - 1], run[|run| - 1];
    assert run == init + [x] && SetsMember(FieldsOf(S, t), g, x) && Find(FieldsOf(S, t), x.num) == i;
    ApplyAllConcat(S, t, m, init, [x]);
    ApplyAllKeepsShape(S, t, m, init);
    OneRecord(S, t, ApplyAll(S, t, m, init).value, x);
  }

  /** The oneof after input `b`: the member of the last of its member records is the one that is set.
      A submessage is what parsing the joined contents of the last run makes of a new one, or of the
      one that was there if the input has no other member's record; any other member holds the
      value of its last record. */
  lemma OneofOfInput(S: Schema, t: MessageType, g: nat, m: Msg, b: bytes)
    requires WfSchema(S) && |m.slots| == |FieldsOf(S, t)| && ParseInto(S, t, m, b).Some?
    ensures RecordsOf(b).Some?
    ensures var fs := FieldsOf(S, t);
      var ms := Members(fs, g, RecordsOf(b).value);
      var m' := ParseInto(S, t, m, b).value;
      if ms == [] then SameMembers(fs, g, m, m')
      else
        var i, start := Find(fs, ms[|ms| - 1].num), RunStart(ms, |ms| - 1);
        && i < |fs| && (forall j: nat :: Siblings(fs, i, j) ==> At(m', j) == [])
        && RunContent(S, fs[i], if start == 0 then At(m, i) else [], ms[start..]) == Some(At(m', i))
  {
    hide Apply, ApplyAll, ParseInto, LastRunWins, RunContent, SetsMember, Members, Find, WfSchema, SameMembers;
    ParseAppliesRecords(S, t, m, b);
    var fs := FieldsOf(S, t);
    var rs := RecordsOf(b).value;
    var ms := Members(fs, g, rs);
    MembersAreMembers(fs, g, rs);
    if ms == [] {
      NoMemberRecords(S, t, g, m, rs);
    } else {
      LastOneofRunWins(S, t, g, m, rs);
      RunIsOfOneField(fs, g, ms);
      WinnerIsFilled(S, t, g, m, ms, ApplyAll(S, t, m, rs).value);
    }
  }

  lemma NoMemberRecords(S: Schema, t: MessageType, g: nat, m: Msg, rs: seq<Record>)
    requires |m.slots| == |FieldsOf(S, t)| && ApplyAll(S, t, m, rs).Some? && Members(FieldsOf(S, t), g, rs) == []
    ensures SameMembers(FieldsOf(S, t), g, m, ApplyAll(S, t, m, rs).value)
  {
    OnlyMembersMatter(S, t, g, m, m, rs);
  }

  lemma {:induction false} WinnerIsFilled(S: Schema, t: MessageType, g: nat, m: Msg, ms: seq<Record>, m': Msg)
    requires WfSchema(S) && |m.slots| == |FieldsOf(S, t)| && ms != [] && LastRunWins(S, t, g, m, ms, m')
    requires var fs := FieldsOf(S, t);
      var i := Find(fs, ms[|ms| - 1].num);
      && i < |fs| && fs[i].rule == Oneof(g)
      && forall r <- ms[RunStart(ms, |ms| - 1)..] :: SetsMember(fs, g, r) && Find(fs, r.num) == i
    ensures var fs := FieldsOf(S, t);
      var i, start := Find(fs, ms[|ms| - 1].num), RunStart(ms, |ms| - 1);
      && (forall j: nat :: Siblings(fs, i, j) ==> At(m', j) == [])
      && RunContent(S, fs[i], if start == 0 then At(m, i) else [], ms[start..]) == Some(At(m', i))
  {
    hide Apply, ApplyAll, RunContent, SetsMember, Find, RunStart;
    var fs := FieldsOf(S, t);
    var i, start := Find(fs, ms[|ms| - 1].num), RunStart(ms, |ms| - 1);
    var from := if start == 0 then m else ClearOneof(fs, g, m);
    RunFillsMember(S, t, g, from, i, ms[start..]);
  }
}
