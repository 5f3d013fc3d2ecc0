/** Event of event.pb.h and event.pb.cc, allocated on the heap: a tagged union with owned
    submessages, updated in place. */
module EventProtos {
  import opened Wire
  import opened Schemas
  import opened Messages
  import opened Codec
  import opened MasterLaw
  import opened NormalForm
  import opened RoundTrip
  import opened Streams
  import opened Repository
  import opened Parsing
  import opened Printing
  import O = Ownership
  import H = HistogramProtos

  /** The message descriptions say what this parser knows about its fields. */
  ghost predicate Describes(S: Schema) {
    WfSchema(S) && FieldsOf(S, Event) == EVENT_FIELDS
  }

  /** The repository's own tables are such. */
  lemma RepoDescribes()
    ensures Describes(Repo())
  {
    RepoIsWf();
    RepoFields(Event);
  }

  /** The field of a oneof case. */
  function IndexOf(c: O.WhatCase): nat {
    match c
    case FileVersion => 2
    case GraphDef => 3
    case SummaryCase => 4
    case LogMessageCase => 5
    case SessionLogCase => 6
    case TaggedRunMetadataCase => 7
    case MetaGraphDef => 8
    case WhatNotSet => 10
  }

  lemma EventFieldFacts()
    ensures |EVENT_FIELDS| == 10
    ensures forall k :: 0 <= k < 10 ==> EVENT_FIELDS[k].num == k + 1 && EventFieldFact(EVENT_FIELDS[k], k)
    ensures forall c :: O.Member(c).Some? ==> EVENT_FIELDS[IndexOf(c)].kind == Message(O.TypeOf(c))
    ensures forall c :: O.IsString(c) ==> EVENT_FIELDS[IndexOf(c)].kind.Text? || EVENT_FIELDS[IndexOf(c)].kind.Blob?
  {
  }

  predicate EventFieldFact(f: Field, k: nat) {
    && WfField(f)
    && f.rule == (if k < 2 then Implicit else if k < 9 then Oneof(0) else Optional)
    && (k == 0 ==> f.kind == Double) && (k == 1 ==> f.kind == Int64) && (k == 9 ==> f.kind == Message(SourceMetadata))
    && (2 <= k < 9 ==> !Numeric(f.kind))
  }

  predicate IsMember(k: nat) {
    2 <= k < 9
  }

  lemma EventSiblings(i: nat, j: nat)
    ensures Siblings(EVENT_FIELDS, i, j) <==> IsMember(i) && IsMember(j) && i != j
  {
    hide EVENT_FIELDS;
    EventFieldFacts();
  }

  /** `m` with member `k` set, and any other one cleared. */
  function WithMember(m: Msg, k: nat, vs: seq<Value>): Msg {
    m.(slots := seq(|m.slots|, j requires 0 <= j < |m.slots| =>
                      if j == k then Slot(vs) else if IsMember(j) then Slot([]) else m.slots[j]))
  }

  lemma StoreMember(m: Msg, k: nat, vs: seq<Value>)
    requires IsMember(k)
    ensures Store(EVENT_FIELDS, m, k, vs) == WithMember(m, k, vs)
  {
    hide EVENT_FIELDS;
    forall j: nat | j < |m.slots| ensures Store(EVENT_FIELDS, m, k, vs).slots[j] == WithMember(m, k, vs).slots[j] {
      EventSiblings(k, j);
    }
    assert Store(EVENT_FIELDS, m, k, vs).slots == WithMember(m, k, vs).slots;
  }

  lemma MemberFits(S: Schema, m: Msg, c: O.WhatCase, v: Value)
    requires Describes(S) && Wf(S, Event, m) && |m.slots| == 10 && c != O.WhatNotSet
    requires if O.IsString(c) then v.Data? else v.Sub? && Wf(S, O.TypeOf(c), v.m)
    ensures Wf(S, Event, WithMember(m, IndexOf(c), [v]))
  {
    hide EVENT_FIELDS, Wf, WithMember;
    EventFieldFacts();
    StoreMember(m, IndexOf(c), [v]);
    StoreWf(S, Event, m, IndexOf(c), [v]);
  }

  lemma FieldIsMember(c: O.WhatCase)
    requires c != O.WhatNotSet
    ensures IsMember(IndexOf(c)) && IndexOf(c) < |EVENT_FIELDS|
  {
  }

  lemma {:induction false} StringFieldFacts(c: O.WhatCase)
    requires O.IsString(c) && IndexOf(c) < |EVENT_FIELDS|
    ensures var f := EVENT_FIELDS[IndexOf(c)]; (f.kind.Text? || f.kind.Blob?) && !f.rule.Repeated?
  {
    hide EVENT_FIELDS;
    EventFieldFacts();
  }

  lemma {:induction false} MessageFieldFacts(c: O.WhatCase)
    requires O.Member(c).Some? && IndexOf(c) < |EVENT_FIELDS|
    ensures var f := EVENT_FIELDS[IndexOf(c)]; f.kind == Message(O.TypeOf(c)) && !f.rule.Repeated?
  {
    hide EVENT_FIELDS;
    EventFieldFacts();
  }

  /** `m` with no member set. */
  function NoMember(m: Msg): Msg {
    m.(slots := seq(|m.slots|, j requires 0 <= j < |m.slots| => if IsMember(j) then Slot([]) else m.slots[j]))
  }

  lemma NoMemberFits(S: Schema, m: Msg)
    requires Describes(S) && Wf(S, Event, m)
    ensures Wf(S, Event, NoMember(m))
  {
    hide EVENT_FIELDS;
    EventFieldFacts();
    var m' := NoMember(m);
    forall j | 0 <= j < 10 ensures WfSlot(S, EVENT_FIELDS[j], m'.slots[j].vs) {
      assert WfSlot(S, EVENT_FIELDS[j], m.slots[j].vs);
    }
  }

  lemma UnknownFits(S: Schema, a: Msg, b: Msg)
    requires Wf(S, Event, a) && Wf(S, Event, b)
    ensures Wf(S, Event, a.(unknown := a.unknown + b.unknown))
  {
  }

  lemma ScalarsFit(S: Schema, m: Msg, wallTime: word64, step: int64)
    requires Describes(S) && Wf(S, Event, m) && |m.slots| == 10
    ensures Wf(S, Event, SetSlot(SetSlot(m, 0, [Num(wallTime)]), 1, [Num(step)]))
  {
    hide EVENT_FIELDS, Wf;
    EventFieldFacts();
    SetSlotWf(S, Event, m, 0, [Num(wallTime)]);
    SetSlotWf(S, Event, SetSlot(m, 0, [Num(wallTime)]), 1, [Num(step)]);
  }

  /** A submessage in field `k` is well formed. */
  lemma ContentIsWf(S: Schema, m: Msg, k: nat)
    requires Describes(S) && Wf(S, Event, m) && |m.slots| == 10 && k < 10 && EVENT_FIELDS[k].kind.Message?
    ensures m.slots[k].vs != [] ==>
              m.slots[k].vs[0].Sub? && Wf(S, EVENT_FIELDS[k].kind.target, m.slots[k].vs[0].m)
  {
    hide EVENT_FIELDS;
    assert WfSlot(S, EVENT_FIELDS[k], m.slots[k].vs);
    if m.slots[k].vs != [] { assert WfValue(S, EVENT_FIELDS[k].kind, m.slots[k].vs[0]); }
  }

  lemma MergedSourceFits(S: Schema, a: Msg, base: Msg, b: Msg)
    requires Describes(S) && Wf(S, Event, a) && Wf(S, Event, b) && |a.slots| == |b.slots| == 10
    requires b.slots[9].vs != [] && b.slots[9].vs[0].Sub? && base == Base(S, SourceMetadata, a.slots[9].vs)
    ensures Wf(S, Event, SetSlot(a, 9, [Sub(Merge(S, SourceMetadata, base, b.slots[9].vs[0].m))]))
  {
    hide EVENT_FIELDS, Wf;
    EventFieldFacts();
    ContentIsWf(S, b, 9);
    BaseWf(S, Event, a, 9);
    MergeKeepsWf(S, SourceMetadata, base, b.slots[9].vs[0].m);
    SourceFits(S, a, [Sub(Merge(S, SourceMetadata, base, b.slots[9].vs[0].m))]);
  }

  lemma {:induction false} MergedMemberFits(S: Schema, a: Msg, c: O.WhatCase, b: Msg)
    requires Describes(S) && Wf(S, Event, a) && Wf(S, Event, b) && |a.slots| == |b.slots| == 10 && O.Member(c).Some?
    requires At(b, IndexOf(c)) != [] && At(b, IndexOf(c))[0].Sub?
    ensures var t := O.TypeOf(c);
      Wf(S, Event, WithMember(a, IndexOf(c), [Sub(Merge(S, t, Base(S, t, At(a, IndexOf(c))), At(b, IndexOf(c))[0].m))]))
  {
    hide EVENT_FIELDS, Wf;
    EventFieldFacts();
    var t, k := O.TypeOf(c), IndexOf(c);
    ContentIsWf(S, b, k);
    BaseWf(S, Event, a, k);
    MergeKeepsWf(S, t, Base(S, t, At(a, k)), At(b, k)[0].m);
    MemberFits(S, a, c, Sub(Merge(S, t, Base(S, t, At(a, k)), At(b, k)[0].m)));
  }

  /** The case of `b` says which of its members is set. */
  ghost predicate CaseOf(b: Msg, c: O.WhatCase) {
    |b.slots| == 10 && forall k :: 2 <= k < 9 ==> (b.slots[k].vs != [] <==> k == IndexOf(c))
  }

  function UnknownMerged(a: Msg, b: Msg): (m: Msg)
    ensures |m.slots| == |a.slots|
  {
    a.(unknown := a.unknown + b.unknown)
  }

  function SourceMerged(S: Schema, a: Msg, b: Msg): (m: Msg)
    ensures |m.slots| == |a.slots|
  {
    if |a.slots| == 10 then SetSlot(a, 9, MergeSlot(S, EVENT_FIELDS[9], At(a, 9), At(b, 9))) else a
  }

  function ScalarsMerged(S: Schema, a: Msg, b: Msg): (m: Msg)
    ensures |m.slots| == |a.slots|
  {
    if |a.slots| == 10
    then SetSlot(SetSlot(a, 0, MergeSlot(S, EVENT_FIELDS[0], At(a, 0), At(b, 0))), 1,
                 MergeSlot(S, EVENT_FIELDS[1], At(a, 1), At(b, 1)))
    else a
  }

  /** `a` after the switch over the case of `b`. */
  function MemberMerged(S: Schema, a: Msg, b: Msg, c: O.WhatCase): (m: Msg)
    ensures |m.slots| == |a.slots|
  {
    if c == O.WhatNotSet then a
    else WithMember(a, IndexOf(c), MergeSlot(S, EVENT_FIELDS[IndexOf(c)], At(a, IndexOf(c)), At(b, IndexOf(c))))
  }

  lemma SourceMergedIs(S: Schema, a: Msg, b: Msg)
    requires |a.slots| == 10 && (At(b, 9) != [] ==> At(b, 9)[0].Sub?)
    ensures SourceMerged(S, a, b)
         == if At(b, 9) == [] then a
            else SetSlot(a, 9, [Sub(Merge(S, SourceMetadata, Base(S, SourceMetadata, At(a, 9)), At(b, 9)[0].m))])
  {
    hide EVENT_FIELDS, Merge;
    EventFieldFacts();
    if At(b, 9) == [] {
      assert SetSlot(a, 9, At(a, 9)).slots == a.slots;
    } else {
      MergeOne(S, EVENT_FIELDS[9], At(a, 9), At(b, 9));
    }
  }

  lemma ScalarsMergedIs(S: Schema, a: Msg, b: Msg, w: int, w': int, s: int, s': int)
    requires |a.slots| == 10
    requires At(a, 0) == [Num(w)] && At(b, 0) == [Num(w')] && At(a, 1) == [Num(s)] && At(b, 1) == [Num(s')]
    ensures ScalarsMerged(S, a, b)
         == SetSlot(SetSlot(a, 0, [Num(if H.NonZero(w') then w' else w)]), 1, [Num(if s' != 0 then s' else s)])
  {
    hide EVENT_FIELDS;
    EventFieldFacts();
    H.MergeDouble(S, EVENT_FIELDS[0], w, w');
    MergeInteger(S, EVENT_FIELDS[1], s, s');
  }

  lemma MergeInteger(S: Schema, f: Field, a: int, b: int)
    requires f.rule.Implicit? && f.kind.Int64?
    ensures MergeSlot(S, f, [Num(a)], [Num(b)]) == [Num(if b != 0 then b else a)]
  {
  }

  /** Merging a singular value in. */
  lemma MergeOne(S: Schema, f: Field, had: seq<Value>, from: seq<Value>)
    requires from != [] && !f.rule.Repeated? && !f.rule.Implicit?
    requires if f.kind.Message? then from[0].Sub? else !from[0].Sub?
    ensures MergeSlot(S, f, had, from)
         == [if f.kind.Message? then Sub(Merge(S, f.kind.target, Base(S, f.kind.target, had), from[0].m)) else from[0]]
  {
    hide Merge;
  }

  lemma NotSetMerged(S: Schema, a: Msg, b: Msg)
    ensures MemberMerged(S, a, b, O.WhatNotSet) == a
  {
  }

  lemma {:induction false} MemberMergedIs(S: Schema, a: Msg, b: Msg, c: O.WhatCase)
    requires c != O.WhatNotSet && At(b, IndexOf(c)) != []
    requires if O.IsString(c) then At(b, IndexOf(c))[0].Data? else At(b, IndexOf(c))[0].Sub?
    ensures var v := At(b, IndexOf(c))[0];
      var t := O.TypeOf(c);
      MemberMerged(S, a, b, c)
      == WithMember(a, IndexOf(c), [if O.IsString(c) then v else Sub(Merge(S, t, Base(S, t, At(a, IndexOf(c))), v.m))])
  {
    hide EVENT_FIELDS, Merge, WithMember;
    EventFieldFacts();
    MergeOne(S, EVENT_FIELDS[IndexOf(c)], At(a, IndexOf(c)), At(b, IndexOf(c)));
  }

  /** The steps of `MergeFrom` make the merge of the two messages. */
  lemma MergedEvent(S: Schema, a: Msg, b: Msg, c: O.WhatCase)
    requires Describes(S) && |a.slots| == 10 && CaseOf(b, c)
    ensures MemberMerged(S, ScalarsMerged(S, SourceMerged(S, UnknownMerged(a, b), b), b), b, c) == Merge(S, Event, a, b)
  {
    hide EVENT_FIELDS, Merge, MergeSlot, Evicted;
    EventFieldFacts();
    var m := MemberMerged(S, ScalarsMerged(S, SourceMerged(S, UnknownMerged(a, b), b), b), b, c);
    forall j: nat | j < 10 ensures m.slots[j] == Merge(S, Event, a, b).slots[j] {
      MergeAt(S, Event, a, b, j);
      EvictedByCase(b, c, j);
      NothingMerged(S, EVENT_FIELDS[j], a.slots[j].vs);
      NothingMerged(S, EVENT_FIELDS[j], []);
    }
    assert m.slots == Merge(S, Event, a, b).slots;
  }

  /** What the copy constructor makes of `m`: submessages in the oneof are merged into new ones. */
  function Cloned(S: Schema, m: Msg): Msg {
    m.(slots := seq(|m.slots|, j requires 0 <= j < |m.slots| =>
                      if IsMember(j) && j < |EVENT_FIELDS| then Slot(MergeSlot(S, EVENT_FIELDS[j], [], m.slots[j].vs))
                      else m.slots[j]))
  }

  lemma CloneSteps(S: Schema, m: Msg, c: O.WhatCase)
    requires CaseOf(m, c)
    ensures MemberMerged(S, NoMember(m), m, c) == Cloned(S, m)
  {
    hide EVENT_FIELDS, MergeSlot;
    EventFieldFacts();
    forall j: nat | j < 10 ensures MemberMerged(S, NoMember(m), m, c).slots[j] == Cloned(S, m).slots[j] {
      if IsMember(j) { NothingMerged(S, EVENT_FIELDS[j], []); }
    }
    assert MemberMerged(S, NoMember(m), m, c).slots == Cloned(S, m).slots;
  }

  /** A clone prints the same bytes. */
  lemma ClonePrintsTheSame(S: Schema, m: Msg)
    requires Describes(S) && Wf(S, Event, m)
    ensures Serialize(S, Event, Cloned(S, m)) == Serialize(S, Event, m)
  {
    CloneRecords(S, m, 0);
  }

  lemma {:induction false} CloneRecords(S: Schema, m: Msg, k: nat)
    requires Describes(S) && Wf(S, Event, m) && k <= 10
    ensures RecordsFrom(S, EVENT_FIELDS, Cloned(S, m), k) == RecordsFrom(S, EVENT_FIELDS, m, k)
    decreases 10 - k
  {
    hide EVENT_FIELDS, MergeSlot, SlotRecords, WfField;
    EventFieldFacts();
    if k < 10 {
      var f := EVENT_FIELDS[k];
      assert WfSlot(S, f, m.slots[k].vs);
      if IsMember(k) { CopiedSlotPrintsTheSame(S, f, m.slots[k].vs); }
      CloneRecords(S, m, k + 1);
    }
  }

  /** A clone is equal to the original exactly if the oneof holds no negative zero that is lost. */
  lemma CloneIsSame(S: Schema, m: Msg)
    requires Describes(S) && Wf(S, Event, m)
    ensures Cloned(S, m) == m <==> forall k :: 2 <= k < 9 ==> CanonicalSlot(S, EVENT_FIELDS[k], m.slots[k].vs)
  {
    hide EVENT_FIELDS, MergeSlot, CanonicalSlot, WfField;
    EventFieldFacts();
    forall k: nat | IsMember(k)
      ensures Cloned(S, m).slots[k] == m.slots[k] <==> CanonicalSlot(S, EVENT_FIELDS[k], m.slots[k].vs)
    {
      assert WfSlot(S, EVENT_FIELDS[k], m.slots[k].vs);
      CopiedSlotIsSame(S, EVENT_FIELDS[k], m.slots[k].vs);
    }
    assert Cloned(S, m).slots == m.slots <==> forall k: nat :: k < 10 ==> Cloned(S, m).slots[k] == m.slots[k];
  }

  lemma NothingMerged(S: Schema, f: Field, vs: seq<Value>)
    ensures MergeSlot(S, f, vs, []) == vs
  {
  }

  lemma EvictedByCase(b: Msg, c: O.WhatCase, j: nat)
    requires CaseOf(b, c) && j < 10
    ensures Evicted(EVENT_FIELDS, b, 10, j) <==> IsMember(j) && c != O.WhatNotSet && j != IndexOf(c)
  {
    hide EVENT_FIELDS;
    EventFieldFacts();
    if Evicted(EVENT_FIELDS, b, 10, j) {
      var i: nat :| i < 10 && Siblings(EVENT_FIELDS, i, j) && At(b, i) != [];
      EventSiblings(i, j);
    } else if IsMember(j) && c != O.WhatNotSet && j != IndexOf(c) {
      EventSiblings(IndexOf(c), j);
    }
  }

  /** The size of a singular double. */
  lemma WallTimeSize(S: Schema, f: Field, bits: word64)
    requires f.rule.Implicit? && f.kind.Double? && 1 <= f.num <= 15
    ensures FieldSize(S, f, [Num(bits)]) == if H.NonZero(bits) then 1 + 8 else 0
  {
    H.DoubleBytes(S, f, bits);
  }

  lemma SourceFits(S: Schema, m: Msg, vs: seq<Value>)
    requires Describes(S) && Wf(S, Event, m) && |m.slots| == 10
    requires vs == [] || (|vs| == 1 && vs[0].Sub? && Wf(S, SourceMetadata, vs[0].m))
    ensures Wf(S, Event, SetSlot(m, 9, vs))
  {
    hide EVENT_FIELDS, Wf;
    EventFieldFacts();
    SetSlotWf(S, Event, m, 9, vs);
  }

  class SubMessage {
    const t: MessageType
    var content: Msg
    var cachedSize: int

    constructor (t: MessageType, content: Msg)
      ensures this.t == t && this.content == content
    {
      this.t, this.content := t, content;
    }

    /** The cached size is that of the serialized submessage. */
    ghost predicate Sized(S: Schema)
      reads this
    {
      cachedSize == ToCachedSize(|Serialize(S, t, content)|)
    }

    method ByteSizeLong(S: Schema) returns (totalSize: nat)
      modifies this`cachedSize
      ensures totalSize == |Serialize(S, t, content)| && Sized(S)
    {
      totalSize := |Serialize(S, t, content)|;
      cachedSize := ToCachedSize(totalSize);
    }
  }

  function ToOption(p: SubMessage?): Option<SubMessage> {
    if p == null then None else Some(p)
  }

  function Just(p: SubMessage?): set<SubMessage> {
    if p == null then {} else {p}
  }

  function Listed(p: SubMessage?): seq<SubMessage> {
    if p == null then [] else [p]
  }

  /** From account `was` to `now` the program gives up `taken` and gets `given`; `dead` are deleted. */
  ghost predicate Moved(was: O.State<SubMessage>, now: O.State<SubMessage>, taken: set<SubMessage>,
                        given: set<SubMessage>, dead: seq<SubMessage>) {
    now.caller == was.caller - taken + given && now.destroyed == was.destroyed + dead
  }

  class EventProto {
    const S: Schema
    var wallTime: word64
    var step: int64
    var oneofCase: O.WhatCase
    var str: bytes                   // the union, as a string
    var what: SubMessage?            // the union, as a pointer; null unless the case is a message's
    var sourceMetadata: SubMessage?
    var unknown: seq<Record>
    var cachedSize: int
    ghost var own: O.State<SubMessage>

    /** What member `k` of the oneof holds. */
    function WhatAt(k: nat): seq<Value>
      reads this`oneofCase, this`str, this`what, what
    {
      if IndexOf(oneofCase) != k then []
      else if O.IsString(oneofCase) then [Data(str)]
      else if what != null then [Sub(what.content)]
      else []
    }

    function SourceAt(): seq<Value>
      reads this`sourceMetadata, sourceMetadata
    {
      if sourceMetadata != null then [Sub(sourceMetadata.content)] else []
    }

    function View(): (m: Msg)
      reads this`wallTime, this`step, this`oneofCase, this`str, this`what, what, this`sourceMetadata, sourceMetadata,
            this`unknown
      ensures |m.slots| == 10 && m.unknown == unknown
      ensures m.slots[0].vs == [Num(wallTime)] && m.slots[1].vs == [Num(step)] && m.slots[9].vs == SourceAt()
      ensures forall k: nat :: IsMember(k) ==> m.slots[k].vs == WhatAt(k)
    {
      Msg([Slot([Num(wallTime)]), Slot([Num(step)]), Slot(WhatAt(2)), Slot(WhatAt(3)), Slot(WhatAt(4)), Slot(WhatAt(5)),
           Slot(WhatAt(6)), Slot(WhatAt(7)), Slot(WhatAt(8)), Slot(SourceAt())], unknown)
    }

    /** The view after setting member `k` of message `m`. */
    lemma ViewWithMember(m: Msg, k: nat, vs: seq<Value>)
      requires SameOthers(m) && IsMember(k) && IndexOf(oneofCase) == k && WhatAt(k) == vs
      ensures View() == WithMember(m, k, vs)
    {
      assert View().slots == WithMember(m, k, vs).slots;
    }

    lemma ViewNoMember(m: Msg)
      requires SameOthers(m) && oneofCase == O.WhatNotSet
      ensures View() == NoMember(m)
    {
      assert View().slots == NoMember(m).slots;
    }

    /** Outside the oneof the view is that of `m`. */
    ghost predicate SameOthers(m: Msg)
      reads this`wallTime, this`step, this`sourceMetadata, sourceMetadata, this`unknown
    {
      && |m.slots| == 10 && m.unknown == unknown
      && m.slots[0].vs == [Num(wallTime)] && m.slots[1].vs == [Num(step)] && m.slots[9].vs == SourceAt()
    }

    /** The fields agree with the account of who owns what. */
    ghost predicate Accounted()
      reads this`oneofCase, this`what, this`sourceMetadata, this`own
    {
      && O.Inv(own)
      && own.what_case == oneofCase && own.source == ToOption(sourceMetadata)
      && (if O.Member(oneofCase).Some? then own.what == ToOption(what) else what == null)
      && forall x <- own.types :: own.types[x] == x.t
    }

    ghost predicate Valid()
      reads this, what, sourceMetadata
    {
      Describes(S) && Accounted() && Wf(S, Event, View())
    }

    constructor (S: Schema)
      requires Describes(S)
      ensures Valid() && this.S == S && View() == Empty(S, Event) && own == O.Initial()
    {
      this.S, wallTime, step, oneofCase, str, what, sourceMetadata, unknown := S, 0, 0, O.WhatNotSet, [], null, null, [];
      own := O.Initial();
      new;
      hide Describes, Wf, View, Empty, O.Inv;
      InitialInv();
      NothingSet();
    }

    lemma NothingSet()
      requires Describes(S) && wallTime == 0 && step == 0 && unknown == []
      requires oneofCase == O.WhatNotSet && sourceMetadata == null
      ensures View() == Empty(S, Event) && Wf(S, Event, View())
    {
      EmptyWf(S, Event);
      assert View().slots == Empty(S, Event).slots;
    }

    lemma InitialInv()
      ensures O.Inv<SubMessage>(O.Initial())
    {
    }

    /** The program creates a submessage of its own. */
    method NewMessage(t: MessageType, content: Msg) returns (x: SubMessage)
      requires Valid()
      modifies this`own
      ensures Valid() && own == O.Step(old(own), O.New(t, x)) && View() == old(View())
      ensures fresh(x) && x.t == t && x.content == content && Moved(old(own), own, {}, {x}, [])
    {
      hide Wf, Describes, O.Inv, View;
      x := new SubMessage(t, content);
      O.StepKeepsInv(own, O.New(t, x));
      own := O.Step(own, O.New(t, x));
    }

    /** What the program owns goes over to the account of another event, to be given to that one. */
    ghost method HandOver(to: EventProto, x: SubMessage)
      requires Valid() && to.Valid() && this != to && x in own.caller && x !in to.own.types
      modifies this`own, to`own
      ensures Valid() && own == O.Leave(old(own), x) && View() == old(View())
      ensures to.Valid() && to.own == O.Enter(old(to.own), x, x.t) && to.View() == old(to.View())
      ensures x in to.own.caller && O.Typed(to.own, x, x.t)
      ensures Moved(old(own), own, {x}, {}, []) && Moved(old(to.own), to.own, {}, {x}, [])
    {
      hide Wf, Describes, O.Inv, View;
      O.LeaveKeepsInv(own, x);
      O.EnterKeepsInv(to.own, x, x.t);
      own := O.Leave(own, x);
      to.own := O.Enter(to.own, x, x.t);
    }

    /** The program deletes one of its own. */
    method DeleteMessage(x: SubMessage)
      requires Valid() && x in own.caller
      modifies this`own
      ensures Valid() && own == O.Step(old(own), O.Delete(x)) && View() == old(View())
      ensures Moved(old(own), own, {x}, {}, [x])
    {
      hide Wf, Describes, O.Inv, View;
      O.StepKeepsInv(own, O.Delete(x));
      own := O.Step(own, O.Delete(x));
    }

    /** `clear_what`: the live submessage, if there is one, is deleted. */
    method ClearWhat()
      requires Valid()
      modifies this`oneofCase, this`what, this`own
      ensures Valid() && own == O.Step(old(own), O.ClearWhat) && O.Grew(old(own), own) && oneofCase == O.WhatNotSet
      ensures what == null && View() == NoMember(old(View()))
      ensures Moved(old(own), own, {}, {}, old(Listed(what)))
    {
      hide Moved, Wf, Describes, O.Inv, O.Step, O.Grew, View, WithMember, NoMember, ToOption;
      ClearWhatMoves();
      O.StepKeepsInv(own, O.ClearWhat);
      O.ClearWhatStep(own);
      O.GrewBy(own, O.ClearWhat);
      NoMemberFits(S, View());
      own := O.Step(own, O.ClearWhat);
      oneofCase, what := O.WhatNotSet, null;
      ViewNoMember(old(View()));
    }

    /** `clear_*` of one member. */
    method ClearMember(c: O.WhatCase)
      requires Valid()
      modifies this`oneofCase, this`what, this`own
      ensures Valid() && own == O.Step(old(own), O.ClearMember(c))
      ensures View() == if old(oneofCase) == c then NoMember(old(View())) else old(View())
      ensures Moved(old(own), own, {}, {}, if old(oneofCase) == c then old(Listed(what)) else [])
    {
      hide Moved, Wf, Describes, O.Inv, O.Step, O.Grew, View, NoMember, ToOption;
      ClearMemberMoves(c);
      O.StepKeepsInv(own, O.ClearMember(c));
      O.ClearMemberStep(own, c);
      NoMemberFits(S, View());
      ghost var m := View();
      own := O.Step(own, O.ClearMember(c));
      if oneofCase == c {
        oneofCase, what := O.WhatNotSet, null;
        ViewNoMember(m);
      }
    }

    /** `set_allocated_*` of a message member, also in its unsafe_arena form. */
    method SetAllocated(c: O.WhatCase, p: SubMessage?)
      requires Valid() && O.Permitted(own, O.SetAllocated(c, ToOption(p)))
      requires p != null ==> Wf(S, O.TypeOf(c), p.content)
      modifies this`oneofCase, this`what, this`own
      ensures Valid() && own == O.Step(old(own), O.SetAllocated(c, ToOption(p)))
      ensures View()
           == if p == null then NoMember(old(View())) else WithMember(old(View()), IndexOf(c), [Sub(p.content)])
      ensures Moved(old(own), own, Just(p), {}, old(Listed(what)))
    {
      hide Moved, Wf, Describes, Accounted, O.Inv, O.Step, View, WithMember, NoMember, SourceAt, ToOption;
      SetAllocatedMoves(c, p);
      ghost var was := own;
      AccountIs();
      ghost var m := View();
      if p != null { MemberFits(S, m, c, Sub(p.content)); }
      ClearWhat();
      own := O.Step(was, O.SetAllocated(c, ToOption(p)));
      if p != null {
        oneofCase := c;
        what := p;
        ViewWithMember(m, IndexOf(c), [Sub(p.content)]);
      }
      GivenIsAccounted(was, c, p);
    }

    // What a call does to the account, in terms of the pointers.

    lemma SetAllocatedMoves(c: O.WhatCase, p: SubMessage?)
      requires Accounted() && O.Permitted(own, O.SetAllocated(c, ToOption(p)))
      ensures Moved(own, O.Step(own, O.SetAllocated(c, ToOption(p))), Just(p), {}, Listed(what))
    {
      hide O.Inv, O.Step;
      O.StepMoves(own, O.SetAllocated(c, ToOption(p)));
    }

    lemma ReleaseMoves(c: O.WhatCase)
      requires Accounted() && O.Permitted(own, O.Release(c))
      ensures Moved(own, O.Step(own, O.Release(c)), {}, Just(if oneofCase == c then what else null), [])
    {
      hide O.Inv, O.Step;
      O.StepMoves(own, O.Release(c));
    }

    lemma MutableMoves(c: O.WhatCase, x: SubMessage)
      requires Accounted() && O.Permitted(own, O.Mutable(c, x))
      ensures Moved(own, O.Step(own, O.Mutable(c, x)), {}, {}, if oneofCase == c then [] else Listed(what))
    {
      hide O.Inv, O.Step;
      O.StepMoves(own, O.Mutable(c, x));
    }

    lemma SetStringMoves(c: O.WhatCase)
      requires Accounted() && O.Permitted(own, O.SetString(c))
      ensures Moved(own, O.Step(own, O.SetString(c)), {}, {}, if oneofCase == c then [] else Listed(what))
    {
      hide O.Inv, O.Step;
      O.StepMoves(own, O.SetString(c));
    }

    lemma ClearWhatMoves()
      requires Accounted() && O.Permitted(own, O.ClearWhat)
      ensures Moved(own, O.Step(own, O.ClearWhat), {}, {}, Listed(what))
    {
      hide O.Inv, O.Step;
      O.StepMoves(own, O.ClearWhat);
    }

    lemma ClearMemberMoves(c: O.WhatCase)
      requires Accounted()
      ensures Moved(own, O.Step(own, O.ClearMember(c)), {}, {}, if oneofCase == c then Listed(what) else [])
    {
      hide O.Inv, O.Step;
      O.StepMoves(own, O.ClearMember(c));
    }

    lemma SetAllocatedSourceMoves(p: SubMessage?)
      requires Accounted() && O.Permitted(own, O.SetAllocatedSource(ToOption(p)))
      ensures Moved(own, O.Step(own, O.SetAllocatedSource(ToOption(p))), Just(p), {}, Listed(sourceMetadata))
    {
      hide O.Inv, O.Step;
      O.StepMoves(own, O.SetAllocatedSource(ToOption(p)));
    }

    lemma ReleaseSourceMoves()
      requires Accounted() && O.Permitted(own, O.ReleaseSource)
      ensures Moved(own, O.Step(own, O.ReleaseSource), {}, Just(sourceMetadata), [])
    {
      hide O.Inv, O.Step;
      O.StepMoves(own, O.ReleaseSource);
    }

    lemma MutableSourceMoves(x: SubMessage)
      requires Accounted() && O.Permitted(own, O.MutableSource(x))
      ensures Moved(own, O.Step(own, O.MutableSource(x)), {}, {}, [])
    {
      hide O.Inv, O.Step;
      O.StepMoves(own, O.MutableSource(x));
    }

    lemma ClearSourceMoves()
      requires Accounted() && O.Permitted(own, O.ClearSource)
      ensures Moved(own, O.Step(own, O.ClearSource), {}, {}, Listed(sourceMetadata))
    {
      hide O.Inv, O.Step;
      O.StepMoves(own, O.ClearSource);
    }

    lemma DestructorMoves()
      requires Accounted() && O.Permitted(own, O.Destructor)
      ensures Moved(own, O.Step(own, O.Destructor), {}, {}, Listed(sourceMetadata) + Listed(what))
    {
      hide O.Inv, O.Step;
      O.StepMoves(own, O.Destructor);
    }

    lemma AccountIs()
      requires Accounted()
      ensures O.Inv(own) && own.what_case == oneofCase && own.source == ToOption(sourceMetadata)
      ensures forall x <- own.types :: own.types[x] == x.t
    {
    }

    lemma GivenIsAccounted(was: O.State<SubMessage>, c: O.WhatCase, p: SubMessage?)
      requires O.Inv(was) && O.Permitted(was, O.SetAllocated(c, ToOption(p)))
      requires was.source == ToOption(sourceMetadata) && forall x <- was.types :: was.types[x] == x.t
      requires own == O.Step(was, O.SetAllocated(c, ToOption(p)))
      requires what == p && oneofCase == if p != null then c else O.WhatNotSet
      ensures Accounted()
    {
      hide O.Inv, O.Step;
      O.StepKeepsInv(was, O.SetAllocated(c, ToOption(p)));
      O.SetAllocatedStep(was, c, ToOption(p));
    }

    /** `release_*` of a message member: the caller now owns what is returned. */
    method Release(c: O.WhatCase) returns (p: SubMessage?)
      requires Valid() && O.Member(c).Some?
      modifies this`oneofCase, this`what, this`own
      ensures Valid() && own == O.Step(old(own), O.Release(c))
      ensures p == if old(oneofCase) == c then old(what) else null
      ensures p != null ==> p in own.caller
      ensures View() == if old(oneofCase) == c then NoMember(old(View())) else old(View())
      ensures Moved(old(own), own, {}, Just(p), [])
    {
      hide Moved, Wf, Describes, O.Inv;
      ReleaseMoves(c);
      O.StepKeepsInv(own, O.Release(c));
      NoMemberFits(S, View());
      ghost var m := View();
      own := O.Step(own, O.Release(c));
      p := null;
      if oneofCase == c {
        oneofCase := O.WhatNotSet;
        p := what;
        what := null;
        ViewNoMember(m);
      }
    }

    /** `_internal_mutable_*` of a message member. */
    method MutableWhat(c: O.WhatCase) returns (p: SubMessage)
      requires Valid() && O.Member(c).Some?
      modifies this`oneofCase, this`what, this`own
      ensures Valid() && own == O.Step(old(own), O.Mutable(c, p)) && what == p && oneofCase == c
      ensures O.Grew(old(own), own) && p != sourceMetadata
      ensures old(oneofCase) == c ==> p == old(what) && View() == old(View())
      ensures old(oneofCase) != c ==>
                && fresh(p) && p.content == Empty(S, O.TypeOf(c))
                && View() == WithMember(old(View()), IndexOf(c), [Sub(Empty(S, O.TypeOf(c)))])
      ensures Moved(old(own), own, {}, {}, if old(oneofCase) == c then [] else old(Listed(what)))
    {
      hide Moved, Valid, Describes, O.Step, O.Grew, Empty, View, WithMember;
      LiveIsThere();
      if oneofCase == c {
        p := what;
        KeepWhat(c);
      } else {
        p := CreateWhat(c);
      }
    }

    /** The submessage that is there is used. */
    ghost method KeepWhat(c: O.WhatCase)
      requires Valid() && oneofCase == c && O.Member(c).Some? && what != null
      modifies this`own
      ensures Valid() && own == O.Step(old(own), O.Mutable(c, what)) && O.Grew(old(own), own)
      ensures Moved(old(own), own, {}, {}, [])
    {
      hide Moved, Wf, Describes, O.Step, O.Inv, O.Grew, View;
      MutableMoves(c, what);
      O.StepKeepsInv(own, O.Mutable(c, what));
      O.MutableStep(own, c, what);
      O.GrewBy(own, O.Mutable(c, what));
      own := O.Step(own, O.Mutable(c, what));
    }

    method CreateWhat(c: O.WhatCase) returns (x: SubMessage)
      requires Valid() && O.Member(c).Some? && oneofCase != c
      modifies this`oneofCase, this`what, this`own
      ensures Valid() && own == O.Step(old(own), O.Mutable(c, x)) && what == x && oneofCase == c
      ensures O.Grew(old(own), own)
      ensures fresh(x) && x.content == Empty(S, O.TypeOf(c))
      ensures View() == WithMember(old(View()), IndexOf(c), [Sub(Empty(S, O.TypeOf(c)))])
      ensures Moved(old(own), own, {}, {}, old(Listed(what)))
    {
      hide Moved, Wf, Describes, Accounted, O.Step, O.Grew, Empty, View, WithMember;
      x := new SubMessage(O.TypeOf(c), Empty(S, O.TypeOf(c)));
      AttachWhat(c, x);
    }

    method AttachWhat(c: O.WhatCase, x: SubMessage)
      requires Valid() && O.Member(c).Some? && oneofCase != c && x !in own.types
      requires x.t == O.TypeOf(c) && x.content == Empty(S, x.t)
      modifies this`oneofCase, this`what, this`own
      ensures Valid() && own == O.Step(old(own), O.Mutable(c, x)) && what == x && oneofCase == c
      ensures O.Grew(old(own), own)
      ensures View() == WithMember(old(View()), IndexOf(c), [Sub(x.content)])
      ensures Moved(old(own), own, {}, {}, old(Listed(what)))
    {
      hide Moved, Wf, Describes, Accounted, O.Step, O.Inv, O.Grew, Empty, View, WithMember, NoMember, SourceAt, ToOption;
      MutableMoves(c, x);
      EmptyFits(c);
      AccountIs();
      ghost var was := own;
      ghost var m := View();
      ClearWhat();
      own := O.Step(was, O.Mutable(c, x));
      oneofCase, what := c, x;
      ViewWithMember(m, IndexOf(c), [Sub(x.content)]);
      NewIsAccounted(was, c, x);
    }

    lemma NewIsAccounted(was: O.State<SubMessage>, c: O.WhatCase, x: SubMessage)
      requires O.Inv(was) && O.Member(c).Some? && was.what_case != c && x !in was.types && x.t == O.TypeOf(c)
      requires was.source == ToOption(sourceMetadata) && forall y <- was.types :: was.types[y] == y.t
      requires own == O.Step(was, O.Mutable(c, x)) && what == x && oneofCase == c
      ensures Accounted() && O.Grew(was, own)
    {
      hide O.Inv, O.Step, O.Grew;
      O.CreateStep(was, c, x);
    }

    /** New content for the live submessage. */
    method SetContent(ghost m: Msg, c: O.WhatCase, content: Msg)
      requires Valid() && oneofCase == c && O.Member(c).Some? && what != null && SameOthers(m)
      requires Wf(S, Event, WithMember(m, IndexOf(c), [Sub(content)]))
      modifies what
      ensures Valid() && View() == WithMember(m, IndexOf(c), [Sub(content)])
    {
      hide Wf, Describes, O.Step, View, WithMember, NoMember;
      LiveIsThere();
      what.content := content;
      ViewWithMember(m, IndexOf(c), [Sub(content)]);
    }

    lemma LiveIsThere()
      requires Valid()
      ensures O.Member(oneofCase).Some? ==> what != null && what.t == O.TypeOf(oneofCase) && what != sourceMetadata
      ensures sourceMetadata != null ==> sourceMetadata.t == SourceMetadata
    {
    }

    lemma EmptyFits(c: O.WhatCase)
      requires Valid() && O.Member(c).Some?
      ensures Wf(S, Event, WithMember(View(), IndexOf(c), [Sub(Empty(S, O.TypeOf(c)))]))
    {
      EmptyWf(S, O.TypeOf(c));
      MemberFits(S, View(), c, Sub(Empty(S, O.TypeOf(c))));
    }

    /** `_internal_set_*` of a string member. */
    method SetString(c: O.WhatCase, value: bytes)
      requires Valid() && O.IsString(c)
      modifies this`oneofCase, this`str, this`what, this`own
      ensures Valid() && own == O.Step(old(own), O.SetString(c)) && oneofCase == c && what == null
      ensures O.Grew(old(own), own)
      ensures View() == WithMember(old(View()), IndexOf(c), [Data(value)])
      ensures Moved(old(own), own, {}, {}, if old(oneofCase) == c then [] else old(Listed(what)))
    {
      hide Moved, Wf, Describes, O.Inv, O.Step, O.Grew, View, WithMember, NoMember;
      SetStringMoves(c);
      O.StepKeepsInv(own, O.SetString(c));
      O.SetStringStep(own, c);
      O.GrewBy(own, O.SetString(c));
      ghost var was := own;
      ghost var m := View();
      MemberFits(S, m, c, Data(value));
      if oneofCase != c {
        ClearWhat();
        oneofCase := c;
      }
      own := O.Step(was, O.SetString(c));
      str := value;
      ViewWithMember(m, IndexOf(c), [Data(value)]);
    }

    method ClearSourceMetadata()
      requires Valid()
      modifies this`sourceMetadata, this`own
      ensures Valid() && own == O.Step(old(own), O.ClearSource) && O.Grew(old(own), own) && sourceMetadata == null
      ensures View() == SetSlot(old(View()), 9, [])
      ensures Moved(old(own), own, {}, {}, old(Listed(sourceMetadata)))
    {
      hide Moved, Wf, Describes, O.Inv, O.Grew;
      ClearSourceMoves();
      O.StepKeepsInv(own, O.ClearSource);
      O.GrewBy(own, O.ClearSource);
      SourceFits(S, View(), []);
      own := O.Step(own, O.ClearSource);
      sourceMetadata := null;
      assert View().slots == SetSlot(old(View()), 9, []).slots;
    }

    method SetAllocatedSourceMetadata(p: SubMessage?)
      requires Valid() && O.Permitted(own, O.SetAllocatedSource(ToOption(p)))
      requires p != null ==> Wf(S, SourceMetadata, p.content)
      modifies this`sourceMetadata, this`own
      ensures Valid() && own == O.Step(old(own), O.SetAllocatedSource(ToOption(p))) && sourceMetadata == p
      ensures View() == SetSlot(old(View()), 9, if p == null then [] else [Sub(p.content)])
      ensures Moved(old(own), own, Just(p), {}, old(Listed(sourceMetadata)))
    {
      hide Moved, Wf, Describes, O.Inv, O.Step, View, WithMember, NoMember;
      SetAllocatedSourceMoves(p);
      O.StepKeepsInv(own, O.SetAllocatedSource(ToOption(p)));
      O.SetAllocatedSourceStep(own, ToOption(p));
      SourceFits(S, View(), if p == null then [] else [Sub(p.content)]);
      own := O.Step(own, O.SetAllocatedSource(ToOption(p)));
      sourceMetadata := p;
      assert View().slots == SetSlot(old(View()), 9, if p == null then [] else [Sub(p.content)]).slots;
    }

    method ReleaseSourceMetadata() returns (p: SubMessage?)
      requires Valid()
      modifies this`sourceMetadata, this`own
      ensures Valid() && own == O.Step(old(own), O.ReleaseSource) && p == old(sourceMetadata) && sourceMetadata == null
      ensures p != null ==> p in own.caller
      ensures View() == SetSlot(old(View()), 9, [])
      ensures Moved(old(own), own, {}, Just(p), [])
    {
      hide Moved, Wf, Describes, O.Inv;
      ReleaseSourceMoves();
      O.StepKeepsInv(own, O.ReleaseSource);
      SourceFits(S, View(), []);
      own := O.Step(own, O.ReleaseSource);
      p := sourceMetadata;
      sourceMetadata := null;
      assert View().slots == SetSlot(old(View()), 9, []).slots;
    }

    method MutableSourceMetadata() returns (p: SubMessage)
      requires Valid()
      modifies this`sourceMetadata, this`own
      ensures Valid() && own == O.Step(old(own), O.MutableSource(p)) && sourceMetadata == p
      ensures O.Grew(old(own), own)
      ensures O.Member(oneofCase).Some? ==> p != what
      ensures old(sourceMetadata) != null ==> p == old(sourceMetadata) && View() == old(View())
      ensures old(sourceMetadata) == null ==>
                && fresh(p) && p.content == Empty(S, SourceMetadata)
                && View() == SetSlot(old(View()), 9, [Sub(Empty(S, SourceMetadata))])
      ensures Moved(old(own), own, {}, {}, [])
    {
      hide Moved, Wf, Describes, O.Inv, O.Step, O.Grew, Empty, View;
      LiveIsThere();
      if sourceMetadata != null {
        p := sourceMetadata;
        KeepSource();
      } else {
        p := CreateSource();
      }
    }

    ghost method KeepSource()
      requires Valid() && sourceMetadata != null
      modifies this`own
      ensures Valid() && own == O.Step(old(own), O.MutableSource(sourceMetadata)) && O.Grew(old(own), own)
      ensures Moved(old(own), own, {}, {}, [])
    {
      hide Moved, Wf, Describes, O.Step, O.Inv, O.Grew, View;
      MutableSourceMoves(sourceMetadata);
      O.StepKeepsInv(own, O.MutableSource(sourceMetadata));
      O.MutableSourceStep(own, sourceMetadata);
      O.GrewBy(own, O.MutableSource(sourceMetadata));
      own := O.Step(own, O.MutableSource(sourceMetadata));
    }

    method CreateSource() returns (x: SubMessage)
      requires Valid() && sourceMetadata == null
      modifies this`sourceMetadata, this`own
      ensures Valid() && own == O.Step(old(own), O.MutableSource(x)) && sourceMetadata == x
      ensures O.Grew(old(own), own)
      ensures fresh(x) && x.content == Empty(S, SourceMetadata)
      ensures View() == SetSlot(old(View()), 9, [Sub(Empty(S, SourceMetadata))])
      ensures Moved(old(own), own, {}, {}, [])
    {
      hide Moved, Wf, Describes, O.Inv, O.Step, O.Grew, Empty, View;
      EmptySourceFits();
      ghost var m := View();
      x := new SubMessage(SourceMetadata, Empty(S, SourceMetadata));
      MutableSourceMoves(x);
      O.StepKeepsInv(own, O.MutableSource(x));
      O.MutableSourceStep(own, x);
      O.GrewBy(own, O.MutableSource(x));
      own := O.Step(own, O.MutableSource(x));
      sourceMetadata := x;
      ViewWithSource(m);
    }

    /** The view after changing the source metadata of message `m`. */
    lemma ViewWithSource(m: Msg)
      requires |m.slots| == 10 && m.unknown == unknown && m.slots[0].vs == [Num(wallTime)]
      requires m.slots[1].vs == [Num(step)]
      requires forall k: nat :: IsMember(k) ==> m.slots[k].vs == WhatAt(k)
      ensures View() == SetSlot(m, 9, SourceAt())
    {
      assert View().slots == SetSlot(m, 9, SourceAt()).slots;
    }

    lemma EmptySourceFits()
      requires Valid()
      ensures Wf(S, Event, SetSlot(View(), 9, [Sub(Empty(S, SourceMetadata))]))
    {
      EmptyWf(S, SourceMetadata);
      SourceFits(S, View(), [Sub(Empty(S, SourceMetadata))]);
    }

    method Clear()
      requires Valid()
      modifies this
      ensures Valid() && View() == Empty(S, Event) && what == null && sourceMetadata == null
      ensures own == O.Run(old(own), [O.ClearSource, O.ClearWhat]) && O.Grew(old(own), own) && O.Held(own) == {}
      ensures Moved(old(own), own, {}, {}, old(Listed(sourceMetadata) + Listed(what)))
    {
      hide Wf, Describes, View, Empty, O.Inv, O.Step, O.Grew, NoMember;
      ClearSourceMetadata();
      ghost var between := own;
      ClearWhat();
      O.GrewOn(old(own), between, own);
      O.RunTwo(old(own), O.ClearSource, O.ClearWhat);
      wallTime, step, unknown := 0, 0, [];
      NothingSet();
      NothingHeld();
    }

    lemma NothingHeld()
      requires Valid() && oneofCase == O.WhatNotSet && sourceMetadata == null
      ensures what == null && O.Held(own) == {}
    {
    }

    /** `SharedDtor` of an event that is not the default instance. */
    method Destroy()
      requires Valid()
      modifies this
      ensures own == O.Step(old(own), O.Destructor) && O.Held(own) == {} && own.caller == old(own.caller)
      ensures O.Elements(own.destroyed) == O.Elements(old(own.destroyed)) + O.Held(old(own))
      ensures Moved(old(own), own, {}, {}, old(Listed(sourceMetadata) + Listed(what)))
    {
      hide Moved, Wf, Describes, O.Inv;
      DestructorMoves();
      O.DestructorHoldsNothing(own);
      ghost var was := own;
      ClearSourceMetadata();
      if oneofCase != O.WhatNotSet {
        ClearWhat();
      }
      own := O.Step(was, O.Destructor);
    }

    // ------------------------------------------------------------------- merging

    method MergeFrom(from: EventProto)
      requires from != this && Valid() && from.Valid() && from.S == S && O.Held(own) !! O.Held(from.own)
      modifies this, what, sourceMetadata
      ensures Valid() && from.Valid() && from.View() == old(from.View())
      ensures View() == Merge(S, Event, old(View()), from.View())
      ensures Settled()
    {
      hide Valid, WfSchema, Merge, O.Held, View, EVENT_FIELDS, SourceMerged, ScalarsMerged, MemberMerged,
           UnknownMerged, WhatAt, SourceAt, O.Grew, O.Inv, Settled, Base, Wf, FieldsOf;
      IsDescribed();
      ghost var a, b := View(), from.View();
      HeldApart(from);
      MergeOthers(from);
      ghost var between := own;
      MergeWhat(from);
      from.CaseIsSet();
      MergedEvent(S, a, b, from.oneofCase);
      O.GrewOn(old(own), between, own);
      AccountGrew();
    }

    /** What is outside the oneof. */
    method MergeOthers(from: EventProto)
      requires from != this && Valid() && from.Valid() && from.S == S
      requires sourceMetadata != null ==> sourceMetadata != from.what && sourceMetadata != from.sourceMetadata
      modifies this`unknown, this`wallTime, this`step, this`sourceMetadata, this`own, sourceMetadata
      ensures Valid() && from.Valid() && from.View() == old(from.View()) && what == old(what) && Grew()
      ensures var b := from.View();
        View() == ScalarsMerged(S, SourceMerged(S, UnknownMerged(old(View()), b), b), b)
    {
      hide Valid, Merge, View, SourceMerged, ScalarsMerged, UnknownMerged, WhatAt, SourceAt, O.Grew;
      LiveIsThere();
      from.LiveIsThere();
      MergeUnknown(from);
      MergeSource(from);
      MergeScalars(from);
    }

    /** The account has gained operations of the event itself. */
    twostate predicate Grew()
      reads this`own
    {
      O.Grew(old(own), own)
    }

    /** Moreover what the program owns stays with it, what is destroyed stays destroyed, and what the
        event no longer holds is destroyed. */
    twostate predicate Settled()
      reads this`own
    {
      && Grew() && own.caller == old(own.caller) && old(own.destroyed) <= own.destroyed
      && forall x <- old(O.Held(own)) :: x in O.Held(own) || x in own.destroyed
    }

    twostate lemma AccountGrew()
      requires old(Valid()) && Grew()
      ensures Settled()
    {
      hide O.Inv;
      O.GrewKeeps(old(own), own);
    }

    method CopyFrom(from: EventProto)
      requires Valid() && from.Valid() && from.S == S && (from != this ==> O.Held(own) !! O.Held(from.own))
      modifies this, what, sourceMetadata
      ensures Valid() && View() == if from == this then old(View()) else Copy(S, Event, old(from.View()))
      ensures Settled()
    {
      hide Valid, Empty, Merge, View, O.Held, O.Run, O.Grew, O.Inv;
      if from == this {
        O.GrewNot(own);
        return;
      }
      Clear();
      ghost var between := own;
      MergeFrom(from);
      O.GrewOn(old(own), between, own);
      AccountGrew();
    }

    /** The copy constructor: scalars are copied bit by bit, submessages are new. */
    constructor Clone(from: EventProto)
      requires from.Valid()
      ensures Valid() && S == from.S && View() == Cloned(S, from.View())
      ensures Serialize(S, Event, View()) == Serialize(S, Event, from.View())
      ensures (what != null ==> fresh(what)) && (sourceMetadata != null ==> fresh(sourceMetadata))
    {
      S, unknown, wallTime, step := from.S, from.unknown, from.wallTime, from.step;
      oneofCase, str, what, sourceMetadata := O.WhatNotSet, [], null, null;
      own := O.Initial();
      new;
      hide Valid, Accounted, Describes, Wf, View, EVENT_FIELDS, SetSlot, NoMember, Cloned, Serialize;
      Bare(from);
      CloneMessages(from);
      from.IsDescribed();
      ClonePrintsTheSame(S, from.View());
    }

    /** New objects for the submessages. */
    method CloneMessages(from: EventProto)
      requires from != this && Valid() && from.Valid() && from.S == S && what == null && sourceMetadata == null
      requires View() == SetSlot(NoMember(from.View()), 9, [])
      modifies this`oneofCase, this`str, this`what, this`sourceMetadata, this`own
      ensures Valid() && from.Valid() && from.View() == old(from.View()) && View() == Cloned(S, from.View())
      ensures (what != null ==> fresh(what)) && (sourceMetadata != null ==> fresh(sourceMetadata))
    {
      hide Valid, Describes, Wf, View, EVENT_FIELDS, SetSlot, NoMember, Cloned, MemberMerged;
      ghost var m := from.View();
      CloneSource(m, from);
      MergeWhat(from);
      from.CaseIsSet();
      CloneSteps(S, m, from.oneofCase);
    }

    lemma Bare(from: EventProto)
      requires from.Valid() && S == from.S && unknown == from.unknown && wallTime == from.wallTime && step == from.step
      requires oneofCase == O.WhatNotSet && what == null && sourceMetadata == null && own == O.Initial()
      ensures Valid() && View() == SetSlot(NoMember(from.View()), 9, [])
    {
      hide Wf, Describes, View, EVENT_FIELDS;
      NoMemberFits(S, from.View());
      SourceFits(S, NoMember(from.View()), []);
      assert View().slots == SetSlot(NoMember(from.View()), 9, []).slots;
    }

    /** A new object for the source metadata, if there is any. */
    method CloneSource(ghost m: Msg, from: EventProto)
      requires from != this && Valid() && from.Valid() && from.S == S && m == from.View() && sourceMetadata == null
      requires View() == SetSlot(NoMember(m), 9, [])
      modifies this`sourceMetadata, this`own
      ensures Valid() && View() == NoMember(m) && what == old(what) && from.Valid() && from.View() == m
      ensures sourceMetadata != null ==> fresh(sourceMetadata)
    {
      hide Wf, Describes, O.Inv, O.Step, View, EVENT_FIELDS, Empty;
      NoMemberFits(S, m);
      assert SetSlot(SetSlot(NoMember(m), 9, []), 9, from.SourceAt()) == NoMember(m) by {
        assert SetSlot(SetSlot(NoMember(m), 9, []), 9, from.SourceAt()).slots == NoMember(m).slots;
      }
      if from.sourceMetadata != null {
        var p := MutableSourceMetadata();
        p.content := from.sourceMetadata.content;
        ViewWithSource(SetSlot(NoMember(m), 9, []));
      }
    }

    lemma IsDescribed()
      requires Valid()
      ensures Describes(S) && Wf(S, Event, View())
    {
    }

    lemma CaseIsSet()
      requires Valid()
      ensures CaseOf(View(), oneofCase)
    {
    }

    lemma HeldApart(from: EventProto)
      requires Valid() && from.Valid() && O.Held(own) !! O.Held(from.own)
      ensures what != null ==> what != from.what && what != from.sourceMetadata
      ensures sourceMetadata != null ==> sourceMetadata != from.what && sourceMetadata != from.sourceMetadata
    {
      if what != null { assert what in O.Held(own); }
      if sourceMetadata != null { assert sourceMetadata in O.Held(own); }
    }

    method MergeUnknown(from: EventProto)
      requires from != this && Valid() && from.Valid() && from.S == S
      modifies this`unknown
      ensures Valid() && View() == UnknownMerged(old(View()), from.View()) && from.View() == old(from.View())
    {
      hide Describes, O.Inv, View;
      UnknownFits(S, View(), from.View());
      ghost var m := View();
      unknown := unknown + from.unknown;
      ViewWithUnknown(m);
    }

    lemma ViewWithUnknown(m: Msg)
      requires |m.slots| == 10 && m.slots[0].vs == [Num(wallTime)] && m.slots[1].vs == [Num(step)]
      requires m.slots[9].vs == SourceAt()
      requires forall k: nat :: IsMember(k) ==> m.slots[k].vs == WhatAt(k)
      ensures View() == m.(unknown := unknown)
    {
      assert View().slots == m.slots;
    }

    /** Source metadata is there if the pointer is not null. */
    method MergeSource(from: EventProto)
      requires from != this && Valid() && from.Valid() && from.S == S
      requires sourceMetadata != null ==> sourceMetadata != from.what && sourceMetadata != from.sourceMetadata
      modifies this`sourceMetadata, this`own, sourceMetadata
      ensures Valid() && from.Valid() && from.View() == old(from.View())
      ensures View() == SourceMerged(S, old(View()), from.View())
      ensures what == old(what) && Grew()
      ensures what != null ==> what.content == old(if what != null then what.content else Msg([], []))
    {
      hide Wf, Describes, O.Inv, O.Step, O.Grew, View, Merge, EVENT_FIELDS, Empty, SourceMerged;
      EventFieldFacts();
      O.GrewNot(own);
      ghost var m := View();
      SourceMergedIs(S, m, from.View());
      if from.sourceMetadata != null {
        var p := MutableSourceMetadata();
        MergedSourceFits(S, m, p.content, from.View());
        assert p.content == Base(S, SourceMetadata, old(SourceAt()));
        p.content := Merge(S, SourceMetadata, p.content, from.sourceMetadata.content);
        ViewWithSource(m);
      }
    }

    method MergeScalars(from: EventProto)
      requires from != this && Valid() && from.Valid() && from.S == S
      modifies this`wallTime, this`step
      ensures Valid() && from.View() == old(from.View())
      ensures View() == ScalarsMerged(S, old(View()), from.View())
    {
      hide Wf, Describes, O.Inv, View, EVENT_FIELDS, ScalarsMerged, H.NonZero;
      ghost var m := View();
      ScalarsMergedIs(S, m, from.View(), wallTime, from.wallTime, step, from.step);
      if H.NonZero(from.wallTime) { wallTime := from.wallTime; }
      if from.step != 0 { step := from.step; }
      ScalarsFit(S, m, wallTime, step);
      ViewWithScalars(m);
    }

    lemma ViewWithScalars(m: Msg)
      requires |m.slots| == 10 && m.unknown == unknown && m.slots[9].vs == SourceAt()
      requires forall k: nat :: IsMember(k) ==> m.slots[k].vs == WhatAt(k)
      ensures View() == SetSlot(SetSlot(m, 0, [Num(wallTime)]), 1, [Num(step)])
    {
      assert View().slots == SetSlot(SetSlot(m, 0, [Num(wallTime)]), 1, [Num(step)]).slots;
    }

    /** The switch over the other message's case. */
    method MergeWhat(from: EventProto)
      requires from != this && Valid() && from.Valid() && from.S == S
      requires what != null ==> what != from.what && what != from.sourceMetadata
      modifies this`oneofCase, this`str, this`what, this`own, what
      ensures Valid() && from.Valid() && from.View() == old(from.View())
      ensures View() == MemberMerged(S, old(View()), from.View(), from.oneofCase)
      ensures Grew() && (what == null || what == old(what) || fresh(what))
    {
      hide Valid, Accounted, View, Merge, WithMember, MemberMerged, SourceAt, O.Grew, O.Step;
      O.GrewNot(own);
      IsDescribed();
      from.CaseIsSet();
      if O.IsString(from.oneofCase) { MemberMergedIs(S, View(), from.View(), from.oneofCase); }
      NotSetMerged(S, View(), from.View());
      match from.oneofCase {
        case FileVersion => SetString(O.FileVersion, from.str);
        case GraphDef => SetString(O.GraphDef, from.str);
        case SummaryCase => MergeMember(O.SummaryCase, from);
        case LogMessageCase => MergeMember(O.LogMessageCase, from);
        case SessionLogCase => MergeMember(O.SessionLogCase, from);
        case TaggedRunMetadataCase => MergeMember(O.TaggedRunMetadataCase, from);
        case MetaGraphDef => SetString(O.MetaGraphDef, from.str);
        case WhatNotSet =>
      }
    }

    /** Makes `c` the case; the submessage is the one that was there, or new. */
    method PrepareMember(ghost m: Msg, c: O.WhatCase) returns (p: SubMessage)
      requires Valid() && O.Member(c).Some? && m == View()
      modifies this`oneofCase, this`what, this`own
      ensures Valid() && oneofCase == c && what == p && SameOthers(m)
      ensures p.content == Base(S, O.TypeOf(c), At(m, IndexOf(c)))
      ensures Grew() && (p == old(what) || fresh(p))
    {
      hide Valid, WfSchema, O.Step, O.Grew, View, WithMember, Empty, SourceAt, WhatAt, Base;
      BaseIsThere(c);
      p := MutableWhat(c);
    }

    lemma BaseIsThere(c: O.WhatCase)
      requires Valid() && O.Member(c).Some?
      ensures Base(S, O.TypeOf(c), At(View(), IndexOf(c))) ==
              if oneofCase == c && what != null then what.content else Empty(S, O.TypeOf(c))
      ensures oneofCase == c ==> what != null
    {
      hide Valid, Accounted, View, Empty;
      LiveIsThere();
      assert At(View(), IndexOf(c)) == WhatAt(IndexOf(c));
    }

    method MergeMember(c: O.WhatCase, from: EventProto)
      requires from != this && Valid() && from.Valid() && from.S == S && O.Member(c).Some? && from.oneofCase == c
      requires what != null ==> what != from.what && what != from.sourceMetadata
      modifies this`oneofCase, this`what, this`own, what
      ensures Valid() && from.Valid() && from.View() == old(from.View())
      ensures View() == MemberMerged(S, old(View()), from.View(), c)
      ensures Grew() && (what == null || what == old(what) || fresh(what))
    {
      hide Valid, Accounted, WfSchema, View, Merge, WithMember, EVENT_FIELDS, Empty, MemberMerged, SourceAt,
           SameOthers, Base, O.Grew, Wf, FieldsOf;
      IsDescribed();
      from.IsDescribed();
      from.LiveIsThere();
      ghost var m := View();
      MemberMergedIs(S, m, from.View(), c);
      MergedMemberFits(S, m, c, from.View());
      var p := PrepareMember(m, c);
      SetContent(m, c, Merge(S, O.TypeOf(c), p.content, from.what.content));
    }

    // ------------------------------------------------------------------- parsing

    /** The dispatch loop. */
    method InternalParse(input: bytes) returns (ok: bool)
      requires Valid()
      modifies this, what, sourceMetadata
      ensures Valid()
      ensures ok <==> ParseInto(S, Event, old(View()), input).Some?
      ensures ok ==> Some(View()) == ParseInto(S, Event, old(View()), input)
      ensures Settled()
    {
      hide Valid, Accounted, WfSchema, View, Wf, O.Grew, O.Inv;
      IsDescribed();
      O.GrewNot(own);
      var rest := input;
      ok := true;
      while ok && rest != []
        invariant Valid() && Grew()
        invariant what == null || what == old(what) || fresh(what)
        invariant sourceMetadata == null || sourceMetadata == old(sourceMetadata) || fresh(sourceMetadata)
        invariant if ok then ParseInto(S, Event, View(), rest) == ParseInto(S, Event, old(View()), input)
                  else ParseInto(S, Event, old(View()), input).None?
        decreases ok, |rest|
      {
        match ReadTag(rest) {
          case Fail =>
            ReadFailureFails(S, Event, View(), rest);
            ok := false;
          case Ok(tag, b1) =>
            ghost var between := own;
            ok, rest := ParseField(rest, tag, b1);
            O.GrewOn(old(own), between, own);
        }
      }
      AccountGrew();
    }

    /** The case of field k + 1, after comparing the low byte of the tag. */
    lemma AtCase(k: nat, wireType: nat, tag: nat, b: bytes, b1: bytes)
      requires Valid() && k < 10 && wireType < 8 && b != [] && ReadTag(b) == Ok(tag, b1)
      requires tag / 8 == k + 1 && tag % 256 == Tag(k + 1, wireType) % 256
      ensures AtWfField(S, Event, View(), k, EVENT_FIELDS[k], wireType, b, b1)
    {
      hide EVENT_FIELDS, WfSchema, Wf, View, Accounted, Tag;
      LowByteTestIsExact(tag, k + 1, wireType);
      EventFieldFacts();
    }

    /** One turn of the dispatch loop. */
    method ParseField(ghost b: bytes, tag: nat, b1: bytes) returns (ok: bool, rest: bytes)
      requires Valid() && b != [] && ReadTag(b) == Ok(tag, b1)
      modifies this, what, sourceMetadata
      ensures Valid() && Handled(S, Event, ok, old(View()), b, View(), rest) && Grew()
      ensures what == null || what == old(what) || fresh(what)
      ensures sourceMetadata == null || sourceMetadata == old(sourceMetadata) || fresh(sourceMetadata)
    {
      hide Valid, Accounted, View, Handled, ReadTag, AtWfField, EVENT_FIELDS, FieldsOf, Takes, Find, O.Grew;
      O.GrewNot(own);
      var taken := false;
      if 5 <= tag / 8 <= 8 {
        ok, taken, rest := ParseMembers(b, tag, b1);
      } else if tag / 8 in {3, 4, 9} {
        ok, taken, rest := ParseStrings(b, tag, b1);
      } else {
        ok, taken, rest := ParseOther(b, tag, b1);
      }
      if !taken {
        ok, rest := ParseUnknown(b, tag, b1);
      }
    }

    /** The cases of fields 5 to 8. */
    method ParseMembers(ghost b: bytes, tag: nat, b1: bytes) returns (ok: bool, taken: bool, rest: bytes)
      requires Valid() && b != [] && ReadTag(b) == Ok(tag, b1) && 5 <= tag / 8 <= 8
      modifies this, what
      ensures taken ==> Valid() && Handled(S, Event, ok, old(View()), b, View(), rest) && Grew()
      ensures !taken ==> Valid() && own == old(own) && View() == old(View()) && !Takes(EVENT_FIELDS[tag / 8 - 1], tag % 8)
      ensures what == null || what == old(what) || fresh(what)
      ensures sourceMetadata == old(sourceMetadata)
    {
      hide Valid, Accounted, View, Handled, ReadTag, AtWfField, EVENT_FIELDS, O.Grew;
      EventFieldFacts();
      ok, taken, rest := false, false, b1;
      match tag / 8 {
        case 5 =>
          if tag % 256 == 42 {
            AtCase(4, 2, tag, b, b1);
            ok, rest := ParseMember(O.SummaryCase, b, b1);
            taken := true;
          }
        case 6 =>
          if tag % 256 == 50 {
            AtCase(5, 2, tag, b, b1);
            ok, rest := ParseMember(O.LogMessageCase, b, b1);
            taken := true;
          }
        case 7 =>
          if tag % 256 == 58 {
            AtCase(6, 2, tag, b, b1);
            ok, rest := ParseMember(O.SessionLogCase, b, b1);
            taken := true;
          }
        case 8 =>
          if tag % 256 == 66 {
            AtCase(7, 2, tag, b, b1);
            ok, rest := ParseMember(O.TaggedRunMetadataCase, b, b1);
            taken := true;
          }
      }
    }

    /** The cases of fields 3, 4 and 9. */
    method ParseStrings(ghost b: bytes, tag: nat, b1: bytes) returns (ok: bool, taken: bool, rest: bytes)
      requires Valid() && b != [] && ReadTag(b) == Ok(tag, b1) && tag / 8 in {3, 4, 9}
      modifies this`oneofCase, this`str, this`what, this`own
      ensures taken ==> Valid() && Handled(S, Event, ok, old(View()), b, View(), rest) && Grew()
      ensures !taken ==> Valid() && own == old(own) && View() == old(View()) && !Takes(EVENT_FIELDS[tag / 8 - 1], tag % 8)
      ensures what == null || what == old(what)
    {
      hide Valid, Accounted, View, Handled, ReadTag, AtWfField, EVENT_FIELDS, O.Grew;
      EventFieldFacts();
      ok, taken, rest := false, false, b1;
      match tag / 8 {
        case 3 =>
          if tag % 256 == 26 {
            AtCase(2, 2, tag, b, b1);
            ok, rest := ParseString(O.FileVersion, b, b1);
            taken := true;
          }
        case 4 =>
          if tag % 256 == 34 {
            AtCase(3, 2, tag, b, b1);
            ok, rest := ParseString(O.GraphDef, b, b1);
            taken := true;
          }
        case 9 =>
          if tag % 256 == 74 {
            AtCase(8, 2, tag, b, b1);
            ok, rest := ParseString(O.MetaGraphDef, b, b1);
            taken := true;
          }
      }
    }

    method ParseString(c: O.WhatCase, ghost b: bytes, b1: bytes) returns (ok: bool, rest: bytes)
      requires Valid() && O.IsString(c) && AtWfField(S, Event, View(), IndexOf(c), EVENT_FIELDS[IndexOf(c)], 2, b, b1)
      modifies this`oneofCase, this`str, this`what, this`own
      ensures Valid() && Handled(S, Event, ok, old(View()), b, View(), rest) && Grew()
      ensures what == null || what == old(what)
    {
      hide Valid, Accounted, View, StepsTo, Fails, ReadTag, EVENT_FIELDS, WfSchema, Wf, Store, WithMember, IndexOf,
           O.Grew, O.Step;
      FieldIsMember(c);
      StringFieldFacts(c);
      IsDescribed();
      ghost var m := View();
      var d;
      ok, d, rest := ReadStored(S, Event, m, IndexOf(c), EVENT_FIELDS[IndexOf(c)], b, b1);
      StoreMember(m, IndexOf(c), [Data(d)]);
      SetString(c, d);
    }

    /** `ParseMessage(_internal_mutable_x(), ptr)`: the case is switched first, and stays switched even
        if the nested parse fails. */
    method ParseMember(c: O.WhatCase, ghost b: bytes, b1: bytes) returns (ok: bool, rest: bytes)
      requires Valid() && O.Member(c).Some?
      requires AtWfField(S, Event, View(), IndexOf(c), EVENT_FIELDS[IndexOf(c)], 2, b, b1)
      modifies this`oneofCase, this`what, this`own, what
      ensures Valid() && Handled(S, Event, ok, old(View()), b, View(), rest) && Grew()
      ensures what == null || what == old(what) || fresh(what)
    {
      hide Valid, Accounted, View, StepsTo, Fails, ReadTag, EVENT_FIELDS, WfSchema, Wf, Store, WithMember, IndexOf,
           Base, SameOthers, O.Grew;
      FieldIsMember(c);
      MessageFieldFacts(c);
      IsDescribed();
      ghost var m := View();
      var p := PrepareMember(m, c);
      var sub;
      ok, sub, rest := ReadStoredMessage(S, Event, m, IndexOf(c), EVENT_FIELDS[IndexOf(c)], p.content, b, b1);
      StoreMember(m, IndexOf(c), [Sub(sub)]);
      SetContent(m, c, sub);
    }

    /** The cases of fields 1, 2 and 10. */
    method ParseOther(ghost b: bytes, tag: nat, b1: bytes) returns (ok: bool, taken: bool, rest: bytes)
      requires Valid() && b != [] && ReadTag(b) == Ok(tag, b1) && !(3 <= tag / 8 <= 9)
      modifies this`wallTime, this`step, this`sourceMetadata, this`own, sourceMetadata
      ensures taken ==> Valid() && Handled(S, Event, ok, old(View()), b, View(), rest) && Grew()
      ensures !taken ==> Valid() && own == old(own) && View() == old(View())
      ensures !taken && (1 <= tag / 8 <= 2 || tag / 8 == 10) ==> !Takes(EVENT_FIELDS[tag / 8 - 1], tag % 8)
      ensures what == old(what)
      ensures sourceMetadata == null || sourceMetadata == old(sourceMetadata) || fresh(sourceMetadata)
    {
      hide Accounted, View, StepsTo, Fails, ReadTag, EVENT_FIELDS, WfSchema, Wf, O.Grew;
      EventFieldFacts();
      O.GrewNot(own);
      ghost var m := View();
      ok, taken, rest := false, false, b1;
      match tag / 8 {
        case 1 =>
          if tag % 256 == 9 {
            AtCase(0, 1, tag, b, b1);
            var w;
            ok, w, rest := ReadNumber(S, Event, m, 0, EVENT_FIELDS[0], b, b1);
            SetWallTime(m, w);
            taken := true;
          }
        case 2 =>
          if tag % 256 == 16 {
            AtCase(1, 0, tag, b, b1);
            var n;
            ok, n, rest := ReadNumber(S, Event, m, 1, EVENT_FIELDS[1], b, b1);
            SetStep(m, n);
            taken := true;
          }
        case 10 =>
          if tag % 256 == 82 {
            AtCase(9, 2, tag, b, b1);
            ok, rest := ParseSource(b, b1);
            taken := true;
          }
        case _ =>
      }
    }

    method SetWallTime(ghost m: Msg, w: word64)
      requires Valid() && m == View() && Wf(S, Event, SetSlot(m, 0, [Num(w)]))
      modifies this`wallTime
      ensures Valid() && View() == SetSlot(m, 0, [Num(w)])
    {
      hide Wf, Describes, O.Inv, View;
      wallTime := w;
      ViewWithScalars(m);
      assert SetSlot(SetSlot(m, 0, [Num(w)]), 1, [Num(step)]).slots == SetSlot(m, 0, [Num(w)]).slots;
    }

    method SetStep(ghost m: Msg, n: int64)
      requires Valid() && m == View() && Wf(S, Event, SetSlot(m, 1, [Num(n)]))
      modifies this`step
      ensures Valid() && View() == SetSlot(m, 1, [Num(n)])
    {
      hide Wf, Describes, O.Inv, View;
      step := n;
      ViewWithScalars(m);
      assert SetSlot(SetSlot(m, 0, [Num(wallTime)]), 1, [Num(n)]).slots == SetSlot(m, 1, [Num(n)]).slots;
    }

    method ParseSource(ghost b: bytes, b1: bytes) returns (ok: bool, rest: bytes)
      requires Valid() && AtWfField(S, Event, View(), 9, EVENT_FIELDS[9], 2, b, b1)
      modifies this`sourceMetadata, this`own, sourceMetadata
      ensures Valid() && Handled(S, Event, ok, old(View()), b, View(), rest) && Grew()
      ensures sourceMetadata == null || sourceMetadata == old(sourceMetadata) || fresh(sourceMetadata)
    {
      hide Accounted, View, StepsTo, Fails, ReadTag, EVENT_FIELDS, WfSchema, Wf, Empty, O.Step, O.Grew;
      EventFieldFacts();
      ghost var m := View();
      var p := MutableSourceMetadata();
      assert p.content == Base(S, SourceMetadata, At(m, 9));
      var sub;
      ok, sub, rest := ReadSubmessage(S, Event, m, 9, EVENT_FIELDS[9], p.content, b, b1);
      p.content := sub;
      ViewWithSource(m);
    }

    method ParseUnknown(ghost b: bytes, tag: nat, b1: bytes) returns (ok: bool, rest: bytes)
      requires Valid() && b != [] && ReadTag(b) == Ok(tag, b1)
      requires 1 <= tag / 8 <= 10 ==> !Takes(EVENT_FIELDS[tag / 8 - 1], tag % 8)
      modifies this`unknown
      ensures Valid() && Handled(S, Event, ok, old(View()), b, View(), rest)
    {
      hide Accounted, View, StepsTo, Fails, ReadTag, EVENT_FIELDS, WfSchema, Wf, Takes, Find;
      EventFieldFacts();
      ghost var m := View();
      var more;
      ok, more, rest := ReadUnknown(S, Event, m, b, tag, b1);
      unknown := unknown + more;
      ViewWithUnknown(m);
    }

    // -------------------------------------------------------- size and printing

    /** The submessages' cached sizes are up to date. */
    ghost predicate Coherent()
      reads this`what, what, this`sourceMetadata, sourceMetadata
    {
      (what != null ==> what.Sized(S)) && (sourceMetadata != null ==> sourceMetadata.Sized(S))
    }

    ghost function SizeAt(k: nat): nat
      requires k < 10
      reads this`wallTime, this`step, this`oneofCase, this`str, this`what, what, this`sourceMetadata, sourceMetadata,
            this`unknown
    {
      FieldSize(S, EVENT_FIELDS[k], View().slots[k].vs)
    }

    lemma SizesAddUp()
      requires Describes(S)
      ensures |Serialize(S, Event, View())|
           == SizeAt(0) + SizeAt(1) + SizeAt(2) + SizeAt(3) + SizeAt(4) + SizeAt(5) + SizeAt(6) + SizeAt(7) + SizeAt(8)
              + SizeAt(9) + |EncodeAll(unknown)|
    {
      hide Serialize, EncodeAll, FieldSize, View, EVENT_FIELDS, WfSchema, SizesFrom;
      EventFieldFacts();
      SerializedSize(S, Event, View());
      SizesFromStep(S, Event, View(), 0);
      SizesFromStep(S, Event, View(), 1);
      SizesFromStep(S, Event, View(), 2);
      SizesFromStep(S, Event, View(), 3);
      SizesFromStep(S, Event, View(), 4);
      SizesFromStep(S, Event, View(), 5);
      SizesFromStep(S, Event, View(), 6);
      SizesFromStep(S, Event, View(), 7);
      SizesFromStep(S, Event, View(), 8);
      SizesFromStep(S, Event, View(), 9);
      SizesFromEnd(S, Event, View());
    }

    lemma SlotIsTyped(k: nat)
      requires Valid() && k < 10
      ensures Typed(S, EVENT_FIELDS[k].kind, View().slots[k].vs)
    {
      hide EVENT_FIELDS, WfSchema, View, Accounted, WfValue;
      EventFieldFacts();
      assert WfSlot(S, EVENT_FIELDS[k], View().slots[k].vs);
    }

    /** Size of a field that prints one record or none. */
    lemma SingleSize(k: nat)
      requires Valid() && 2 <= k < 10
      ensures View().slots[k].vs == [] ==> SizeAt(k) == 0
      ensures |View().slots[k].vs| == 1 ==> SizeAt(k) == 1 + ValueSize(S, EVENT_FIELDS[k].kind, View().slots[k].vs[0])
    {
      hide ValueSize, View, TagSize, EVENT_FIELDS, EncodeAll, Encode, ValueSizes, Accounted, Wf, WfSchema;
      EventFieldFacts();
      SlotIsTyped(k);
      var f, vs := EVENT_FIELDS[k], View().slots[k].vs;
      FieldSizeIsSum(S, f, vs);
      OneTagByte(f.num, ValueWireType(f.kind));
      NoSizes(S, f.kind);
      if |vs| == 1 {
        assert vs == [vs[0]];
        OneSize(S, f.kind, vs[0]);
      }
    }

    lemma ScalarSizes()
      requires Valid()
      ensures SizeAt(0) == if H.NonZero(wallTime) then 1 + 8 else 0
      ensures SizeAt(1) == if step != 0 then 1 + VarintSize(ToWire(step)) else 0
    {
      hide View, TagSize, EVENT_FIELDS, FieldSize, Accounted, Wf, WfSchema, VarintSize, ToWire, H.NonZero, FieldBytes;
      EventFieldFacts();
      WallTimeSize(S, EVENT_FIELDS[0], wallTime);
      ImplicitNumberSize(S, EVENT_FIELDS[1], step);
      OneTagByte(2, 0);
    }

    lemma SourceSize()
      requires Valid()
      ensures SizeAt(9)
           == if sourceMetadata == null then 0
              else 1 + DelimitedSize(|Serialize(S, SourceMetadata, sourceMetadata.content)|)
    {
      hide View, EVENT_FIELDS, FieldSize, Accounted, Wf, WfSchema, ValueSize, Serialize, DelimitedSize;
      EventFieldFacts();
      SingleSize(9);
      if sourceMetadata != null {
        ContentSize(S, EVENT_FIELDS[9].kind, Sub(sourceMetadata.content));
      }
    }

    /** Size of the string or submessage in the union. */
    ghost function UnionSize(): nat
      reads this`oneofCase, this`str, this`what, what
    {
      if O.IsString(oneofCase) then 1 + DelimitedSize(|str|)
      else if what != null then 1 + DelimitedSize(|Serialize(S, O.TypeOf(oneofCase), what.content)|)
      else 0
    }

    lemma MemberSize(c: O.WhatCase)
      requires Valid() && c != O.WhatNotSet
      ensures SizeAt(IndexOf(c)) == if oneofCase == c then UnionSize() else 0
    {
      hide View, EVENT_FIELDS, FieldSize, Accounted, Wf, WfSchema, ValueSize, Serialize, DelimitedSize;
      EventFieldFacts();
      SingleSize(IndexOf(c));
      LiveIsThere();
      if oneofCase == c {
        if O.IsString(c) {
          ContentSize(S, EVENT_FIELDS[IndexOf(c)].kind, Data(str));
        } else {
          ContentSize(S, EVENT_FIELDS[IndexOf(c)].kind, Sub(what.content));
        }
      }
    }

    /** The members of the oneof together: at most one of them takes room. */
    lemma MemberSizes()
      requires Valid()
      ensures SizeAt(2) + SizeAt(3) + SizeAt(4) + SizeAt(5) + SizeAt(6) + SizeAt(7) + SizeAt(8)
           == if oneofCase == O.WhatNotSet then 0 else UnionSize()
    {
      hide SizeAt, View, Valid, UnionSize;
      MemberSize(O.FileVersion);
      MemberSize(O.GraphDef);
      MemberSize(O.SummaryCase);
      MemberSize(O.LogMessageCase);
      MemberSize(O.SessionLogCase);
      MemberSize(O.TaggedRunMetadataCase);
      MemberSize(O.MetaGraphDef);
    }

    /** Measuring changes neither the message nor who owns what. */
    twostate lemma MeasuringKeeps(p: SubMessage)
      requires old(Valid()) && p.content == old(p.content)
      requires unchanged(this) && (what != null && what != p ==> unchanged(what))
      requires sourceMetadata != null && sourceMetadata != p ==> unchanged(sourceMetadata)
      ensures Valid() && View() == old(View())
    {
      hide Wf, Describes, O.Inv;
    }

    method SizeOfSource() returns (size: nat)
      requires Valid()
      modifies Just(sourceMetadata)`cachedSize
      ensures Valid() && View() == old(View()) && (sourceMetadata != null ==> sourceMetadata.Sized(S))
      ensures size == old(SizeAt(9)) && UnionSize() == old(UnionSize())
    {
      hide SizeAt, View, Valid, Serialize, DelimitedSize;
      SourceSize();
      LiveIsThere();
      size := 0;
      if sourceMetadata != null {
        var n := sourceMetadata.ByteSizeLong(S);
        MeasuringKeeps(sourceMetadata);
        size := 1 + DelimitedSize(n);
      }
    }

    lemma NullOtherwise()
      requires Valid()
      ensures O.Member(oneofCase).None? ==> what == null
    {
    }

    /** The switch over the case. */
    method SizeOfWhat() returns (size: nat)
      requires Valid()
      modifies Just(what)`cachedSize
      ensures Valid() && View() == old(View()) && (what != null ==> what.Sized(S))
      ensures size == if oneofCase == O.WhatNotSet then 0 else old(UnionSize())
    {
      hide View, Valid, Serialize, DelimitedSize;
      NullOtherwise();
      match oneofCase {
        case FileVersion => size := 1 + DelimitedSize(|str|);
        case GraphDef => size := 1 + DelimitedSize(|str|);
        case SummaryCase => size := SizeOfSubmessage();
        case LogMessageCase => size := SizeOfSubmessage();
        case SessionLogCase => size := SizeOfSubmessage();
        case TaggedRunMetadataCase => size := SizeOfSubmessage();
        case MetaGraphDef => size := 1 + DelimitedSize(|str|);
        case WhatNotSet => size := 0;
      }
    }

    method SizeOfSubmessage() returns (size: nat)
      requires Valid() && O.Member(oneofCase).Some?
      modifies Just(what)`cachedSize
      ensures Valid() && View() == old(View()) && what != null && what.Sized(S)
      ensures size == 1 + DelimitedSize(|Serialize(S, O.TypeOf(oneofCase), what.content)|)
      ensures what.content == old(what.content)
    {
      hide View, Valid, Serialize, DelimitedSize;
      LiveIsThere();
      var n := what.ByteSizeLong(S);
      MeasuringKeeps(what);
      size := 1 + DelimitedSize(n);
    }

    /** The source metadata, which is printed last, is measured first. */
    method ByteSizeLong() returns (totalSize: nat)
      requires Valid()
      modifies this`cachedSize, Just(what)`cachedSize, Just(sourceMetadata)`cachedSize
      ensures Valid() && View() == old(View()) && Coherent()
      ensures totalSize == |Serialize(S, Event, View())| && cachedSize == ToCachedSize(totalSize)
    {
      hide SizeAt, View, Valid, UnionSize, Serialize, EncodeAll, ToCachedSize, VarintSize, ToWire, H.NonZero;
      TotalSize();
      LiveIsThere();
      totalSize := SizeOfSource();
      if H.NonZero(wallTime) { totalSize := totalSize + 1 + 8; }
      if step != 0 { totalSize := totalSize + 1 + VarintSize(ToWire(step)); }
      var more := SizeOfWhat();
      totalSize := totalSize + more + |EncodeAll(unknown)|;
      CacheSize(ToCachedSize(totalSize));
    }

    lemma TotalSize()
      requires Valid()
      ensures |Serialize(S, Event, View())|
           == SizeAt(9) + (if H.NonZero(wallTime) then 1 + 8 else 0)
              + (if step != 0 then 1 + VarintSize(ToWire(step)) else 0)
              + (if oneofCase == O.WhatNotSet then 0 else UnionSize()) + |EncodeAll(unknown)|
    {
      hide SizeAt, View, Valid, UnionSize, Serialize, EncodeAll, VarintSize, ToWire, H.NonZero;
      IsDescribed();
      SizesAddUp();
      ScalarSizes();
      MemberSizes();
    }

    /** `SetCachedSize`. */
    method CacheSize(size: int)
      requires Valid()
      modifies this`cachedSize
      ensures Valid() && View() == old(View()) && cachedSize == size
    {
      hide View, Wf, Describes, O.Inv;
      cachedSize := size;
    }

    /** A submessage whose length prefix is its cached size. */
    method PrintPointee(ghost m: Msg, k: nat, p: SubMessage, target: bytes, ghost good: bool) returns (target': bytes)
      requires Describes(S) && 2 <= k < 10 && EVENT_FIELDS[k].kind == Message(p.t)
      requires Wf(S, Event, m) && |m.slots| == 10 && m.slots[k].vs == [Sub(p.content)]
      requires good ==> p.Sized(S) && |Serialize(S, Event, m)| < TWO_TO_31 && PrintedUpto(S, Event, m, k, target)
      ensures good ==> PrintedUpto(S, Event, m, k + 1, target')
    {
      hide PrintedUpto, Serialize, EVENT_FIELDS, WfSchema, FieldBytes, WithPrefix, Encode, EncodeAll;
      EventFieldFacts();
      target' := target + WithPrefix(k + 1, p.cachedSize, Serialize(S, p.t, p.content));
      if good {
        PointeeIsSmall(m, k);
        PrintMessage(S, EVENT_FIELDS[k], m.slots[k].vs, 0, p.cachedSize);
        NothingIsPrinted(S, EVENT_FIELDS[k]);
        assert m.slots[k].vs[..0] == [] && m.slots[k].vs[..1] == m.slots[k].vs;
        assert target' == target + FieldBytes(S, EVENT_FIELDS[k], m.slots[k].vs);
        PrintStep(S, Event, m, k, target, FieldBytes(S, EVENT_FIELDS[k], m.slots[k].vs));
      }
    }

    lemma PointeeIsSmall(m: Msg, k: nat)
      requires Describes(S) && Wf(S, Event, m) && |m.slots| == 10 && 2 <= k < 10 && EVENT_FIELDS[k].kind.Message?
      requires |m.slots[k].vs| == 1 && m.slots[k].vs[0].Sub?
      ensures |Serialize(S, EVENT_FIELDS[k].kind.target, m.slots[k].vs[0].m)| < |Serialize(S, Event, m)|
    {
      hide Serialize, EVENT_FIELDS, WfSchema, WfValue;
      EventFieldFacts();
      assert WfSlot(S, EVENT_FIELDS[k], m.slots[k].vs);
      SubmessageIsShorter(S, Event, m, k, 0);
    }

    /** A string with a prefix of its own. */
    method PrintText(ghost m: Msg, k: nat, d: bytes, target: bytes, ghost good: bool) returns (target': bytes)
      requires Describes(S) && 2 <= k < 9 && (EVENT_FIELDS[k].kind.Text? || EVENT_FIELDS[k].kind.Blob?)
      requires |m.slots| == 10 && m.slots[k].vs == [Data(d)] && (good ==> PrintedUpto(S, Event, m, k, target))
      ensures good ==> PrintedUpto(S, Event, m, k + 1, target')
    {
      hide PrintedUpto, EVENT_FIELDS, WfSchema, FieldBytes, Encode;
      EventFieldFacts();
      target' := target + Encode(Record(k + 1, Delimited(d)));
      SingleBytes(S, EVENT_FIELDS[k], Data(d));
      if good { PrintStep(S, Event, m, k, target, FieldBytes(S, EVENT_FIELDS[k], [Data(d)])); }
    }

    /** An empty field prints nothing. */
    lemma SkipField(m: Msg, k: nat, target: bytes)
      requires Describes(S) && k < 10 && |m.slots| == 10 && m.slots[k].vs == [] && PrintedUpto(S, Event, m, k, target)
      ensures PrintedUpto(S, Event, m, k + 1, target)
    {
      hide PrintedUpto, EVENT_FIELDS, WfSchema, EncodeAll, FieldBytes;
      EventFieldFacts();
      NothingIsPrinted(S, EVENT_FIELDS[k]);
      PrintStep(S, Event, m, k, target, []);
      assert target + [] == target;
    }

    /** Caches that are right, for messages that are not too long. */
    ghost predicate Good(m: Msg)
      reads this`what, what, this`sourceMetadata, sourceMetadata
    {
      Coherent() && |Serialize(S, Event, m)| < TWO_TO_31
    }

    /** A member of the oneof, if it is the live one. */
    method PrintMember(ghost m: Msg, c: O.WhatCase, target: bytes, ghost good: bool) returns (target': bytes)
      requires Valid() && m == View() && c != O.WhatNotSet
      requires good ==> Good(m) && PrintedUpto(S, Event, m, IndexOf(c), target)
      ensures good ==> PrintedUpto(S, Event, m, IndexOf(c) + 1, target')
    {
      hide PrintedUpto, Serialize, EVENT_FIELDS, Valid, WfSchema, Wf, View, FieldsOf, SourceAt;
      IsDescribed();
      LiveIsThere();
      target' := target;
      if oneofCase != c {
        if good { SkipField(m, IndexOf(c), target); }
      } else if O.IsString(c) {
        StringFieldFacts(c);
        target' := PrintText(m, IndexOf(c), str, target, good);
      } else {
        MessageFieldFacts(c);
        target' := PrintPointee(m, IndexOf(c), what, target, good);
      }
    }

    /** The printer goes by field number and takes the prefixes of submessages from their cached sizes. */
    method InternalSerialize() returns (target: bytes)
      requires Valid()
      ensures Coherent() && |Serialize(S, Event, View())| < TWO_TO_31 ==> target == Serialize(S, Event, View())
    {
      hide PrintedUpto, Serialize, Valid, Describes, Wf, EncodeAll, View, Coherent;
      IsDescribed();
      FieldCount();
      ghost var m := View();
      ghost var good := Good(m);
      PrintStart(S, Event, m);
      target := PrintScalars(m, [], good);
      target := PrintMembers(m, target, good);
      target := PrintSource(m, target, good);
      if good { PrintEnd(S, Event, m, target); }
      target := target + EncodeAll(unknown);
    }

    lemma FieldCount()
      requires Describes(S)
      ensures |FieldsOf(S, Event)| == 10
    {
    }

    /** Fields 1 and 2. */
    method PrintScalars(ghost m: Msg, start: bytes, ghost good: bool) returns (target: bytes)
      requires Valid() && m == View() && (good ==> PrintedUpto(S, Event, m, 0, start))
      ensures good ==> PrintedUpto(S, Event, m, 2, target)
    {
      hide PrintedUpto, Serialize, EVENT_FIELDS, Valid, WfSchema, Wf, EncodeAll, Encode, View, H.NonZero, FieldBytes;
      IsDescribed();
      EventFieldFacts();
      H.DoubleBytes(S, EVENT_FIELDS[0], wallTime);
      target := start;
      if H.NonZero(wallTime) { target := target + Encode(Record(1, Word64(wallTime))); }
      if good {
        assert target == start + FieldBytes(S, EVENT_FIELDS[0], [Num(wallTime)]);
        PrintStep(S, Event, m, 0, start, FieldBytes(S, EVENT_FIELDS[0], [Num(wallTime)]));
      }
      target := PrintNumber(S, Event, m, 1, EVENT_FIELDS[1], step, target, good);
    }

    /** Fields 3 to 9. */
    method PrintMembers(ghost m: Msg, start: bytes, ghost good: bool) returns (target: bytes)
      requires Valid() && m == View() && (good ==> Good(m) && PrintedUpto(S, Event, m, 2, start))
      ensures good ==> PrintedUpto(S, Event, m, 9, target)
    {
      hide PrintedUpto, Serialize, Valid, View, Good;
      target := PrintMember(m, O.FileVersion, start, good);
      target := PrintMember(m, O.GraphDef, target, good);
      target := PrintMember(m, O.SummaryCase, target, good);
      target := PrintMember(m, O.LogMessageCase, target, good);
      target := PrintMember(m, O.SessionLogCase, target, good);
      target := PrintMember(m, O.TaggedRunMetadataCase, target, good);
      target := PrintMember(m, O.MetaGraphDef, target, good);
    }

    /** Field 10. */
    method PrintSource(ghost m: Msg, target: bytes, ghost good: bool) returns (target': bytes)
      requires Valid() && m == View() && (good ==> Good(m) && PrintedUpto(S, Event, m, 9, target))
      ensures good ==> PrintedUpto(S, Event, m, 10, target')
    {
      hide PrintedUpto, Serialize, EVENT_FIELDS, Valid, WfSchema, Wf, View;
      IsDescribed();
      EventFieldFacts();
      LiveIsThere();
      target' := target;
      if sourceMetadata != null {
        target' := PrintPointee(m, 9, sourceMetadata, target, good);
      } else if good {
        SkipField(m, 9, target);
      }
    }
  }
}
