/** Who owns the submessages of a heap-allocated Event (event.pb.h and event.pb.cc), over whole runs
    of calls by a program that passes in only objects it owns. */
module Ownership {
  import opened Wire
  import opened Schemas

  /** `what_case()`. */
  datatype WhatCase =
    | WhatNotSet | FileVersion | GraphDef | SummaryCase | LogMessageCase | SessionLogCase | TaggedRunMetadataCase
    | MetaGraphDef

  /** The message a case holds a pointer to; the other cases hold a string or nothing. */
  function Member(c: WhatCase): Option<MessageType> {
    match c
    case SummaryCase => Some(Summary)
    case LogMessageCase => Some(LogMessage)
    case SessionLogCase => Some(SessionLog)
    case TaggedRunMetadataCase => Some(TaggedRunMetadata)
    case _ => None
  }

  function TypeOf(c: WhatCase): MessageType {
    match Member(c) case Some(t) => t case None => SourceMetadata
  }

  predicate IsString(c: WhatCase) {
    c == FileVersion || c == GraphDef || c == MetaGraphDef
  }

  /** The union keeps its bits when the case is cleared, so `what` may be stale; `caller` are the
      objects the program owns, `destroyed` those deleted so far, `types` all that ever were, and
      `log` the operations so far. */
  datatype State<T(==)> = State(
    what_case: WhatCase, what: Option<T>, source: Option<T>,
    caller: set<T>, destroyed: seq<T>, types: map<T, MessageType>, log: seq<Op<T>>)

  datatype Op<T(==)> =
    | New(t: MessageType, x: T)                     // the program creates an object
    | Delete(x: T)                                  // the program deletes one of its own
    | SetAllocated(c: WhatCase, p: Option<T>)       // also unsafe_arena_set_allocated_*
    | Release(c: WhatCase)                          // also unsafe_arena_release_*
    | Mutable(c: WhatCase, x: T)                    // `x` is the one that is there, or a new one
    | SetString(c: WhatCase)
    | ClearMember(c: WhatCase)
    | ClearWhat
    | SetAllocatedSource(p: Option<T>)
    | ReleaseSource
    | MutableSource(x: T)
    | ClearSource
    | Destructor

  ghost function Initial<T>(): State<T> {
    State(WhatNotSet, None, None, {}, [], map[], [])
  }

  // ------------------------------------------------------------ the operations

  /** The live union member, if the case is that of a message. */
  ghost function Live<T>(s: State<T>): Option<T> {
    if Member(s.what_case).Some? then s.what else None
  }

  ghost function Bury<T>(s: State<T>, p: Option<T>): State<T> {
    if p.Some? then s.(destroyed := s.destroyed + [p.value]) else s
  }

  ghost function Take<T>(s: State<T>, p: Option<T>): State<T> {
    if p.Some? then s.(caller := s.caller - {p.value}) else s
  }

  ghost function Give<T>(s: State<T>, p: Option<T>): State<T> {
    if p.Some? then s.(caller := s.caller + {p.value}) else s
  }

  ghost function DoClearWhat<T>(s: State<T>): State<T> {
    Bury(s, Live(s)).(what_case := WhatNotSet)
  }

  ghost function DoClearSource<T>(s: State<T>): State<T> {
    Bury(s, s.source).(source := None)
  }

  ghost function Step<T>(s: State<T>, op: Op<T>): State<T> {
    Effect(s, op).(log := s.log + [op])
  }

  ghost function Effect<T>(s: State<T>, op: Op<T>): State<T> {
    match op
    case New(t, x) => s.(caller := s.caller + {x}, types := s.types[x := t])
    case Delete(x) => Bury(Take(s, Some(x)), Some(x))
    case SetAllocated(c, p) =>
      var cleared := DoClearWhat(s);
      if p.Some? then Take(cleared, p).(what_case := c, what := p) else cleared
    case Release(c) =>
      if s.what_case == c then Give(s, s.what).(what_case := WhatNotSet, what := None) else s
    case Mutable(c, x) =>
      if s.what_case == c then s
      else DoClearWhat(s).(what_case := c, what := Some(x), types := s.types[x := TypeOf(c)])
    case SetString(c) => if s.what_case == c then s else DoClearWhat(s).(what_case := c)
    case ClearMember(c) => if s.what_case == c then DoClearWhat(s) else s
    case ClearWhat => DoClearWhat(s)
    case SetAllocatedSource(p) => Take(Bury(s, s.source), p).(source := p)
    case ReleaseSource => Give(s, s.source).(source := None)
    case MutableSource(x) =>
      if s.source.Some? then s else s.(source := Some(x), types := s.types[x := SourceMetadata])
    case ClearSource => DoClearSource(s)
    case Destructor => var t := DoClearSource(s); if t.what_case == WhatNotSet then t else DoClearWhat(t)
  }

  // ------------------------------------------------------------- the invariant

  ghost function Held<T>(s: State<T>): set<T> {
    (if Live(s).Some? then {Live(s).value} else {}) + (if s.source.Some? then {s.source.value} else {})
  }

  /** The case matches the live union member. */
  ghost predicate Tagged<T>(s: State<T>) {
    && (Member(s.what_case).Some? ==>
          s.what.Some? && s.what.value in s.types && s.types[s.what.value] == TypeOf(s.what_case))
    && (s.source.Some? ==> s.source.value in s.types && s.types[s.source.value] == SourceMetadata)
  }

  ghost predicate NoDuplicates<T>(xs: seq<T>) {
    forall i, j :: 0 <= i < j < |xs| ==> xs[i] != xs[j]
  }

  ghost function Elements<T>(xs: seq<T>): set<T> {
    set x | x in xs
  }

  /** Every object is in exactly one of three places, and was destroyed at most once. */
  ghost predicate Inv<T>(s: State<T>) {
    && Tagged(s) && NoDuplicates(s.destroyed)
    && Held(s) !! s.caller && Held(s) !! Elements(s.destroyed) && s.caller !! Elements(s.destroyed)
    && s.types.Keys == Held(s) + s.caller + Elements(s.destroyed)
  }

  /** The program passes in only objects it owns, of the right type, and new ones are new. */
  ghost predicate Permitted<T>(s: State<T>, op: Op<T>) {
    match op
    case New(_, x) => x !in s.types
    case Delete(x) => x in s.caller
    case SetAllocated(c, p) => Member(c).Some? && (p.Some? ==> p.value in s.caller && Typed(s, p.value, TypeOf(c)))
    case Release(c) => Member(c).Some?
    case Mutable(c, x) => Member(c).Some? && (s.what_case == c || x !in s.types)
    case SetString(c) => IsString(c)
    case SetAllocatedSource(p) => p.Some? ==> p.value in s.caller && Typed(s, p.value, SourceMetadata)
    case MutableSource(x) => s.source.Some? || x !in s.types
    case _ => true
  }

  ghost predicate Typed<T>(s: State<T>, x: T, t: MessageType) {
    x in s.types && s.types[x] == t
  }

  lemma BuryKeeps<T>(s: State<T>, x: T)
    requires NoDuplicates(s.destroyed) && x !in Elements(s.destroyed)
    ensures NoDuplicates(Bury(s, Some(x)).destroyed)
    ensures Elements(Bury(s, Some(x)).destroyed) == Elements(s.destroyed) + {x}
  {
  }

  lemma ClearWhatKeepsInv<T>(s: State<T>)
    requires Inv(s)
    ensures Inv(DoClearWhat(s)) && DoClearWhat(s).what_case == WhatNotSet
    ensures DoClearWhat(s).caller == s.caller && DoClearWhat(s).types == s.types && DoClearWhat(s).source == s.source
  {
    if Live(s).Some? {
      BuryKeeps(s, Live(s).value);
      assert Live(s).value in Held(s);
    }
  }

  lemma ClearSourceKeepsInv<T>(s: State<T>)
    requires Inv(s)
    ensures Inv(DoClearSource(s)) && DoClearSource(s).source == None
    ensures DoClearSource(s).caller == s.caller && DoClearSource(s).types == s.types
    ensures DoClearSource(s).what_case == s.what_case && DoClearSource(s).what == s.what
  {
    if s.source.Some? {
      BuryKeeps(s, s.source.value);
      assert s.source.value in Held(s);
    }
  }

  lemma SetAllocatedKeepsInv<T>(s: State<T>, c: WhatCase, p: Option<T>)
    requires Inv(s) && Permitted(s, SetAllocated(c, p))
    ensures Inv(Step(s, SetAllocated(c, p)))
  {
    hide DoClearWhat;
    ClearWhatKeepsInv(s);
  }

  lemma ReleaseKeepsInv<T>(s: State<T>, c: WhatCase)
    requires Inv(s) && Member(c).Some?
    ensures Inv(Step(s, Release(c)))
  {
  }

  lemma MutableKeepsInv<T>(s: State<T>, c: WhatCase, x: T)
    requires Inv(s) && Permitted(s, Mutable(c, x))
    ensures Inv(Step(s, Mutable(c, x)))
  {
    hide DoClearWhat;
    ClearWhatKeepsInv(s);
  }

  lemma SourceKeepsInv<T>(s: State<T>, op: Op<T>)
    requires Inv(s) && Permitted(s, op) && (op.SetAllocatedSource? || op.ReleaseSource? || op.MutableSource?)
    ensures Inv(Step(s, op))
  {
    ClearSourceKeepsInv(s);
  }

  lemma ProgramKeepsInv<T>(s: State<T>, op: Op<T>)
    requires Inv(s) && Permitted(s, op) && (op.New? || op.Delete?)
    ensures Inv(Step(s, op))
  {
    if op.Delete? { BuryKeeps(s, op.x); }
  }

  /** Every permitted call keeps the invariant. */
  lemma StepKeepsInv<T>(s: State<T>, op: Op<T>)
    requires Inv(s) && Permitted(s, op)
    ensures Inv(Step(s, op))
  {
    hide Inv, Permitted;
    match op
    case New(_, _) => ProgramKeepsInv(s, op);
    case Delete(_) => ProgramKeepsInv(s, op);
    case SetAllocated(c, p) => SetAllocatedKeepsInv(s, c, p);
    case Release(c) => ReleasePermitted(s, c); ReleaseKeepsInv(s, c);
    case Mutable(c, x) => MutableKeepsInv(s, c, x);
    case SetString(c) => SetStringKeepsInv(s, c);
    case ClearMember(c) => ClearWhatKeepsInv(s); LogIsApart(Effect(s, op), s.log + [op]);
    case ClearWhat => ClearWhatKeepsInv(s); LogIsApart(Effect(s, op), s.log + [op]);
    case SetAllocatedSource(_) => SourceKeepsInv(s, op);
    case ReleaseSource => SourceKeepsInv(s, op);
    case MutableSource(_) => SourceKeepsInv(s, op);
    case ClearSource => ClearSourceKeepsInv(s); LogIsApart(Effect(s, op), s.log + [op]);
    case Destructor =>
      ClearSourceKeepsInv(s);
      ClearWhatKeepsInv(DoClearSource(s));
      LogIsApart(Effect(s, op), s.log + [op]);
  }

  // ------------------------------------------------ what becomes of the objects

  function Listed<T>(p: Option<T>): seq<T> {
    if p.Some? then [p.value] else []
  }

  function Only<T(==)>(p: Option<T>): set<T> {
    if p.Some? then {p.value} else {}
  }

  /** The program gives up what it deletes or passes in, ... */
  ghost function Taken<T>(op: Op<T>): set<T> {
    match op
    case Delete(x) => {x}
    case SetAllocated(_, p) => Only(p)
    case SetAllocatedSource(p) => Only(p)
    case _ => {}
  }

  /** ... gets what it creates or releases, ... */
  ghost function Handed<T>(s: State<T>, op: Op<T>): set<T> {
    match op
    case New(_, x) => {x}
    case Release(c) => if s.what_case == c then Only(Live(s)) else {}
    case ReleaseSource => Only(s.source)
    case _ => {}
  }

  /** ... and these are deleted, in this order. */
  ghost function Buried<T>(s: State<T>, op: Op<T>): seq<T> {
    match op
    case Delete(x) => [x]
    case SetAllocated(_, _) => Listed(Live(s))
    case Mutable(c, _) => if s.what_case == c then [] else Listed(Live(s))
    case SetString(c) => if s.what_case == c then [] else Listed(Live(s))
    case ClearMember(c) => if s.what_case == c then Listed(Live(s)) else []
    case ClearWhat => Listed(Live(s))
    case SetAllocatedSource(_) => Listed(s.source)
    case ClearSource => Listed(s.source)
    case Destructor => Listed(s.source) + Listed(Live(s))
    case _ => []
  }

  lemma StepMoves<T>(s: State<T>, op: Op<T>)
    requires Permitted(s, op)
    ensures Step(s, op).caller == s.caller - Taken(op) + Handed(s, op)
    ensures Step(s, op).destroyed == s.destroyed + Buried(s, op)
  {
    StepHands(s, op);
    StepBuries(s, op);
  }

  lemma StepHands<T>(s: State<T>, op: Op<T>)
    requires Permitted(s, op)
    ensures Step(s, op).caller == s.caller - Taken(op) + Handed(s, op)
  {
    hide DoClearWhat;
    ClearWhatMoves(s);
    ClearWhatMoves(DoClearSource(s));
  }

  lemma StepBuries<T>(s: State<T>, op: Op<T>)
    ensures Step(s, op).destroyed == s.destroyed + Buried(s, op)
  {
    hide DoClearWhat;
    ClearWhatMoves(s);
    ClearWhatMoves(DoClearSource(s));
  }

  lemma ClearWhatMoves<T>(s: State<T>)
    ensures DoClearWhat(s).caller == s.caller && DoClearWhat(s).destroyed == s.destroyed + Listed(Live(s))
    ensures DoClearWhat(s).source == s.source
  {
  }

  /** Nothing gets lost: what the event no longer holds was deleted, unless it was released, and then
      nothing was deleted; what the program no longer owns was deleted at its call or is held. */
  lemma NothingGetsLost<T>(s: State<T>, op: Op<T>, x: T)
    requires Inv(s) && Permitted(s, op)
    ensures var r := Step(s, op);
      && (x in Held(s) && x !in Held(r) ==>
            if op.Release? || op.ReleaseSource? then x in r.caller && r.destroyed == s.destroyed else x in r.destroyed)
      && (x in s.caller && x !in r.caller ==> if op.Delete? then x == op.x && x in r.destroyed else x in Held(r))
  {
    hide Step, Held, Tagged;
    StepKeepsInv(s, op);
    StepMoves(s, op);
    NothingIsForgotten(s, op);
    BuriedWereHeld(s, op);
    if x in s.types {
      assert x in s.types.Keys && x in Step(s, op).types.Keys;
      assert x in Elements(s.destroyed) <==> x in s.destroyed;
    }
  }

  lemma BuriedWereHeld<T>(s: State<T>, op: Op<T>)
    ensures forall x <- Buried(s, op) :: op.Delete? || x in Held(s)
  {
  }

  lemma LogIsApart<T>(s: State<T>, log: seq<Op<T>>)
    requires Inv(s)
    ensures Inv(s.(log := log))
  {
    assert Held(s.(log := log)) == Held(s);
  }

  lemma ReleasePermitted<T>(s: State<T>, c: WhatCase)
    requires Permitted(s, Release(c))
    ensures Member(c).Some?
  {
  }

  lemma SetStringKeepsInv<T>(s: State<T>, c: WhatCase)
    requires Inv(s) && Permitted(s, SetString(c))
    ensures Inv(Step(s, SetString(c)))
  {
    hide DoClearWhat;
    ClearWhatKeepsInv(s);
  }

  /** What the calls do to the event's own fields. */
  lemma MutableStep<T>(s: State<T>, c: WhatCase, x: T)
    ensures var r := Step(s, Mutable(c, x));
      if s.what_case == c then r == s.(log := s.log + [Mutable(c, x)])
      else r.what_case == c && r.what == Some(x) && r.source == s.source && r.types == s.types[x := TypeOf(c)]
  {
  }

  lemma SetAllocatedStep<T>(s: State<T>, c: WhatCase, p: Option<T>)
    ensures var r := Step(s, SetAllocated(c, p));
      && r.source == s.source && r.types == s.types
      && (if p.Some? then r.what_case == c && r.what == p else r.what_case == WhatNotSet && r.what == s.what)
  {
  }

  lemma MutableSourceStep<T>(s: State<T>, x: T)
    ensures var r := Step(s, MutableSource(x));
      if s.source.Some? then r == s.(log := s.log + [MutableSource(x)])
      else r.source == Some(x) && r.what_case == s.what_case && r.what == s.what && r.types == s.types[x := SourceMetadata]
  {
  }

  lemma SetAllocatedSourceStep<T>(s: State<T>, p: Option<T>)
    ensures var r := Step(s, SetAllocatedSource(p));
      r.source == p && r.what_case == s.what_case && r.what == s.what && r.types == s.types
  {
  }

  lemma ClearWhatStep<T>(s: State<T>)
    ensures var r := Step(s, ClearWhat);
      r.what_case == WhatNotSet && r.source == s.source && r.what == s.what && r.types == s.types
  {
  }

  lemma ClearMemberStep<T>(s: State<T>, c: WhatCase)
    ensures var r := Step(s, ClearMember(c));
      && r.what_case == (if s.what_case == c then WhatNotSet else s.what_case)
      && r.source == s.source && r.what == s.what && r.types == s.types
  {
  }

  lemma SetStringStep<T>(s: State<T>, c: WhatCase)
    ensures var r := Step(s, SetString(c));
      r.what_case == c && r.source == s.source && r.what == s.what && r.types == s.types
  {
  }

  // -------------------------------------------------------------- whole runs

  ghost function Run<T>(s: State<T>, ops: seq<Op<T>>): State<T>
    decreases |ops|
  {
    if ops == [] then s else Run(Step(s, ops[0]), ops[1..])
  }

  ghost predicate AllPermitted<T>(s: State<T>, ops: seq<Op<T>>)
    decreases |ops|
  {
    ops != [] ==> Permitted(s, ops[0]) && AllPermitted(Step(s, ops[0]), ops[1..])
  }

  lemma RunTwo<T>(s: State<T>, first: Op<T>, second: Op<T>)
    ensures Run(s, [first, second]) == Step(Step(s, first), second)
  {
    hide Step;
    var ops := [first, second];
    assert ops[1..] == [second] && ops[1..][1..] == [];
    assert Run(s, ops) == Run(Step(s, first), ops[1..]);
  }

  lemma {:induction false} RunKeepsInv<T>(s: State<T>, ops: seq<Op<T>>)
    requires Inv(s) && AllPermitted(s, ops)
    ensures Inv(Run(s, ops))
    decreases |ops|
  {
    if ops != [] {
      StepKeepsInv(s, ops[0]);
      RunKeepsInv(Step(s, ops[0]), ops[1..]);
    }
  }

  lemma {:induction false} RunConcat<T>(s: State<T>, a: seq<Op<T>>, b: seq<Op<T>>)
    ensures Run(s, a + b) == Run(Run(s, a), b)
    ensures AllPermitted(s, a + b) <==> AllPermitted(s, a) && AllPermitted(Run(s, a), b)
    decreases |a|
  {
    if a == [] {
      assert a + b == b;
    } else {
      assert (a + b)[0] == a[0] && (a + b)[1..] == a[1..] + b;
      RunConcat(Step(s, a[0]), a[1..], b);
    }
  }

  /** What the event does of its own accord when it parses, merges or is cleared: it never touches what
      the program owns. */
  predicate Internal<T>(op: Op<T>) {
    op.Mutable? || op.SetString? || op.MutableSource? || op.ClearWhat? || op.ClearSource?
  }

  /** `s'` comes from `s` by permitted operations of the event itself, those its log has gained. */
  ghost predicate Grew<T>(s: State<T>, s': State<T>) {
    && s.log <= s'.log
    && (forall i :: |s.log| <= i < |s'.log| ==> Internal(s'.log[i]))
    && AllPermitted(s, s'.log[|s.log|..]) && s' == Run(s, s'.log[|s.log|..])
  }

  lemma GrewNot<T>(s: State<T>)
    ensures Grew(s, s)
  {
    assert s.log[|s.log|..] == [];
  }

  lemma GrewBy<T>(s: State<T>, op: Op<T>)
    requires Permitted(s, op) && Internal(op)
    ensures Grew(s, Step(s, op))
  {
    hide Effect, Permitted;
    assert Step(s, op).log[|s.log|..] == [op];
    assert AllPermitted(s, [op]) && Run(s, [op]) == Step(s, op);
  }

  lemma GrewOn<T>(s: State<T>, s': State<T>, s'': State<T>)
    requires Grew(s, s') && Grew(s', s'')
    ensures Grew(s, s'')
  {
    var a, b := s'.log[|s.log|..], s''.log[|s'.log|..];
    assert s''.log[|s.log|..] == a + b;
    RunConcat(s, a, b);
    forall i | |s.log| <= i < |s''.log| ensures Internal(s''.log[i]) {
      if i < |s'.log| { assert s''.log[i] == s'.log[i]; }
    }
  }

  /** A new submessage for the oneof. */
  lemma {:induction false} CreateStep<T>(s: State<T>, c: WhatCase, x: T)
    requires Inv(s) && Member(c).Some? && s.what_case != c && x !in s.types
    ensures var r := Step(s, Mutable(c, x));
      && Inv(r) && Grew(s, r) && r.source == s.source
      && r.what_case == c && r.what == Some(x) && r.types == s.types[x := TypeOf(c)]
  {
    hide Inv, Step, Grew;
    StepKeepsInv(s, Mutable(c, x));
    MutableStep(s, c, x);
    GrewBy(s, Mutable(c, x));
  }

  lemma {:induction false} InternalStep<T>(s: State<T>, op: Op<T>)
    requires Inv(s) && Permitted(s, op) && Internal(op)
    ensures var s' := Step(s, op); s'.caller == s.caller && s.destroyed <= s'.destroyed && s.types.Keys <= s'.types.Keys
  {
  }

  lemma {:induction false} InternalRun<T>(s: State<T>, ops: seq<Op<T>>)
    requires Inv(s) && AllPermitted(s, ops) && forall i :: 0 <= i < |ops| ==> Internal(ops[i])
    ensures var s' := Run(s, ops);
      && Inv(s') && s'.caller == s.caller && s.destroyed <= s'.destroyed && s.types.Keys <= s'.types.Keys
    decreases |ops|
  {
    hide Step, Inv, Permitted;
    if ops != [] {
      StepKeepsInv(s, ops[0]);
      InternalStep(s, ops[0]);
      InternalRun(Step(s, ops[0]), ops[1..]);
    }
  }

  /** What the program owns stays with it, what is destroyed stays destroyed, and what the event no
      longer holds has been destroyed. */
  lemma GrewKeeps<T>(s: State<T>, s': State<T>)
    requires Inv(s) && Grew(s, s')
    ensures Inv(s') && s'.caller == s.caller && s.destroyed <= s'.destroyed && s.types.Keys <= s'.types.Keys
    ensures forall x <- Held(s) :: x in Held(s') || x in s'.destroyed
  {
    InternalRun(s, s'.log[|s.log|..]);
    forall x <- Held(s) ensures x in Held(s') || x in s'.destroyed {
      assert x in s'.types.Keys;
    }
  }

  /** One after the other: a permitted call of an accessor, or a parse, merge or copy. */
  ghost predicate Call<T>(s: State<T>, s': State<T>) {
    || Grew(s, s')
    || (s'.log != [] && var op := s'.log[|s'.log| - 1]; Permitted(s, op) && s' == Step(s, op))
  }

  lemma CallKeeps<T>(s: State<T>, s': State<T>)
    requires Inv(s) && Call(s, s')
    ensures Inv(s') && s.destroyed <= s'.destroyed && s.types.Keys <= s'.types.Keys
  {
    hide Inv, Permitted, Effect;
    if Grew(s, s') {
      GrewKeeps(s, s');
    } else {
      var op := s'.log[|s'.log| - 1];
      StepKeepsInv(s, op);
      NothingIsForgotten(s, op);
    }
  }

  lemma NothingIsForgotten<T>(s: State<T>, op: Op<T>)
    ensures s.destroyed <= Step(s, op).destroyed && s.types.Keys <= Step(s, op).types.Keys
  {
  }

  /** `x` is held by the event, owned by the program or destroyed, and only one of these; nothing was
      destroyed twice, and the case tag is that of the live member. */
  ghost predicate InOnePlace<T>(s: State<T>, x: T) {
    && Tagged(s) && NoDuplicates(s.destroyed)
    && (x in s.types <==> x in Held(s) || x in s.caller || x in s.destroyed)
    && !(x in Held(s) && x in s.caller) && !(x in Held(s) && x in s.destroyed) && !(x in s.caller && x in s.destroyed)
  }

  /** Over any sequence of calls, parses that fail, merges and copies included, every object that ever
      was is in exactly one place, and what is destroyed stays so. */
  lemma {:induction false} OwnershipOverCalls<T>(ss: seq<State<T>>, x: T, i: nat, k: nat)
    requires ss != [] && ss[0] == Initial() && forall j :: 0 <= j < |ss| - 1 ==> Call(ss[j], ss[j + 1])
    requires i <= k < |ss|
    ensures Inv(ss[k]) && InOnePlace(ss[k], x)
    ensures x in ss[i].types ==> x in ss[k].types
    ensures x in ss[i].destroyed ==> x in ss[k].destroyed && x !in Held(ss[k]) && x !in ss[k].caller
    decreases k
  {
    hide Call;
    if k > 0 {
      OwnershipOverCalls(ss, x, if i < k then i else 0, k - 1);
      assert Call(ss[k - 1], ss[k]);
      CallKeeps(ss[k - 1], ss[k]);
    }
  }

  /** The same for runs of single operations. */
  lemma OwnershipOverRuns<T>(ops: seq<Op<T>>, x: T)
    requires AllPermitted(Initial(), ops)
    ensures InOnePlace(Run(Initial(), ops), x)
  {
    RunKeepsInv(Initial(), ops);
  }

  /** After the destructor the event holds nothing, and what it held is destroyed. */
  lemma DestructorHoldsNothing<T>(s: State<T>)
    requires Inv(s)
    ensures Held(Step(s, Destructor)) == {} && Step(s, Destructor).caller == s.caller
    ensures Elements(Step(s, Destructor).destroyed) == Elements(s.destroyed) + Held(s)
  {
    var t := DoClearSource(s);
    ClearSourceKeepsInv(s);
    ClearWhatKeepsInv(t);
    SourceIsDestroyed(s);
    WhatIsDestroyed(t);
  }

  lemma {:induction false} SourceIsDestroyed<T>(s: State<T>)
    requires Inv(s)
    ensures var t := DoClearSource(s);
      && Elements(t.destroyed) == Elements(s.destroyed) + (if s.source.Some? then {s.source.value} else {})
      && Held(t) == if Live(s).Some? then {Live(s).value} else {}
  {
    if s.source.Some? { BuryKeeps(s, s.source.value); }
  }

  lemma {:induction false} WhatIsDestroyed<T>(s: State<T>)
    requires Inv(s) && s.source == None
    ensures var t := DoClearWhat(s);
      && Elements(t.destroyed) == Elements(s.destroyed) + (if Live(s).Some? then {Live(s).value} else {})
      && Held(t) == {}
  {
    if Live(s).Some? { BuryKeeps(s, Live(s).value); }
  }

  /** Ownership of the argument is exactly what `set_allocated_*` needs: any other object would end
      up held although it is destroyed. */
  lemma SetAllocatedNeedsOwner<T>(s: State<T>, c: WhatCase, x: T)
    requires Inv(s) && Member(c).Some? && Typed(s, x, TypeOf(c))
    ensures Inv(Step(s, SetAllocated(c, Some(x)))) <==> x in s.caller
  {
    ClearWhatKeepsInv(s);
    var t := Step(s, SetAllocated(c, Some(x)));
    if x in s.caller {
      StepKeepsInv(s, SetAllocated(c, Some(x)));
    } else {
      assert x in Held(t);
      if Live(s) == Some(x) { assert t.destroyed[|s.destroyed|] == x; }
    }
  }

  // ---------------------------------------------------------- several events

  /** What the program does with several events, each with its own account: calls on one of them, or
      an object it owns goes from the account of one to that of another. */
  datatype Turn<T(==)> =
    | Calls(i: nat, next: State<T>)
    | HandOver(i: nat, j: nat, x: T)

  ghost function Leave<T>(s: State<T>, x: T): State<T> {
    s.(caller := s.caller - {x}, types := s.types - {x})
  }

  ghost function Enter<T>(s: State<T>, x: T, t: MessageType): State<T> {
    s.(caller := s.caller + {x}, types := s.types[x := t])
  }

  /** What a call creates is new to all events, and only what the program owns is handed over. */
  ghost predicate Able<T>(w: seq<State<T>>, turn: Turn<T>) {
    match turn
    case Calls(i, next) =>
      && i < |w| && Call(w[i], next)
      && forall k, x :: 0 <= k < |w| && x in next.types && x !in w[i].types ==> x !in w[k].types
    case HandOver(i, j, x) => i < |w| && j < |w| && i != j && x in w[i].caller && x in w[i].types
  }

  ghost function After<T>(w: seq<State<T>>, turn: Turn<T>): (w': seq<State<T>>)
    requires Able(w, turn)
    ensures |w'| == |w|
  {
    match turn
    case Calls(i, next) => w[i := next]
    case HandOver(i, j, x) => w[i := Leave(w[i], x)][j := Enter(w[j], x, w[i].types[x])]
  }

  /** No object is in two accounts. */
  ghost predicate Apart<T>(w: seq<State<T>>) {
    forall i, j, x :: 0 <= i < |w| && 0 <= j < |w| && x in w[i].types && x in w[j].types ==> i == j
  }

  ghost predicate Sound<T>(w: seq<State<T>>) {
    Apart(w) && forall i :: 0 <= i < |w| ==> Inv(w[i])
  }

  ghost predicate AllAble<T>(w: seq<State<T>>, turns: seq<Turn<T>>)
    decreases |turns|
  {
    turns != [] ==> Able(w, turns[0]) && AllAble(After(w, turns[0]), turns[1..])
  }

  ghost function AfterAll<T>(w: seq<State<T>>, turns: seq<Turn<T>>): (w': seq<State<T>>)
    requires AllAble(w, turns)
    ensures |w'| == |w|
    decreases |turns|
  {
    if turns == [] then w else AfterAll(After(w, turns[0]), turns[1..])
  }

  lemma {:induction false} LeaveKeepsInv<T>(s: State<T>, x: T)
    requires Inv(s) && x in s.caller
    ensures Inv(Leave(s, x))
  {
    assert Held(Leave(s, x)) == Held(s);
    assert x in s.types.Keys && x !in Held(s);
  }

  lemma {:induction false} EnterKeepsInv<T>(s: State<T>, x: T, t: MessageType)
    requires Inv(s) && x !in s.types
    ensures Inv(Enter(s, x, t))
  {
    assert Held(Enter(s, x, t)) == Held(s);
    assert x !in s.types.Keys;
  }

  ghost predicate Known<T>(w: seq<State<T>>, x: T) {
    exists i :: 0 <= i < |w| && x in w[i].types
  }

  /** Every turn keeps the accounts sound and apart; what is known stays known, what is destroyed destroyed. */
  lemma {:induction false} TurnKeeps<T>(w: seq<State<T>>, turn: Turn<T>)
    requires Sound(w) && Able(w, turn)
    ensures Sound(After(w, turn))
    ensures forall k :: 0 <= k < |w| ==> w[k].destroyed <= After(w, turn)[k].destroyed
    ensures forall x :: Known(w, x) ==> Known(After(w, turn), x)
  {
    hide Inv, Call;
    var w' := After(w, turn);
    match turn
    case Calls(i, next) => CallKeeps(w[i], next);
    case HandOver(i, j, x) =>
      LeaveKeepsInv(w[i], x);
      EnterKeepsInv(w[j], x, w[i].types[x]);
    forall x | Known(w, x) ensures Known(w', x) {
      var k :| 0 <= k < |w| && x in w[k].types;
      if turn.HandOver? && x == turn.x { assert x in w'[turn.j].types; } else { assert x in w'[k].types; }
    }
  }

  lemma {:induction false} TurnsKeep<T>(w: seq<State<T>>, turns: seq<Turn<T>>)
    requires Sound(w) && AllAble(w, turns)
    ensures Sound(AfterAll(w, turns))
    ensures forall k :: 0 <= k < |w| ==> w[k].destroyed <= AfterAll(w, turns)[k].destroyed
    ensures forall x :: Known(w, x) ==> Known(AfterAll(w, turns), x)
    decreases |turns|
  {
    hide Sound, Able, After, Known;
    if turns != [] {
      TurnKeeps(w, turns[0]);
      TurnsKeep(After(w, turns[0]), turns[1..]);
    }
  }

  /** However events exchange submessages: an object is in one place of one account; what was known is
      not lost, and what was destroyed is held by no event and owned by nobody ever after. */
  lemma {:induction false} OwnershipOverEvents<T>(w0: seq<State<T>>, first: seq<Turn<T>>, more: seq<Turn<T>>, x: T)
    requires forall k :: 0 <= k < |w0| ==> w0[k] == Initial()
    requires AllAble(w0, first) && AllAble(AfterAll(w0, first), more)
    ensures var w := AfterAll(w0, first);
      var w' := AfterAll(w, more);
      && |w| == |w'| == |w0| && Apart(w')
      && (forall k :: 0 <= k < |w'| ==> InOnePlace(w'[k], x))
      && (Known(w, x) ==> Known(w', x))
      && (forall i, k :: 0 <= i < |w| && 0 <= k < |w'| && x in w[i].destroyed ==>
            x !in Held(w'[k]) && x !in w'[k].caller && (x in w'[k].destroyed <==> i == k))
  {
    hide AllAble, AfterAll, Known;
    var w := AfterAll(w0, first);
    var w' := AfterAll(w, more);
    TurnsKeep(w0, first);
    TurnsKeep(w, more);
    forall i, k | 0 <= i < |w| && 0 <= k < |w'| && x in w[i].destroyed
      ensures x !in Held(w'[k]) && x !in w'[k].caller && (x in w'[k].destroyed <==> i == k)
    {
      assert w[i].destroyed <= w'[i].destroyed;
      assert InOnePlace(w'[i], x) && InOnePlace(w'[k], x);
    }
  }
}
