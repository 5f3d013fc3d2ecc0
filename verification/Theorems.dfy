/** The general theorems, stated for the repository's own messages. */
module Theorems {
  import opened Wire
  import opened Schemas
  import opened Messages
  import opened Codec
  import opened MasterLaw
  import opened NormalForm
  import opened RoundTrip
  import opened MergeAlgebra
  import opened Repository
  import O = Objects
  import A = AnyInput

  /** Parsing a printed message into another one merges it, for every message type. */
  lemma ParsingMerges(t: MessageType, a: Msg, b: Msg)
    requires Wf(Repo(), t, a) && Wf(Repo(), t, b)
    ensures ParseInto(Repo(), t, a, Serialize(Repo(), t, b))
         == if Readable(Repo(), t, b) then Some(Merge(Repo(), t, a, b)) else None
  {
    RepoIsWf();
    ParseOfSerialize(Repo(), t, a, b);
  }

  /** Within the size limit that is so exactly if every checked string is well-formed UTF-8.  Oneofs
      included: an Event or a Summary.Value prints at most one member, and parsing it replaces
      another member or is merged into the same one, just as in `MergeFrom`. */
  lemma CleanMessagesMerge(t: MessageType, a: Msg, b: Msg)
    requires Wf(Repo(), t, a) && Wf(Repo(), t, b) && |Serialize(Repo(), t, b)| <= MAX_LENGTH
    ensures ParseInto(Repo(), t, a, Serialize(Repo(), t, b))
         == if Clean(Repo(), t, b) then Some(Merge(Repo(), t, a, b)) else None
  {
    RepoIsWf();
    ParsingMerges(t, a, b);
    if Clean(Repo(), t, b) { ShortIsReadable(Repo(), t, b); }
    if Readable(Repo(), t, b) { ReadableIsClean(Repo(), t, b); }
  }

  /** The messages of the IR check no string: there parsing always merges. */
  lemma IrMessagesMerge(t: MessageType, a: Msg, b: Msg)
    requires IsIr(t) && Wf(Repo(), t, a) && Wf(Repo(), t, b) && |Serialize(Repo(), t, b)| <= MAX_LENGTH
    ensures ParseInto(Repo(), t, a, Serialize(Repo(), t, b)) == Some(Merge(Repo(), t, a, b))
  {
    CleanMessagesMerge(t, a, b);
    IrIsUnchecked();
    UncheckedIsClean(Repo(), IR_TYPES, t, b);
  }

  const IR_TYPES: set<MessageType> := set t: MessageType | IsIr(t)

  /** Fields of the IR: no checked strings, explicit presence, submessages of the IR, alone in oneofs. */
  ghost predicate Proto2Fields(fs: seq<Field>) {
    forall i :: 0 <= i < |fs| ==> Proto2Field(fs[i])
  }

  ghost predicate Proto2Field(f: Field) {
    && f.kind != Text(true) && !f.rule.Implicit? && (f.rule.Oneof? ==> f.kind.Message?)
    && (f.kind.Message? ==> IsIr(f.kind.target))
  }

  lemma LargeIrFieldsAreProto2()
    ensures Proto2Fields(IR_VALUE_FIELDS)
    ensures Proto2Fields(IR_TENSOR_FIELDS)
    ensures Proto2Fields(IR_NODE_FIELDS)
  {
  }

  lemma SmallIrFieldsAreProto2()
    ensures Proto2Fields(IR_ATTRIBUTE_FIELDS)
    ensures Proto2Fields(IR_NAMED_VALUE_FIELDS)
    ensures Proto2Fields(IR_TENSOR_SHAPE_FIELDS)
    ensures Proto2Fields(IR_TENSOR_SHAPE_DIMENSION_FIELDS)
    ensures Proto2Fields(IR_TYPE_FIELDS)
    ensures Proto2Fields(IR_TYPE_TENSOR_FIELDS)
    ensures Proto2Fields(IR_TYPE_SEQUENCE_FIELDS)
    ensures Proto2Fields(IR_PARAMETER_FIELDS)
    ensures Proto2Fields(IR_OUTPUT_FIELDS)
    ensures Proto2Fields(IR_INPUT_FIELDS)
    ensures Proto2Fields(IR_MODEL_FIELDS)
    ensures Proto2Fields(IR_OPERATOR_FIELDS)
    ensures Proto2Fields(IR_OPERATOR_SET_FIELDS)
    ensures Proto2Fields(IR_GRAPH_FIELDS)
  {
  }

  lemma IrFieldsAreProto2(t: MessageType)
    requires IsIr(t)
    ensures Proto2Fields(Fields(t))
  {
    hide Proto2Fields;
    SmallIrFieldsAreProto2();
    LargeIrFieldsAreProto2();
  }

  lemma IrIsUnchecked()
    ensures Unchecked(Repo(), IR_TYPES)
  {
    forall t | t in IR_TYPES ensures UncheckedFields(FieldsOf(Repo(), t), IR_TYPES) {
      RepoFields(t);
      IrFieldsAreProto2(t);
      InTheIr(Fields(t));
    }
  }

  lemma InTheIr(fs: seq<Field>)
    requires Proto2Fields(fs)
    ensures UncheckedFields(fs, IR_TYPES)
  {
    hide IsIr;
    forall i | 0 <= i < |fs| ensures UncheckedField(fs[i], IR_TYPES) {
      assert Proto2Field(fs[i]);
    }
  }

  lemma ExplicitInTheIr(fs: seq<Field>)
    requires Proto2Fields(fs)
    ensures O.ExplicitFields(fs, IR_TYPES)
  {
    hide IsIr;
    forall i | 0 <= i < |fs| ensures O.ExplicitField(fs[i], IR_TYPES) {
      assert Proto2Field(fs[i]);
    }
  }

  lemma IrIsExplicit()
    ensures O.Explicit(Repo(), IR_TYPES)
  {
    hide O.ExplicitFields, WfSchema;
    RepoIsWf();
    forall t | t in IR_TYPES ensures O.ExplicitFields(FieldsOf(Repo(), t), IR_TYPES) {
      RepoFields(t);
      IrFieldsAreProto2(t);
      ExplicitInTheIr(Fields(t));
    }
  }

  /** For every message of the IR: whatever was parsed, also in vain, merged, copied and cleared before,
      a copy shows what the original shows, a cleared object is empty, and what an object keeps though
      its bit is not set is zero, empty, null or hollow at every depth. */
  lemma IrForgetsHistory(t: MessageType, h: O.History, from: O.History, i: nat)
    requires IsIr(t)
    ensures O.View(O.Build(Repo(), t, O.Copied(h, from))) == O.View(O.Build(Repo(), t, from))
    ensures O.View(O.Build(Repo(), t, O.Cleared(h))) == Empty(Repo(), t)
    ensures O.Hollow(O.Build(Repo(), t, O.Cleared(h)))
    ensures var cells := O.Build(Repo(), t, h).cells;
      i < |cells| && cells[i].Child? && !cells[i].has && cells[i].p.Some? ==> O.Hollow(cells[i].p.value)
  {
    hide O.Build, O.View, O.Hollow, O.Inv, Empty, O.Explicit;
    IrIsExplicit();
    O.CopyForgetsHistory(Repo(), IR_TYPES, t, h, from);
    O.ClearedIsHollow(Repo(), IR_TYPES, t, h);
    if i < |O.Build(Repo(), t, h).cells| { O.UnsetIsHollow(Repo(), IR_TYPES, t, h, i); }
  }

  /** The IR and tensor families have no implicit floating-point field. */
  const EXACT_TYPES: set<MessageType> := set t: MessageType | IsIr(t) || IsTensor(t)

  /** No implicit floating-point field, and submessages only of the two families. */
  ghost predicate NoImplicitFloats(fs: seq<Field>) {
    forall i :: 0 <= i < |fs| ==> NoImplicitFloat(fs[i])
  }

  ghost predicate NoImplicitFloat(f: Field) {
    && !(f.rule.Implicit? && (f.kind.Float? || f.kind.Double?))
    && (f.kind.Message? ==> IsIr(f.kind.target) || IsTensor(f.kind.target))
  }

  lemma ValueFieldsAreExact()
    ensures NoImplicitFloats(IR_VALUE_FIELDS)
    ensures NoImplicitFloats(IR_TENSOR_FIELDS)
    ensures NoImplicitFloats(IR_NODE_FIELDS)
  {
  }

  lemma IrFieldsAreExact()
    ensures NoImplicitFloats(IR_ATTRIBUTE_FIELDS)
    ensures NoImplicitFloats(IR_NAMED_VALUE_FIELDS)
    ensures NoImplicitFloats(IR_TENSOR_SHAPE_FIELDS)
    ensures NoImplicitFloats(IR_TENSOR_SHAPE_DIMENSION_FIELDS)
    ensures NoImplicitFloats(IR_TYPE_FIELDS)
    ensures NoImplicitFloats(IR_TYPE_TENSOR_FIELDS)
    ensures NoImplicitFloats(IR_TYPE_SEQUENCE_FIELDS)
    ensures NoImplicitFloats(IR_PARAMETER_FIELDS)
    ensures NoImplicitFloats(IR_OUTPUT_FIELDS)
    ensures NoImplicitFloats(IR_INPUT_FIELDS)
    ensures NoImplicitFloats(IR_MODEL_FIELDS)
    ensures NoImplicitFloats(IR_OPERATOR_FIELDS)
    ensures NoImplicitFloats(IR_OPERATOR_SET_FIELDS)
    ensures NoImplicitFloats(IR_GRAPH_FIELDS)
  {
  }

  lemma TensorFieldsAreExact()
    ensures NoImplicitFloats(TENSOR_FIELDS)
    ensures NoImplicitFloats(VARIANT_TENSOR_DATA_FIELDS)
    ensures NoImplicitFloats(TENSOR_SHAPE_FIELDS)
    ensures NoImplicitFloats(TENSOR_SHAPE_DIM_FIELDS)
    ensures NoImplicitFloats(RESOURCE_HANDLE_FIELDS)
    ensures NoImplicitFloats(RESOURCE_HANDLE_DTYPE_AND_SHAPE_FIELDS)
  {
  }

  lemma ExactType(t: MessageType)
    requires IsIr(t) || IsTensor(t)
    ensures ExactFields(Fields(t), EXACT_TYPES)
  {
    FieldsAreExact(t);
    InFamilies(Fields(t));
  }

  lemma FieldsAreExact(t: MessageType)
    requires IsIr(t) || IsTensor(t)
    ensures NoImplicitFloats(Fields(t))
  {
    hide NoImplicitFloats;
    ValueFieldsAreExact();
    IrFieldsAreExact();
    TensorFieldsAreExact();
  }

  lemma InFamilies(fs: seq<Field>)
    requires NoImplicitFloats(fs)
    ensures ExactFields(fs, EXACT_TYPES)
  {
    hide IsIr, IsTensor;
    forall i | 0 <= i < |fs| ensures ExactField(fs[i], EXACT_TYPES) {
      assert NoImplicitFloat(fs[i]);
    }
  }

  lemma ExactTypesAreExact()
    ensures Exact(Repo(), EXACT_TYPES)
  {
    forall t | t in EXACT_TYPES ensures ExactFields(FieldsOf(Repo(), t), EXACT_TYPES) {
      RepoFields(t);
      ExactType(t);
    }
  }

  /** For the IR and tensor families the normal form is exact: whatever was parsed prints to bytes
      that parse to the same message and print to themselves. */
  lemma ExactNormalForm(t: MessageType, b: bytes, m: Msg)
    requires (IsIr(t) || IsTensor(t)) && Parse(Repo(), t, b) == Some(m)
    ensures Parse(Repo(), t, Serialize(Repo(), t, m)) == if Readable(Repo(), t, m) then Some(m) else None
    ensures |Serialize(Repo(), t, m)| <= MAX_LENGTH ==> Readable(Repo(), t, m)
  {
    RepoIsWf();
    ExactTypesAreExact();
    PrintIsNormalForm(Repo(), t, b, m);
    ExactIsCanonical(Repo(), EXACT_TYPES, t, m);
  }

  // ------------------------------------------------------------ negative zero

  /** Exactly the singular fields of a histogram are touched by a round trip, and only when they
      hold a negative zero: NaNs keep their bits, and so do negative zeros in the buckets. */
  lemma HistogramCanonical(m: Msg)
    requires Wf(Repo(), Histogram, m)
    ensures Canonical(Repo(), Histogram, m) <==> forall i :: 0 <= i < 5 ==> m.slots[i].vs != [Num(TWO_TO_63)]
  {
    var fs := FieldsOf(Repo(), Histogram);
    RepoFields(Histogram);
    assert fs == HISTOGRAM_FIELDS;
    forall i | 0 <= i < 7
      ensures CanonicalSlot(Repo(), fs[i], m.slots[i].vs) <==> i >= 5 || m.slots[i].vs != [Num(TWO_TO_63)]
    {
      assert WfSlot(Repo(), fs[i], m.slots[i].vs);
      if i < 5 {
        assert m.slots[i].vs == [m.slots[i].vs[0]] && WfValue(Repo(), fs[i].kind, m.slots[i].vs[0]);
      } else {
        forall j | 0 <= j < |m.slots[i].vs| ensures WfValue(Repo(), fs[i].kind, m.slots[i].vs[j]) {}
      }
    }
  }

  /** Such a message does not survive the round trip: the negative zero is not printed. */
  lemma NegativeZeroIsLost()
    ensures var m := Msg([Slot([Num(TWO_TO_63)]), Slot([Num(0)]), Slot([Num(0)]), Slot([Num(0)]), Slot([Num(0)]), Slot([]),
                          Slot([])], []);
      Wf(Repo(), Histogram, m) && Parse(Repo(), Histogram, Serialize(Repo(), Histogram, m)) != Some(m)
  {
    var m := Msg([Slot([Num(TWO_TO_63)]), Slot([Num(0)]), Slot([Num(0)]), Slot([Num(0)]), Slot([Num(0)]), Slot([]),
                  Slot([])], []);
    RepoFields(Histogram);
    ZeroHistogramIsWf(m);
    HistogramCanonical(m);
    assert m.slots[0].vs == [Num(TWO_TO_63)];
    RepoIsWf();
    RoundTrips(Repo(), Histogram, m);
  }

  lemma ZeroHistogramIsWf(m: Msg)
    requires m == Msg([Slot([Num(TWO_TO_63)]), Slot([Num(0)]), Slot([Num(0)]), Slot([Num(0)]), Slot([Num(0)]), Slot([]),
                       Slot([])], [])
    ensures Wf(Repo(), Histogram, m)
  {
    RepoFields(Histogram);
    var fs := HISTOGRAM_FIELDS;
    forall i | 0 <= i < 7 ensures WfSlot(Repo(), fs[i], m.slots[i].vs) {
      forall j | 0 <= j < |m.slots[i].vs| ensures WfValue(Repo(), fs[i].kind, m.slots[i].vs[j]) {}
    }
  }

  // ------------------------------------------------------------ merge algebra

  lemma GraphIsPlain()
    ensures Plain(Repo(), {IrGraph})
  {
    RepoFields(IrGraph);
    assert PlainFields(IR_GRAPH_FIELDS, {IrGraph});
  }

  /** Graphs: merging is associative and the empty graph is its unit on both sides. */
  lemma GraphsFormAMonoid(a: Msg, b: Msg, c: Msg)
    requires Wf(Repo(), IrGraph, a) && Wf(Repo(), IrGraph, b) && Wf(Repo(), IrGraph, c)
    ensures Merge(Repo(), IrGraph, Merge(Repo(), IrGraph, a, b), c)
         == Merge(Repo(), IrGraph, a, Merge(Repo(), IrGraph, b, c))
    ensures Merge(Repo(), IrGraph, a, Empty(Repo(), IrGraph)) == a
    ensures Merge(Repo(), IrGraph, Empty(Repo(), IrGraph), a) == a
  {
    RepoIsWf();
    ExactTypesAreExact();
    GraphIsPlain();
    PlainAssociates(Repo(), {IrGraph}, IrGraph, a, b, c);
    AssocIff(Repo(), IrGraph, a, b, c);
    EmptyIsRightUnit(Repo(), IrGraph, a);
    ExactIsCanonical(Repo(), EXACT_TYPES, IrGraph, a);
    CopyIsSame(Repo(), IrGraph, a);
  }

  /** What the family of value types looks like to the parser. */
  ghost predicate DescribesTypes(S: Schema) {
    && WfSchema(S) && FieldsOf(S, IrType) == IR_TYPE_FIELDS
    && FieldsOf(S, IrTypeTensor) == IR_TYPE_TENSOR_FIELDS && FieldsOf(S, IrTypeSequence) == IR_TYPE_SEQUENCE_FIELDS
  }

  /** A tensor type with the given element types, none or one. */
  function TensorType(elements: seq<Value>): Msg {
    Msg([Slot([]), Slot([Sub(Msg([Slot(elements), Slot([])], []))]), Slot([])], [])
  }

  function SequenceType(): Msg {
    Msg([Slot([]), Slot([]), Slot([Sub(Msg([Slot([])], []))])], [])
  }

  lemma TensorTypeWf(S: Schema, elements: seq<Value>)
    requires DescribesTypes(S) && (elements == [] || elements == [Num(1)])
    ensures Wf(S, IrType, TensorType(elements))
  {
    var inner := Msg([Slot(elements), Slot([])], []);
    forall i | 0 <= i < 2 ensures WfSlot(S, IR_TYPE_TENSOR_FIELDS[i], inner.slots[i].vs) {}
    assert Wf(S, IrTypeTensor, inner);
    var m := TensorType(elements);
    forall i | 0 <= i < 3 ensures WfSlot(S, IR_TYPE_FIELDS[i], m.slots[i].vs) {
      assert WfValue(S, IR_TYPE_FIELDS[1].kind, Sub(inner));
    }
  }

  lemma SequenceTypeWf(S: Schema)
    requires DescribesTypes(S)
    ensures Wf(S, IrType, SequenceType())
  {
    var inner := Msg([Slot([])], []);
    forall i | 0 <= i < 1 ensures WfSlot(S, IR_TYPE_SEQUENCE_FIELDS[i], inner.slots[i].vs) {}
    assert Wf(S, IrTypeSequence, inner);
    var m := SequenceType();
    forall i | 0 <= i < 3 ensures WfSlot(S, IR_TYPE_FIELDS[i], m.slots[i].vs) {
      assert WfValue(S, IR_TYPE_FIELDS[2].kind, Sub(inner));
    }
  }

  /** Merging a sequence type into a tensor type and then an empty tensor type loses the element type,
      in the other order it does not: types that switch back do not associate. */
  lemma {:induction false} SwitchingBackDoesNotAssociate(S: Schema)
    requires DescribesTypes(S)
    ensures var a, b, c := TensorType([Num(1)]), SequenceType(), TensorType([]);
      && Wf(S, IrType, a) && Wf(S, IrType, b) && Wf(S, IrType, c)
      && Merge(S, IrType, Merge(S, IrType, a, b), c) != Merge(S, IrType, a, Merge(S, IrType, b, c))
  {
    hide Merge, Wf;
    var a, b, c := TensorType([Num(1)]), SequenceType(), TensorType([]);
    TensorTypeWf(S, [Num(1)]);
    TensorTypeWf(S, []);
    SequenceTypeWf(S);
    AssocIff(S, IrType, a, b, c);
    SwitchedAway(b);
    NotOverwritten(S);
    assert !AssociatesValue(S, IR_TYPE_FIELDS[1], At(a, 1), At(b, 1), Evicted(IR_TYPE_FIELDS, b, 3, 1), c.slots[1].vs[0]);
  }

  lemma SwitchedAway(b: Msg)
    requires b == SequenceType()
    ensures Evicted(IR_TYPE_FIELDS, b, 3, 1)
  {
    assert Siblings(IR_TYPE_FIELDS, 2, 1) && At(b, 2) != [];
  }

  lemma NotOverwritten(S: Schema)
    requires DescribesTypes(S)
    ensures !Overwritten(S, IrTypeTensor, Msg([Slot([Num(1)]), Slot([])], []), Msg([Slot([]), Slot([])], []))
  {
    var x, z := Msg([Slot([Num(1)]), Slot([])], []), Msg([Slot([]), Slot([])], []);
    var fs := IR_TYPE_TENSOR_FIELDS;
    assert !Evicted(fs, z, 2, 0);
    assert !OverwrittenSlot(S, fs[0], At(x, 0), z.slots[0].vs);
  }

  /** In the repository's own tables, too. */
  lemma TypesDoNotAssociate()
    ensures var a, b, c := TensorType([Num(1)]), SequenceType(), TensorType([]);
      && Wf(Repo(), IrType, a) && Wf(Repo(), IrType, b) && Wf(Repo(), IrType, c)
      && Merge(Repo(), IrType, Merge(Repo(), IrType, a, b), c) != Merge(Repo(), IrType, a, Merge(Repo(), IrType, b, c))
  {
    RepoIsWf();
    RepoFields(IrType);
    RepoFields(IrTypeTensor);
    RepoFields(IrTypeSequence);
    SwitchingBackDoesNotAssociate(Repo());
  }

  // ------------------------------------------------ values merge associatively

  /** Some member that `x` and `z` both have set is switched away from in `y`. */
  ghost predicate SwitchesBack(x: Msg, y: Msg, z: Msg) {
    exists j :: 1 <= j < 3 && At(x, j) != [] && At(y, 3 - j) != [] && At(z, j) != []
  }

  const PLAIN_TYPES: set<MessageType> := {IrTensor, IrGraph, IrTypeTensor, IrTypeSequence, IrTensorShape}

  lemma PlainTypesArePlain()
    ensures PlainFields(IR_TENSOR_FIELDS, PLAIN_TYPES) && PlainFields(IR_GRAPH_FIELDS, PLAIN_TYPES)
    ensures PlainFields(IR_TYPE_TENSOR_FIELDS, PLAIN_TYPES) && PlainFields(IR_TYPE_SEQUENCE_FIELDS, PLAIN_TYPES)
    ensures PlainFields(IR_TENSOR_SHAPE_FIELDS, PLAIN_TYPES)
  {
  }

  lemma PlainType(t: MessageType)
    requires t == IrTensor || t == IrGraph || t == IrTypeTensor || t == IrTypeSequence || t == IrTensorShape
    ensures PlainFields(Fields(t), PLAIN_TYPES)
  {
    hide PlainFields, PLAIN_TYPES;
    PlainTypesArePlain();
  }

  lemma PlainInRepo()
    ensures Plain(Repo(), PLAIN_TYPES)
  {
    hide PlainFields, Fields;
    forall t | t in PLAIN_TYPES ensures PlainFields(FieldsOf(Repo(), t), PLAIN_TYPES) {
      RepoFields(t);
      PlainType(t);
    }
  }

  lemma TypeAssociates(S: Schema, x: Msg, y: Msg, z: Msg)
    requires FieldsOf(S, IrType) == IR_TYPE_FIELDS && Plain(S, PLAIN_TYPES) && !SwitchesBack(x, y, z)
    ensures Associates(S, IrType, x, y, z)
  {
    var fs := IR_TYPE_FIELDS;
    forall j: nat | j < 3 && j < |z.slots| && z.slots[j].vs != []
      ensures AssociatesValue(S, fs[j], At(x, j), At(y, j), Evicted(fs, y, 3, j), z.slots[j].vs[0])
    {
      var v := z.slots[j].vs[0];
      if v.Sub? && fs[j].kind.Message? {
        var t := fs[j].kind.target;
        if Evicted(fs, y, 3, j) {
          var i: nat :| i < 3 && Siblings(fs, i, j) && At(y, i) != [];
          assert i == 3 - j && At(z, j) != [];
        }
        PlainAssociates(S, PLAIN_TYPES, t, Base(S, t, At(x, j)), Base(S, t, At(y, j)), v.m);
      }
    }
  }

  /** The value type a value has, or the empty one. */
  function TypeOfValue(S: Schema, m: Msg): Msg {
    Base(S, IrType, At(m, 19))
  }

  /** Merging values is associative unless the type switches back. */
  lemma ValuesAssociate(a: Msg, b: Msg, c: Msg)
    requires Wf(Repo(), IrValue, a) && Wf(Repo(), IrValue, b) && Wf(Repo(), IrValue, c)
    requires !SwitchesBack(TypeOfValue(Repo(), a), TypeOfValue(Repo(), b), TypeOfValue(Repo(), c))
    ensures Merge(Repo(), IrValue, Merge(Repo(), IrValue, a, b), c)
         == Merge(Repo(), IrValue, a, Merge(Repo(), IrValue, b, c))
  {
    RepoIsWf();
    RepoFields(IrValue);
    RepoFields(IrType);
    PlainInRepo();
    ValueAssociates(Repo(), a, b, c);
    AssocIff(Repo(), IrValue, a, b, c);
  }

  /** Singular submessages of a value are its tensor, its graph and its type; none is in a oneof. */
  predicate ValueFieldFact(f: Field) {
    && !f.rule.Oneof?
    && (f.kind.Message? && !f.rule.Repeated? ==>
          f.kind.target == IrTensor || f.kind.target == IrGraph || (f.kind.target == IrType && f.num == 20))
  }

  lemma ValueFieldFacts()
    ensures |IR_VALUE_FIELDS| == 20
    ensures forall j :: 0 <= j < 20 ==> IR_VALUE_FIELDS[j].num == j + 1 && ValueFieldFact(IR_VALUE_FIELDS[j])
  {
  }

  lemma ValueAssociates(S: Schema, a: Msg, b: Msg, c: Msg)
    requires FieldsOf(S, IrValue) == IR_VALUE_FIELDS && FieldsOf(S, IrType) == IR_TYPE_FIELDS && Plain(S, PLAIN_TYPES)
    requires !SwitchesBack(TypeOfValue(S, a), TypeOfValue(S, b), TypeOfValue(S, c)) && |c.slots| == 20
    ensures Associates(S, IrValue, a, b, c)
  {
    hide IR_VALUE_FIELDS, SwitchesBack, Empty;
    ValueFieldFacts();
    var fs := IR_VALUE_FIELDS;
    forall j: nat | j < 20 && c.slots[j].vs != []
      ensures AssociatesValue(S, fs[j], At(a, j), At(b, j), Evicted(fs, b, 20, j), c.slots[j].vs[0])
    {
      var f, v := fs[j], c.slots[j].vs[0];
      assert !Evicted(fs, b, 20, j);
      if v.Sub? && f.kind.Message? && !f.rule.Repeated? {
        var t := f.kind.target;
        if t == IrType {
          TypeAssociates(S, TypeOfValue(S, a), TypeOfValue(S, b), v.m);
        } else {
          PlainAssociates(S, PLAIN_TYPES, t, Base(S, t, At(a, j)), Base(S, t, At(b, j)), v.m);
        }
      }
    }
  }

  // ---------------------------------------------------------- inputs of any origin

  lemma PlainHasNoImplicit()
    ensures A.NoImplicit(Repo(), PLAIN_TYPES)
  {
    hide Fields, Proto2Fields;
    forall t | t in PLAIN_TYPES ensures A.NoImplicitFields(FieldsOf(Repo(), t)) {
      RepoFields(t);
      IrFieldsAreProto2(t);
      Proto2HasNoImplicit(Fields(t));
    }
  }

  lemma Proto2HasNoImplicit(fs: seq<Field>)
    requires Proto2Fields(fs)
    ensures A.NoImplicitFields(fs)
  {
    forall i | 0 <= i < |fs| ensures !fs[i].rule.Implicit? {
      assert Proto2Field(fs[i]);
    }
  }

  lemma PlainIsExact()
    ensures PLAIN_TYPES <= EXACT_TYPES
  {
    forall t | t in PLAIN_TYPES ensures t in EXACT_TYPES { assert IsIr(t); }
  }

  /** Graphs, tensors and shapes of the IR: whatever bytes are accepted, printed by a message or not,
      parsing them into a message is merging what they parse to. */
  lemma GraphInputsMerge(t: MessageType, m: Msg, b: bytes)
    requires t in PLAIN_TYPES && Wf(Repo(), t, m) && Parse(Repo(), t, b).Some?
    ensures ParseInto(Repo(), t, m, b) == Some(Merge(Repo(), t, m, Parse(Repo(), t, b).value))
  {
    hide A.MergesAs, Merge, Wf, Parse, ParseInto, Exact, Plain, A.NoImplicit, Repo, WfSchema, PLAIN_TYPES, EXACT_TYPES;
    RepoIsWf();
    PlainIsExact();
    PlainInRepo();
    PlainHasNoImplicit();
    ExactTypesAreExact();
    A.PlainInputsMerge(Repo(), PLAIN_TYPES, EXACT_TYPES, t, m, b);
    A.InputMergesIff(Repo(), t, m, b);
  }

  /** Not so with implicit presence: an explicit zero, which no printer writes, is stored by a parse but
      not by a merge. */
  lemma ExplicitZeroIsNotMerged()
    ensures var one, zero := Msg([Slot([Num(1)])], []), Msg([Slot([Num(0)])], []);
      var b := Encode(Record(1, Scalar(0)));
      && ParseInto(Repo(), RequestedExitCode, one, b) == Some(zero)
      && Parse(Repo(), RequestedExitCode, b) == Some(zero)
      && Merge(Repo(), RequestedExitCode, one, zero) == one
  {
    hide Repo;
    RepoFields(RequestedExitCode);
    var one, zero := Msg([Slot([Num(1)])], []), Msg([Slot([Num(0)])], []);
    var r := Record(1, Scalar(0));
    assert Fields(RequestedExitCode) == [Field(1, Int32, Implicit)];
    assert Encode(r) + [] == Encode(r);
    ParseOneRecord(Repo(), RequestedExitCode, one, r, []);
    ParseOneRecord(Repo(), RequestedExitCode, Empty(Repo(), RequestedExitCode), r, []);
    ZeroStored(Repo(), one);
    ZeroStored(Repo(), Empty(Repo(), RequestedExitCode));
    MergeAt(Repo(), RequestedExitCode, one, zero, 0);
    assert Merge(Repo(), RequestedExitCode, one, zero).slots == one.slots;
  }

  lemma ZeroStored(S: Schema, m: Msg)
    requires FieldsOf(S, RequestedExitCode) == [Field(1, Int32, Implicit)] && |m.slots| == 1 && m.unknown == []
    ensures Apply(S, RequestedExitCode, m, Record(1, Scalar(0))) == Some(Msg([Slot([Num(0)])], []))
  {
    var m' := Apply(S, RequestedExitCode, m, Record(1, Scalar(0))).value;
    assert m'.slots == [Slot([Num(0)])];
  }

  /** A varint of 2^32 + 1 counts as the declared value 1 of DataType: it is narrowed first. */
  lemma HugeDataTypeIsNarrowed()
    ensures Parse(Repo(), IrType, Encode(Record(1, Scalar(TWO_TO_32 + 1))))
         == Some(Msg([Slot([Num(1)]), Slot([]), Slot([])], []))
  {
    hide Repo;
    RepoFields(IrType);
    var r := Record(1, Scalar(TWO_TO_32 + 1));
    assert Encode(r) + [] == Encode(r);
    ParseOneRecord(Repo(), IrType, Empty(Repo(), IrType), r, []);
    NarrowedStored(Repo());
  }

  lemma NarrowedStored(S: Schema)
    requires FieldsOf(S, IrType) == IR_TYPE_FIELDS
    ensures Apply(S, IrType, Empty(S, IrType), Record(1, Scalar(TWO_TO_32 + 1)))
         == Some(Msg([Slot([Num(1)]), Slot([]), Slot([])], []))
  {
    var m, p := Empty(S, IrType), Scalar(TWO_TO_32 + 1);
    assert Find(IR_TYPE_FIELDS, 1) == 0;
    assert IR_TYPE_FIELDS[0] == Opt(1, DATA_TYPE);
    NarrowedDecodes(S, At(m, 0));
    var m' := Store(IR_TYPE_FIELDS, m, 0, [Num(1)]);
    assert m'.slots == [Slot([Num(1)]), Slot([]), Slot([])];
  }

  lemma NarrowedDecodes(S: Schema, had: seq<Value>)
    ensures Decode(S, Opt(1, DATA_TYPE), had, Scalar(TWO_TO_32 + 1)) == Values([Num(1)])
  {
  }
}
