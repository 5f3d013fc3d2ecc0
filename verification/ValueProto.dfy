/** ValueProto of mindspore_anf_ir.pb.cc: explicit presence in has-bits, submessages that stay
    allocated when cleared, and repeated fields accepted packed or one by one. */
module ValueProtos {
  import opened Wire
  import opened Schemas
  import opened Messages
  import opened Codec
  import opened MasterLaw
  import opened NormalForm
  import opened RoundTrip
  import opened Repository
  import opened Theorems
  import opened Parsing
  import opened Printing
  import opened HasBitWords
  import O = Objects

  // -------------------------------------------------------- contents of a field

  /** A field with explicit presence. */
  function Held(has: bool, v: Value): seq<Value> {
    if has then [v] else []
  }

  /** The message a pointer leads to; a null pointer stands for the empty default instance. */
  function Pointee(S: Schema, t: MessageType, p: Option<O.Object>): Msg {
    if p.Some? then O.View(p.value) else Empty(S, t)
  }

  /** A pointer to a submessage that is set if `has`, and otherwise null or to a cleared object, in
      which again nothing is set at any depth. */
  ghost predicate Retained(S: Schema, t: MessageType, has: bool, p: Option<O.Object>) {
    (has ==> p.Some?) && (p.Some? ==> O.Inv(S, t, p.value) && (has || O.Bare(p.value)))
  }

  /** A pointer after the submessage of another message was merged in. */
  function MergedPointer(S: Schema, t: MessageType, has: bool, p: Option<O.Object>, q: Option<O.Object>)
    : Option<O.Object>
  {
    if has && q.Some? then Some(O.MergeFrom(S, t, O.Mutable(S, t, p), q.value)) else p
  }

  /** A pointer after `Clear()`. */
  function ClearedPointer(has: bool, p: Option<O.Object>): Option<O.Object> {
    if has && p.Some? then Some(O.Clear(p.value)) else p
  }

  /** Repeated submessages, with the spare ones. */
  type Elements = c: O.Cell | c.Children? witness O.Children([], [])

  lemma RetainedIsEmpty(S: Schema, t: MessageType, p: Option<O.Object>)
    requires Retained(S, t, false, p)
    ensures Pointee(S, t, p) == Empty(S, t)
  {
    if p.Some? { O.BareIsEmpty(S, t, p.value); }
  }

  /** The object to go on with shows what the pointer leads to. */
  lemma PointerIsMutable(S: Schema, t: MessageType, has: bool, p: Option<O.Object>)
    requires Describes(S) && t in CHILD_TYPES && Retained(S, t, has, p)
    ensures O.Inv(S, t, O.Mutable(S, t, p)) && O.View(O.Mutable(S, t, p)) == Pointee(S, t, p)
  {
    hide O.Inv, O.View, Describes, CHILD_TYPES, O.New, Empty;
    var ts := Family(S, t);
    O.NewIsBare(S, ts, t);
    O.BareIsEmpty(S, t, O.New(S, t));
  }

  function BoolNum(b: bool): int {
    if b then 1 else 0
  }

  lemma ElementFamily(S: Schema, k: nat) returns (ts: set<MessageType>)
    requires Describes(S) && k < |IR_VALUE_FIELDS|
    ensures O.Explicit(S, ts) && O.ExplicitField(IR_VALUE_FIELDS[k], ts)
  {
    hide IR_VALUE_FIELDS, WfSchema;
    ts :| O.Explicit(S, ts) && IrValue in ts;
    assert O.ExplicitFields(IR_VALUE_FIELDS, ts);
  }

  lemma DescribesFields(S: Schema)
    requires Describes(S)
    ensures WfSchema(S) && FieldsOf(S, IrValue) == IR_VALUE_FIELDS
  {
  }

  /** The message descriptions say what this parser knows about its fields, and its messages are of a
      closed family with explicit presence. */
  ghost predicate Describes(S: Schema) {
    && WfSchema(S) && FieldsOf(S, IrValue) == IR_VALUE_FIELDS
    && exists ts :: O.Explicit(S, ts) && IrValue in ts
  }

  lemma RepoDescribes()
    ensures Describes(Repo())
  {
    hide IR_VALUE_FIELDS, WfSchema, O.Explicit;
    RepoIsWf();
    RepoFields(IrValue);
    IrIsExplicit();
    assert IrValue in IR_TYPES;
  }

  const CHILD_TYPES: set<MessageType> := {IrTensor, IrGraph, IrType, IrValue, IrNamedValue}

  lemma Family(S: Schema, t: MessageType) returns (ts: set<MessageType>)
    requires Describes(S) && t in CHILD_TYPES
    ensures O.Explicit(S, ts) && t in ts
  {
    hide IR_VALUE_FIELDS, WfSchema;
    ts :| O.Explicit(S, ts) && IrValue in ts;
    HeldFieldFacts();
    RepeatedFieldFacts();
    assert O.ExplicitFields(IR_VALUE_FIELDS, ts);
    assert O.ExplicitField(IR_VALUE_FIELDS[7], ts) && O.ExplicitField(IR_VALUE_FIELDS[8], ts);
    assert O.ExplicitField(IR_VALUE_FIELDS[19], ts) && O.ExplicitField(IR_VALUE_FIELDS[18], ts);
  }

  lemma FieldFacts()
    ensures |IR_VALUE_FIELDS| == 20
    ensures forall j :: 0 <= j < 20 ==> IR_VALUE_FIELDS[j].num == j + 1 && FieldFact(IR_VALUE_FIELDS[j], j)
  {
  }

  /** Fields 10 to 19 are repeated, none is packed or in a oneof. */
  predicate FieldFact(f: Field, j: nat) {
    WfField(f) && f.rule == if 9 <= j < 19 then Repeated(false) else Optional
  }

  lemma FieldCount()
    ensures |IR_VALUE_FIELDS| == 20
  {
  }

  lemma HeldFieldFacts()
    ensures |IR_VALUE_FIELDS| == 20
    ensures IR_VALUE_FIELDS[0] == Opt(1, DATA_TYPE)
    ensures IR_VALUE_FIELDS[1] == Opt(2, Bool)
    ensures IR_VALUE_FIELDS[2] == Opt(3, Int64)
    ensures IR_VALUE_FIELDS[3] == Opt(4, UInt64)
    ensures IR_VALUE_FIELDS[4] == Opt(5, Float)
    ensures IR_VALUE_FIELDS[5] == Opt(6, Double)
    ensures IR_VALUE_FIELDS[6] == Opt(7, STRING2)
    ensures IR_VALUE_FIELDS[7] == Opt(8, Message(IrTensor))
    ensures IR_VALUE_FIELDS[8] == Opt(9, Message(IrGraph))
    ensures IR_VALUE_FIELDS[19] == Opt(20, Message(IrType))
  {
  }

  lemma RepeatedFieldFacts()
    ensures |IR_VALUE_FIELDS| == 20
    ensures IR_VALUE_FIELDS[9] == Rep(10, Bool)
    ensures IR_VALUE_FIELDS[10] == Rep(11, Int64)
    ensures IR_VALUE_FIELDS[11] == Rep(12, UInt64)
    ensures IR_VALUE_FIELDS[12] == Rep(13, Float)
    ensures IR_VALUE_FIELDS[13] == Rep(14, Double)
    ensures IR_VALUE_FIELDS[14] == Rep(15, STRING2)
    ensures IR_VALUE_FIELDS[15] == Rep(16, Message(IrTensor))
    ensures IR_VALUE_FIELDS[16] == Rep(17, Message(IrGraph))
    ensures IR_VALUE_FIELDS[17] == Rep(18, Message(IrValue))
    ensures IR_VALUE_FIELDS[18] == Rep(19, Message(IrNamedValue))
  {
  }

  /** The argument is narrowed to an int before it is tested. */
  predicate DataTypeIsValid(v: nat) {
    0 <= Signed(v, TWO_TO_32) <= 49
  }

  /** The has-bit of the field at index `j`. */
  function PresenceOf(j: nat): Presence {
    match j
    case 0 => HasDType
    case 1 => HasBoolVal
    case 2 => HasIntVal
    case 3 => HasUIntVal
    case 4 => HasFloatVal
    case 5 => HasDoubleVal
    case 6 => HasStrVal
    case 7 => HasTensorVal
    case 8 => HasGraph
    case _ => HasTypeVal
  }

  /** The fields with explicit presence. */
  predicate IsHeld(j: nat) {
    j < 9 || j == 19
  }

  lemma PresenceIsInjective(i: nat, j: nat)
    requires IsHeld(i) && IsHeld(j)
    ensures PresenceOf(i) == PresenceOf(j) <==> i == j
  {
  }

  /** The case of field k + 1 is at hand, after comparing the low byte of the tag. */
  lemma AtCase(S: Schema, m: Msg, k: nat, wireType: nat, tag: nat, b: bytes, b1: bytes)
    requires Describes(S) && Wf(S, IrValue, m) && k < 20 && wireType < 8
    requires b != [] && ReadTag(b) == Ok(tag, b1)
    requires tag / 8 == k + 1 && tag % 256 == Tag(k + 1, wireType) % 256
    ensures AtPlainField(S, IrValue, m, k, IR_VALUE_FIELDS[k], wireType, b, b1)
  {
    hide IR_VALUE_FIELDS, WfSchema, WfSlot, Tag;
    LowByteTestIsExact(tag, k + 1, wireType);
    FieldFacts();
  }

  /** Tags of fields 16 and above take two bytes. */
  lemma TagBytes(k: nat)
    requires k < 20
    ensures TagSize(IR_VALUE_FIELDS[k].num, ValueWireType(IR_VALUE_FIELDS[k].kind)) == if k < 15 then 1 else 2
  {
    hide IR_VALUE_FIELDS;
    FieldFacts();
    if k < 15 {
      OneTagByte(k + 1, ValueWireType(IR_VALUE_FIELDS[k].kind));
    } else {
      TwoTagBytes(k + 1, ValueWireType(IR_VALUE_FIELDS[k].kind));
    }
  }

  lemma BoolSize(S: Schema, b: bool)
    ensures ValueSize(S, Bool, Num(BoolNum(b))) == 1
  {
    NumberSize(S, Bool, BoolNum(b));
  }

  class ValueProto {
    const S: Schema
    var hasBits: HasBits
    var strVal: bytes
    var tensorVal: Option<O.Object>
    var graph: Option<O.Object>
    var typeVal: Option<O.Object>
    var dtype: int32
    var boolVal: bool
    var intVal: int64
    var uintVal: word64
    var doubleVal: word64
    var floatVal: word32
    var boolVals: seq<Value>
    var intVals: seq<Value>
    var uintVals: seq<Value>
    var floatVals: seq<Value>
    var doubleVals: seq<Value>
    var strVals: seq<Value>
    var tensorVals: Elements
    var graphs: Elements
    var values: Elements
    var dictVal: Elements
    var unknown: seq<Record>
    var cachedSize: int

    /** The value kept for the field at index `j`, be it present or not. */
    ghost function ValueAt(j: nat): Value
      reads this`strVal, this`tensorVal, this`graph, this`typeVal, this`dtype, this`boolVal, this`intVal,
            this`uintVal, this`doubleVal, this`floatVal
    {
      match j
      case 0 => Num(dtype)
      case 1 => Num(BoolNum(boolVal))
      case 2 => Num(intVal)
      case 3 => Num(uintVal)
      case 4 => Num(floatVal)
      case 5 => Num(doubleVal)
      case 6 => Data(strVal)
      case 7 => Sub(Pointee(S, IrTensor, tensorVal))
      case 8 => Sub(Pointee(S, IrGraph, graph))
      case _ => Sub(Pointee(S, IrType, typeVal))
    }

    /** What the field at index `j`, one with explicit presence, holds if these are the has-bits. */
    ghost function HeldAt(bits: HasBits, j: nat): seq<Value>
      reads this`strVal, this`tensorVal, this`graph, this`typeVal, this`dtype, this`boolVal, this`intVal,
            this`uintVal, this`doubleVal, this`floatVal
    {
      Held(Has(bits, PresenceOf(j)), ValueAt(j))
    }

    /** What the field at index `j`, a repeated one, holds. */
    ghost function RepeatedAt(j: nat): seq<Value>
      reads this`boolVals, this`intVals, this`uintVals, this`floatVals, this`doubleVals, this`strVals,
            this`tensorVals, this`graphs, this`values, this`dictVal
    {
      match j
      case 9 => boolVals
      case 10 => intVals
      case 11 => uintVals
      case 12 => floatVals
      case 13 => doubleVals
      case 14 => strVals
      case 15 => O.Shown(tensorVals)
      case 16 => O.Shown(graphs)
      case 17 => O.Shown(values)
      case 18 => O.Shown(dictVal)
      case _ => []
    }

    ghost function Content(bits: HasBits, j: nat): seq<Value>
      reads this`strVal, this`tensorVal, this`graph, this`typeVal, this`dtype, this`boolVal, this`intVal,
            this`uintVal, this`doubleVal, this`floatVal
      reads this`boolVals, this`intVals, this`uintVals, this`floatVals, this`doubleVals, this`strVals,
            this`tensorVals, this`graphs, this`values, this`dictVal
    {
      if 9 <= j < 19 then RepeatedAt(j) else HeldAt(bits, j)
    }

    /** The message, if these were its has-bits. */
    ghost function ViewOf(bits: HasBits): (m: Msg)
      reads this`strVal, this`tensorVal, this`graph, this`typeVal, this`dtype, this`boolVal, this`intVal,
            this`uintVal, this`doubleVal, this`floatVal
      reads this`boolVals, this`intVals, this`uintVals, this`floatVals, this`doubleVals, this`strVals,
            this`tensorVals, this`graphs, this`values, this`dictVal, this`unknown
      ensures |m.slots| == 20 && m.unknown == unknown
      ensures forall j :: 0 <= j < 20 ==> m.slots[j] == Slot(Content(bits, j))
    {
      Msg([Slot(Content(bits, 0)), Slot(Content(bits, 1)), Slot(Content(bits, 2)), Slot(Content(bits, 3)),
           Slot(Content(bits, 4)), Slot(Content(bits, 5)), Slot(Content(bits, 6)), Slot(Content(bits, 7)),
           Slot(Content(bits, 8)), Slot(Content(bits, 9)), Slot(Content(bits, 10)), Slot(Content(bits, 11)),
           Slot(Content(bits, 12)), Slot(Content(bits, 13)), Slot(Content(bits, 14)), Slot(Content(bits, 15)),
           Slot(Content(bits, 16)), Slot(Content(bits, 17)), Slot(Content(bits, 18)), Slot(Content(bits, 19))], unknown)
    }

    ghost function View(): Msg
      reads this
    {
      ViewOf(hasBits)
    }

    /** The cell of the field at index `j`, one with explicit presence, if these are the has-bits. */
    ghost function HeldCell(bits: HasBits, j: nat): O.Cell
      reads this`strVal, this`tensorVal, this`graph, this`typeVal, this`dtype, this`boolVal, this`intVal,
            this`uintVal, this`doubleVal, this`floatVal
    {
      match j
      case 7 => O.Child(Has(bits, HasTensorVal), tensorVal)
      case 8 => O.Child(Has(bits, HasGraph), graph)
      case 19 => O.Child(Has(bits, HasTypeVal), typeVal)
      case _ => O.Kept(Has(bits, PresenceOf(j)), ValueAt(j))
    }

    /** The cell of the field at index `j`, a repeated one. */
    ghost function ListCell(j: nat): O.Cell
      reads this`boolVals, this`intVals, this`uintVals, this`floatVals, this`doubleVals, this`strVals,
            this`tensorVals, this`graphs, this`values, this`dictVal
    {
      match j
      case 9 => O.List(boolVals)
      case 10 => O.List(intVals)
      case 11 => O.List(uintVals)
      case 12 => O.List(floatVals)
      case 13 => O.List(doubleVals)
      case 14 => O.List(strVals)
      case 15 => tensorVals
      case 16 => graphs
      case 17 => values
      case _ => dictVal
    }

    ghost function CellAt(j: nat): O.Cell
      reads this
    {
      if 9 <= j < 19 then ListCell(j) else HeldCell(hasBits, j)
    }

    /** This value as an object of the kind its own submessages are. */
    ghost function Self(): (o: O.Object)
      reads this
      ensures |o.cells| == 20 && o.unknown == unknown && forall j :: 0 <= j < 20 ==> o.cells[j] == CellAt(j)
    {
      O.Object([CellAt(0), CellAt(1), CellAt(2), CellAt(3), CellAt(4), CellAt(5), CellAt(6), CellAt(7), CellAt(8),
                CellAt(9), CellAt(10), CellAt(11), CellAt(12), CellAt(13), CellAt(14), CellAt(15), CellAt(16),
                CellAt(17), CellAt(18), CellAt(19)], unknown)
    }

    ghost predicate UnsetIsZero(bits: HasBits)
      reads this`dtype, this`boolVal, this`intVal, this`uintVal, this`floatVal, this`doubleVal, this`strVal
    {
      && (!Has(bits, HasDType) ==> dtype == 0)
      && (!Has(bits, HasBoolVal) ==> !boolVal)
      && (!Has(bits, HasIntVal) ==> intVal == 0)
      && (!Has(bits, HasUIntVal) ==> uintVal == 0)
      && (!Has(bits, HasFloatVal) ==> floatVal == 0)
      && (!Has(bits, HasDoubleVal) ==> doubleVal == 0)
      && (!Has(bits, HasStrVal) ==> strVal == [])
    }

    /** An unset bit means a zero, an empty string, or no submessage but perhaps a cleared one. */
    ghost predicate UnsetIsEmpty(bits: HasBits)
      reads this`strVal, this`tensorVal, this`graph, this`typeVal, this`dtype, this`boolVal, this`intVal,
            this`uintVal, this`doubleVal, this`floatVal
    {
      && UnsetIsZero(bits)
      && Retained(S, IrTensor, Has(bits, HasTensorVal), tensorVal)
      && Retained(S, IrGraph, Has(bits, HasGraph), graph)
      && Retained(S, IrType, Has(bits, HasTypeVal), typeVal)
    }

    /** Every element satisfies its own invariant, and the spare ones are bare. */
    ghost predicate Stocked()
      reads this`tensorVals, this`graphs, this`values, this`dictVal
    {
      && O.InvCell(S, IR_VALUE_FIELDS[15], tensorVals) && O.InvCell(S, IR_VALUE_FIELDS[16], graphs)
      && O.InvCell(S, IR_VALUE_FIELDS[17], values) && O.InvCell(S, IR_VALUE_FIELDS[18], dictVal)
    }

    ghost predicate ValidFor(bits: HasBits)
      reads this`strVal, this`tensorVal, this`graph, this`typeVal, this`dtype, this`boolVal, this`intVal,
            this`uintVal, this`doubleVal, this`floatVal
      reads this`boolVals, this`intVals, this`uintVals, this`floatVals, this`doubleVals, this`strVals,
            this`tensorVals, this`graphs, this`values, this`dictVal, this`unknown
    {
      Describes(S) && Wf(S, IrValue, ViewOf(bits)) && UnsetIsEmpty(bits) && Stocked()
    }

    ghost predicate Valid()
      reads this
    {
      ValidFor(hasBits)
    }

    constructor (S: Schema)
      requires Describes(S)
      ensures Valid() && this.S == S && View() == Empty(S, IrValue)
    {
      this.S := S;
      hasBits, strVal, unknown := NO_BITS, [], [];
      tensorVal, graph, typeVal := None, None, None;
      dtype, boolVal, intVal, uintVal, doubleVal, floatVal := 0, false, 0, 0, 0, 0;
      boolVals, intVals, uintVals, floatVals, doubleVals := [], [], [], [], [];
      strVals := [];
      tensorVals, graphs, values, dictVal := O.Children([], []), O.Children([], []), O.Children([], []), O.Children([], []);
      new;
      SelfIsNew();
    }

    lemma SelfIsNew()
      requires Describes(S) && hasBits == NO_BITS && unknown == []
      requires |boolVals| == |intVals| == |uintVals| == |floatVals| == |doubleVals| == |strVals| == 0
      requires tensorVals == graphs == values == dictVal == O.Children([], [])
      requires tensorVal == graph == typeVal == None
      requires strVal == [] && dtype == 0 && !boolVal && intVal == 0 && uintVal == 0 && doubleVal == 0 && floatVal == 0
      ensures View() == Empty(S, IrValue) && Valid()
    {
      hide O.Inv, O.View, O.Bare, O.New, O.NewCell, Describes, View, Valid, Empty, Self, CellAt, IR_VALUE_FIELDS;
      CellsAreNew();
      DescribesFields(S);
      O.NewByCells(S, IrValue, Self());
      var ts := Family(S, IrValue);
      O.NewIsBare(S, ts, IrValue);
      O.BareIsEmpty(S, IrValue, Self());
      ValidBySelf();
    }

    lemma CellsAreNew()
      requires hasBits == NO_BITS
      requires |boolVals| == |intVals| == |uintVals| == |floatVals| == |doubleVals| == |strVals| == 0
      requires tensorVals == graphs == values == dictVal == O.Children([], [])
      requires tensorVal == graph == typeVal == None
      requires strVal == [] && dtype == 0 && !boolVal && intVal == 0 && uintVal == 0 && doubleVal == 0 && floatVal == 0
      ensures |IR_VALUE_FIELDS| == 20 && forall j :: 0 <= j < 20 ==> CellAt(j) == O.NewCell(IR_VALUE_FIELDS[j])
    {
      hide IR_VALUE_FIELDS;
      NoBits();
      HeldFieldFacts();
      RepeatedFieldFacts();
    }

    /** Conversely, it is valid if as an object it satisfies the invariant. */
    lemma ValidBySelf()
      requires Describes(S) && O.Inv(S, IrValue, Self())
      ensures Valid() && View() == O.View(Self())
    {
      hide IR_VALUE_FIELDS, Has, O.Inv, O.View, O.InvCell, O.Shown, Wf, Describes, CellAt, Content, UnsetIsEmpty, Stocked;
      DescribesFields(S);
      FieldFacts();
      O.CellsOf(S, IrValue, Self());
      forall j: nat | j < 20 ensures O.Shown(CellAt(j)) == Content(hasBits, j) {
        assert O.InvCell(S, IR_VALUE_FIELDS[j], Self().cells[j]);
        CellIsContent(j);
      }
      assert View().slots == O.View(Self()).slots;
      O.ViewIsWf(S, IrValue, Self());
      UnsetBySelf();
    }

    lemma CellIsContent(j: nat)
      requires j < 20 && |IR_VALUE_FIELDS| == 20 && O.InvCell(S, IR_VALUE_FIELDS[j], CellAt(j))
      ensures O.Shown(CellAt(j)) == Content(hasBits, j)
    {
      hide O.Inv, O.View, Has, IR_VALUE_FIELDS;
    }

    lemma UnsetBySelf()
      requires |IR_VALUE_FIELDS| == 20 && forall j :: 0 <= j < 20 ==> O.InvCell(S, IR_VALUE_FIELDS[j], CellAt(j))
      ensures UnsetIsEmpty(hasBits) && Stocked()
    {
      hide O.Inv, O.View, Has, IR_VALUE_FIELDS, O.InvCell, O.Bare;
      HeldFieldFacts();
      HeldBySelf();
      assert O.InvCell(S, IR_VALUE_FIELDS[15], CellAt(15)) && O.InvCell(S, IR_VALUE_FIELDS[16], CellAt(16));
      assert O.InvCell(S, IR_VALUE_FIELDS[17], CellAt(17)) && O.InvCell(S, IR_VALUE_FIELDS[18], CellAt(18));
    }

    lemma HeldBySelf()
      requires |IR_VALUE_FIELDS| == 20 && forall j :: 0 <= j < 20 ==> O.InvCell(S, IR_VALUE_FIELDS[j], CellAt(j))
      ensures UnsetIsEmpty(hasBits)
    {
      hide O.Inv, O.View, Has, IR_VALUE_FIELDS, O.Bare;
      HeldFieldFacts();
      assert O.InvCell(S, IR_VALUE_FIELDS[0], CellAt(0)) && O.InvCell(S, IR_VALUE_FIELDS[1], CellAt(1));
      assert O.InvCell(S, IR_VALUE_FIELDS[2], CellAt(2)) && O.InvCell(S, IR_VALUE_FIELDS[3], CellAt(3));
      assert O.InvCell(S, IR_VALUE_FIELDS[4], CellAt(4)) && O.InvCell(S, IR_VALUE_FIELDS[5], CellAt(5));
      assert O.InvCell(S, IR_VALUE_FIELDS[6], CellAt(6)) && O.InvCell(S, IR_VALUE_FIELDS[7], CellAt(7));
      assert O.InvCell(S, IR_VALUE_FIELDS[8], CellAt(8)) && O.InvCell(S, IR_VALUE_FIELDS[19], CellAt(19));
    }

    /** As such an object it satisfies the invariant and shows the same message. */
    lemma SelfShows()
      requires Valid()
      ensures O.Inv(S, IrValue, Self()) && O.View(Self()) == View()
    {
      hide IR_VALUE_FIELDS, Has, O.Inv, O.View, O.InvCell, O.Shown, Wf, Describes, CellAt, ViewOf, Content, UnsetIsEmpty,
           Stocked;
      FieldFacts();
      DescribesFields(S);
      forall j: nat | j < 20
        ensures O.InvCell(S, IR_VALUE_FIELDS[j], CellAt(j)) && O.Shown(CellAt(j)) == Content(hasBits, j)
        ensures !O.Live(CellAt(j))
      {
        CellShows(j);
      }
      O.InvByCells(S, IrValue, Self(), View());
    }

    lemma CellShows(j: nat)
      requires Valid() && j < 20
      ensures O.InvCell(S, IR_VALUE_FIELDS[j], CellAt(j)) && O.Shown(CellAt(j)) == Content(hasBits, j)
      ensures !O.Live(CellAt(j))
    {
      hide O.Inv, O.View, Wf, Describes, ViewOf, Has;
      HeldFieldFacts();
      RepeatedFieldFacts();
      if j < 7 {
        ScalarShows(j);
      } else if 9 <= j < 15 {
        NumbersShow(j);
      }
    }

    lemma ScalarShows(j: nat)
      requires Valid() && j < 7
      ensures O.InvCell(S, IR_VALUE_FIELDS[j], CellAt(j)) && O.Shown(CellAt(j)) == Content(hasBits, j)
      ensures !O.Live(CellAt(j))
    {
      hide O.Inv, O.View, Wf, Describes, ViewOf, Has;
      HeldFieldFacts();
      ContentIsTyped(j);
      if Has(hasBits, PresenceOf(j)) { assert WfValue(S, IR_VALUE_FIELDS[j].kind, Content(hasBits, j)[0]); }
    }

    lemma NumbersShow(j: nat)
      requires Valid() && 9 <= j < 15
      ensures O.InvCell(S, IR_VALUE_FIELDS[j], CellAt(j)) && O.Shown(CellAt(j)) == Content(hasBits, j)
      ensures !O.Live(CellAt(j))
    {
      hide O.Inv, O.View, Wf, Describes, ViewOf, Has, UnsetIsEmpty;
      RepeatedFieldFacts();
      ContentIsTyped(j);
    }

    /** What has a bit set is zeroed or cleared in place, submessages and elements by their own
        `Clear()`; they stay allocated. */
    method Clear()
      requires Valid()
      modifies this
      ensures Valid() && View() == Empty(S, IrValue) && hasBits == NO_BITS
      ensures Self() == O.Clear(old(Self()))
    {
      hide Wf, Empty, Describes, Valid, View, HeldCell, ListCell, O.Inv, O.View, O.Bare, O.Clear, O.ClearCell,
           IR_VALUE_FIELDS, Self, UnsetIsEmpty;
      SelfShows();
      IsDescribed();
      ghost var was := Self();
      O.ClearIsBare(S, IrValue, was);
      ClearRepeated();
      ClearHeld();
      hasBits := NO_BITS;
      unknown := [];
      O.ClearByCells(was, Self());
      ValidBySelf();
    }

    lemma IsDescribed()
      requires Valid()
      ensures Describes(S) && UnsetIsEmpty(hasBits)
    {
    }

    method ClearRepeated()
      modifies this`boolVals, this`intVals, this`uintVals, this`floatVals, this`doubleVals, this`strVals,
               this`tensorVals, this`graphs, this`values, this`dictVal
      ensures forall j :: 9 <= j < 19 ==> ListCell(j) == O.ClearCell(old(ListCell(j)))
    {
      hide O.Clear;
      boolVals, intVals, uintVals, floatVals, doubleVals, strVals := [], [], [], [], [], [];
      tensorVals := O.ClearCell(tensorVals);
      graphs := O.ClearCell(graphs);
      values := O.ClearCell(values);
      dictVal := O.ClearCell(dictVal);
    }

    /** The singular fields: scalars are zeroed and submessages cleared in place, group by group, if a
        bit of the group's mask is set. */
    method ClearHeld()
      requires UnsetIsEmpty(hasBits)
      modifies this`strVal, this`tensorVal, this`graph, this`typeVal, this`dtype, this`boolVal, this`intVal,
               this`uintVal,
               this`doubleVal, this`floatVal
      ensures forall j :: 0 <= j < 20 && IsHeld(j) ==> HeldCell(NO_BITS, j) == O.ClearCell(old(HeldCell(hasBits, j)))
    {
      hide Has, HasAny, O.Clear, O.Inv, O.Bare;
      GroupMasks(hasBits);
      NoBits();
      if HasAny(hasBits, MASK_0F) {
        ClearContents();
      }
      if HasAny(hasBits, MASK_F0) {
        dtype, boolVal, intVal, uintVal := 0, false, 0, 0;
      }
      if HasAny(hasBits, MASK_300) {
        doubleVal, floatVal := 0, 0;
      }
    }

    method ClearContents()
      requires UnsetIsEmpty(hasBits)
      modifies this`strVal, this`tensorVal, this`graph, this`typeVal
      ensures strVal == []
      ensures tensorVal == ClearedPointer(Has(hasBits, HasTensorVal), old(tensorVal))
      ensures graph == ClearedPointer(Has(hasBits, HasGraph), old(graph))
      ensures typeVal == ClearedPointer(Has(hasBits, HasTypeVal), old(typeVal))
    {
      hide Has, O.Clear, O.Inv, O.Bare;
      if Has(hasBits, HasStrVal) { strVal := []; }
      if Has(hasBits, HasTensorVal) { tensorVal := Some(O.Clear(tensorVal.value)); }
      if Has(hasBits, HasGraph) { graph := Some(O.Clear(graph.value)); }
      if Has(hasBits, HasTypeVal) { typeVal := Some(O.Clear(typeVal.value)); }
    }

    method CopyFrom(from: ValueProto)
      requires Valid() && from.Valid() && from.S == S
      modifies this
      ensures Valid() && View() == old(from.View())
      ensures from != this ==> Self() == O.CopyFrom(S, IrValue, old(Self()), from.Self())
    {
      hide Valid, View, Self, O.Inv, O.View, O.Clear, O.MergeFrom, Empty, Merge, Describes;
      if from == this { return; }
      SelfShows();
      from.SelfShows();
      IsDescribed();
      ghost var ts := Family(S, IrValue);
      O.CopyShowsTheSame(S, ts, IrValue, Self(), from.Self());
      Clear();
      MergeFrom(from);
      SelfShows();
    }

    method MergeFrom(from: ValueProto)
      requires from != this && Valid() && from.Valid() && from.S == S
      modifies this
      ensures Valid() && View() == Merge(S, IrValue, old(View()), from.View())
      ensures Self() == O.MergeFrom(S, IrValue, old(Self()), from.Self())
    {
      hide Valid, View, Merge, Describes, HeldCell, ListCell, O.Inv, O.View, O.MergeFrom, O.MergeCell, IR_VALUE_FIELDS,
           UnsetIsEmpty, Self, O.Explicit;
      SelfShows();
      from.SelfShows();
      IsDescribed();
      from.IsDescribed();
      DescribesFields(S);
      ghost var was, more := Self(), from.Self();
      ghost var ts := Family(S, IrValue);
      O.MergeRefines(S, ts, IrValue, was, more);
      FieldFacts();
      unknown := unknown + from.unknown;
      MergeRepeatedFields(from);
      MergeHeldFields(from);
      O.MergeByCells(S, IrValue, was, more, Self());
      ValidBySelf();
    }

    method MergeRepeatedFields(from: ValueProto)
      requires from != this
      modifies this`boolVals, this`intVals, this`uintVals, this`floatVals, this`doubleVals, this`strVals,
            this`tensorVals, this`graphs, this`values, this`dictVal
      ensures |IR_VALUE_FIELDS| == 20
      ensures forall j :: 9 <= j < 19 ==>
                ListCell(j) == O.MergeCell(S, IR_VALUE_FIELDS[j], old(ListCell(j)), from.ListCell(j))
    {
      hide IR_VALUE_FIELDS, O.MergeCell;
      MergeLists(from);
      MergeAllElements(from);
    }

    method MergeLists(from: ValueProto)
      requires from != this
      modifies this`boolVals, this`intVals, this`uintVals, this`floatVals, this`doubleVals, this`strVals
      ensures |IR_VALUE_FIELDS| == 20
      ensures forall j :: 9 <= j < 15 ==>
                ListCell(j) == O.MergeCell(S, IR_VALUE_FIELDS[j], old(ListCell(j)), from.ListCell(j))
    {
      hide IR_VALUE_FIELDS, O.MergeCell;
      FieldCount();
      boolVals := MergeList(IR_VALUE_FIELDS[9], boolVals, from.boolVals);
      intVals := MergeList(IR_VALUE_FIELDS[10], intVals, from.intVals);
      uintVals := MergeList(IR_VALUE_FIELDS[11], uintVals, from.uintVals);
      floatVals := MergeList(IR_VALUE_FIELDS[12], floatVals, from.floatVals);
      doubleVals := MergeList(IR_VALUE_FIELDS[13], doubleVals, from.doubleVals);
      strVals := MergeList(IR_VALUE_FIELDS[14], strVals, from.strVals);
    }

    function MergeList(f: Field, vs: seq<Value>, from: seq<Value>): (r: seq<Value>)
      ensures O.List(r) == O.MergeCell(S, f, O.List(vs), O.List(from))
    {
      vs + from
    }

    method MergeAllElements(from: ValueProto)
      requires from != this
      modifies this`tensorVals, this`graphs, this`values, this`dictVal
      ensures |IR_VALUE_FIELDS| == 20
      ensures forall j :: 15 <= j < 19 ==>
                ListCell(j) == O.MergeCell(S, IR_VALUE_FIELDS[j], old(ListCell(j)), from.ListCell(j))
    {
      hide IR_VALUE_FIELDS, O.MergeCell;
      RepeatedFieldFacts();
      tensorVals := MergeElements(IR_VALUE_FIELDS[15], tensorVals, from.tensorVals);
      graphs := MergeElements(IR_VALUE_FIELDS[16], graphs, from.graphs);
      values := MergeElements(IR_VALUE_FIELDS[17], values, from.values);
      dictVal := MergeElements(IR_VALUE_FIELDS[18], dictVal, from.dictVal);
    }

    /** Elements of another message are merged into spare objects and new ones. */
    function MergeElements(f: Field, c: Elements, from: Elements): (r: Elements)
      requires f.kind.Message?
      ensures r == O.MergeCell(S, f, c, from)
    {
      O.MergeChildren(S, f.kind.target, c.live, c.spare, from.live)
    }

    twostate predicate FirstEightMerged(from: ValueProto)
      reads this`strVal, this`tensorVal, this`graph, this`typeVal, this`dtype, this`boolVal, this`intVal, this`uintVal,
            from
    {
      && strVal == (if Has(from.hasBits, HasStrVal) then from.strVal else old(strVal))
      && tensorVal == MergedPointer(S, IrTensor, Has(from.hasBits, HasTensorVal), old(tensorVal), from.tensorVal)
      && graph == MergedPointer(S, IrGraph, Has(from.hasBits, HasGraph), old(graph), from.graph)
      && typeVal == MergedPointer(S, IrType, Has(from.hasBits, HasTypeVal), old(typeVal), from.typeVal)
      && dtype == (if Has(from.hasBits, HasDType) then from.dtype else old(dtype))
      && boolVal == (if Has(from.hasBits, HasBoolVal) then from.boolVal else old(boolVal))
      && intVal == (if Has(from.hasBits, HasIntVal) then from.intVal else old(intVal))
      && uintVal == (if Has(from.hasBits, HasUIntVal) then from.uintVal else old(uintVal))
    }

    twostate predicate FloatingPointMerged(from: ValueProto)
      reads this`doubleVal, this`floatVal, from
    {
      && doubleVal == (if Has(from.hasBits, HasDoubleVal) then from.doubleVal else old(doubleVal))
      && floatVal == (if Has(from.hasBits, HasFloatVal) then from.floatVal else old(floatVal))
    }

    twostate predicate HeldMerged(from: ValueProto)
      reads this, from
    {
      && FirstEightMerged(from) && FloatingPointMerged(from)
      && hasBits == AfterBlocks(old(hasBits), from.hasBits)
    }

    /** A block may be skipped if its mask selects nothing. */
    twostate lemma SkippedBlocks(from: ValueProto)
      requires unchanged(this)
      ensures !HasAny(from.hasBits, MASK_FF) ==> FirstEightMerged(from)
      ensures !HasAny(from.hasBits, MASK_300) ==> FloatingPointMerged(from)
    {
      hide HasAny, Merge;
      GroupMasks(from.hasBits);
    }

    method MergeHeldFields(from: ValueProto)
      requires from != this && from.UnsetIsEmpty(from.hasBits)
      modifies this`hasBits, this`strVal, this`tensorVal, this`graph, this`typeVal, this`dtype, this`boolVal,
               this`intVal,
               this`uintVal, this`doubleVal, this`floatVal
      ensures |IR_VALUE_FIELDS| == 20
      ensures forall j :: 0 <= j < 20 && IsHeld(j) ==>
                HeldCell(hasBits, j)
                == O.MergeCell(S, IR_VALUE_FIELDS[j], old(HeldCell(hasBits, j)), from.HeldCell(from.hasBits, j))
    {
      hide Has, HasAny, Or, UnsetIsEmpty, HeldCell, O.MergeCell, IR_VALUE_FIELDS, MergedPointer;
      FieldFacts();
      SkippedBlocks(from);
      var cachedHasBits := from.hasBits;
      if HasAny(cachedHasBits, MASK_FF) {
        MergeFirstEight(from);
        hasBits := Or(hasBits, cachedHasBits);
      }
      if HasAny(cachedHasBits, MASK_300) {
        MergeFloatingPoint(from);
        hasBits := Or(hasBits, cachedHasBits);
      }
      assert HeldMerged(from);
      HeldCellsMerged(from);
    }

    twostate lemma HeldCellsMerged(from: ValueProto)
      requires HeldMerged(from) && from.UnsetIsEmpty(from.hasBits)
      ensures |IR_VALUE_FIELDS| == 20
      ensures forall j :: 0 <= j < 20 && IsHeld(j) ==>
                HeldCell(hasBits, j)
                == O.MergeCell(S, IR_VALUE_FIELDS[j], old(HeldCell(hasBits, j)), from.HeldCell(from.hasBits, j))
    {
      hide Has, AfterBlocks, IR_VALUE_FIELDS, HeldCell, HeldMerged, O.MergeCell, UnsetIsEmpty;
      HeldFieldFacts();
      ScalarsMerged(from);
      PointersMerged(from);
    }

    twostate lemma ScalarsMerged(from: ValueProto)
      requires HeldMerged(from) && |IR_VALUE_FIELDS| == 20
      ensures forall j :: 0 <= j < 7 ==>
                HeldCell(hasBits, j)
                == O.MergeCell(S, IR_VALUE_FIELDS[j], old(HeldCell(hasBits, j)), from.HeldCell(from.hasBits, j))
    {
      hide Has, AfterBlocks, IR_VALUE_FIELDS, O.MergeFrom;
      BlocksJoin(old(hasBits), from.hasBits);
    }

    twostate lemma PointersMerged(from: ValueProto)
      requires HeldMerged(from) && from.UnsetIsEmpty(from.hasBits)
      ensures |IR_VALUE_FIELDS| == 20
      ensures forall j :: j == 7 || j == 8 || j == 19 ==>
                HeldCell(hasBits, j)
                == O.MergeCell(S, IR_VALUE_FIELDS[j], old(HeldCell(hasBits, j)), from.HeldCell(from.hasBits, j))
    {
      hide Has, AfterBlocks, IR_VALUE_FIELDS, O.MergeFrom, O.Inv, O.Bare;
      HeldFieldFacts();
      BlocksJoin(old(hasBits), from.hasBits);
    }

    /** The block guarded by mask 0xff. */
    method MergeFirstEight(from: ValueProto)
      requires from != this && from.UnsetIsEmpty(from.hasBits)
      modifies this`strVal, this`tensorVal, this`graph, this`typeVal, this`dtype, this`boolVal, this`intVal,
               this`uintVal
      ensures FirstEightMerged(from)
    {
      hide Has, Merge, Empty, Retained, MergedPointer;
      MergePointers(from);
      var cachedHasBits := from.hasBits;
      if Has(cachedHasBits, HasDType) { dtype := from.dtype; }
      if Has(cachedHasBits, HasBoolVal) { boolVal := from.boolVal; }
      if Has(cachedHasBits, HasIntVal) { intVal := from.intVal; }
      if Has(cachedHasBits, HasUIntVal) { uintVal := from.uintVal; }
    }

    /** The block guarded by mask 0x300. */
    method MergeFloatingPoint(from: ValueProto)
      requires from != this
      modifies this`doubleVal, this`floatVal
      ensures FloatingPointMerged(from)
    {
      if Has(from.hasBits, HasDoubleVal) { doubleVal := from.doubleVal; }
      if Has(from.hasBits, HasFloatVal) { floatVal := from.floatVal; }
    }

    /** A string is replaced; a submessage is merged into the one that is there, if necessary after
        creating it. */
    method MergePointers(from: ValueProto)
      requires from != this && from.UnsetIsEmpty(from.hasBits)
      modifies this`strVal, this`tensorVal, this`graph, this`typeVal
      ensures strVal == (if Has(from.hasBits, HasStrVal) then from.strVal else old(strVal))
      ensures tensorVal == MergedPointer(S, IrTensor, Has(from.hasBits, HasTensorVal), old(tensorVal), from.tensorVal)
      ensures graph == MergedPointer(S, IrGraph, Has(from.hasBits, HasGraph), old(graph), from.graph)
      ensures typeVal == MergedPointer(S, IrType, Has(from.hasBits, HasTypeVal), old(typeVal), from.typeVal)
    {
      hide Has, O.MergeFrom, O.Inv, O.Bare;
      var cachedHasBits := from.hasBits;
      if Has(cachedHasBits, HasStrVal) { strVal := from.strVal; }
      if Has(cachedHasBits, HasTensorVal) {
        tensorVal := Some(O.MergeFrom(S, IrTensor, O.Mutable(S, IrTensor, tensorVal), from.tensorVal.value));
      }
      if Has(cachedHasBits, HasGraph) {
        graph := Some(O.MergeFrom(S, IrGraph, O.Mutable(S, IrGraph, graph), from.graph.value));
      }
      if Has(cachedHasBits, HasTypeVal) {
        typeVal := Some(O.MergeFrom(S, IrType, O.Mutable(S, IrType, typeVal), from.typeVal.value));
      }
    }

    /** After setting the value and the bit of field `k` alone, starting from message `a`. */
    lemma HeldSet(a: Msg, bits: HasBits, bits': HasBits, k: nat)
      requires Describes(S) && k < 20 == |a.slots| && IsHeld(k) && unknown == a.unknown
      requires Wf(S, IrValue, SetSlot(a, k, [ValueAt(k)]))
      requires forall j :: 0 <= j < 20 && j != k ==> Content(bits, j) == a.slots[j].vs
      requires forall p :: Has(bits', p) <==> p == PresenceOf(k) || Has(bits, p)
      ensures ViewOf(bits') == SetSlot(a, k, [ValueAt(k)]) && Wf(S, IrValue, ViewOf(bits'))
    {
      hide Wf, Describes, Has, ValueAt, RepeatedAt, PresenceOf;
      forall j: nat | j < 20 ensures ViewOf(bits').slots[j] == SetSlot(a, k, [ValueAt(k)]).slots[j] {
        if IsHeld(j) { PresenceIsInjective(j, k); }
      }
      assert ViewOf(bits').slots == SetSlot(a, k, [ValueAt(k)]).slots;
    }

    /** `m` is the message at hand and may take `v` in field `k`. */
    ghost predicate MayTake(m: Msg, bits: HasBits, k: nat, v: Value)
      requires k < 20
      reads this
    {
      ValidFor(bits) && m == ViewOf(bits) && Wf(S, IrValue, SetSlot(m, k, [v]))
    }

    /** It has taken it. */
    ghost predicate Took(m: Msg, bits: HasBits, k: nat, v: Value)
      requires k < 20 == |m.slots|
      reads this
    {
      ValidFor(bits) && ViewOf(bits) == SetSlot(m, k, [v])
    }

    method PutBoolVal(ghost m: Msg, v: bool, bits: HasBits) returns (bits': HasBits)
      requires MayTake(m, Or(hasBits, bits), 1, Num(BoolNum(v)))
      modifies this`boolVal
      ensures Took(m, Or(hasBits, bits'), 1, Num(BoolNum(v)))
    {
      hide Wf, Describes, Has, Or, Set, ViewOf, Empty, Retained, RepeatedAt, Held;
      SetOr(hasBits, bits, HasBoolVal);
      SetHas(Or(hasBits, bits), HasBoolVal);
      boolVal, bits' := v, Set(bits, HasBoolVal);
      HeldSet(m, Or(hasBits, bits), Or(hasBits, bits'), 1);
    }

    method PutIntVal(ghost m: Msg, v: int64, bits: HasBits) returns (bits': HasBits)
      requires MayTake(m, Or(hasBits, bits), 2, Num(v))
      modifies this`intVal
      ensures Took(m, Or(hasBits, bits'), 2, Num(v))
    {
      hide Wf, Describes, Has, Or, Set, ViewOf, Empty, Retained, RepeatedAt, Held;
      SetOr(hasBits, bits, HasIntVal);
      SetHas(Or(hasBits, bits), HasIntVal);
      intVal, bits' := v, Set(bits, HasIntVal);
      HeldSet(m, Or(hasBits, bits), Or(hasBits, bits'), 2);
    }

    method PutUIntVal(ghost m: Msg, v: word64, bits: HasBits) returns (bits': HasBits)
      requires MayTake(m, Or(hasBits, bits), 3, Num(v))
      modifies this`uintVal
      ensures Took(m, Or(hasBits, bits'), 3, Num(v))
    {
      hide Wf, Describes, Has, Or, Set, ViewOf, Empty, Retained, RepeatedAt, Held;
      SetOr(hasBits, bits, HasUIntVal);
      SetHas(Or(hasBits, bits), HasUIntVal);
      uintVal, bits' := v, Set(bits, HasUIntVal);
      HeldSet(m, Or(hasBits, bits), Or(hasBits, bits'), 3);
    }

    method PutFloatVal(ghost m: Msg, v: word32, bits: HasBits) returns (bits': HasBits)
      requires MayTake(m, Or(hasBits, bits), 4, Num(v))
      modifies this`floatVal
      ensures Took(m, Or(hasBits, bits'), 4, Num(v))
    {
      hide Wf, Describes, Has, Or, Set, ViewOf, Empty, Retained, RepeatedAt, Held;
      SetOr(hasBits, bits, HasFloatVal);
      SetHas(Or(hasBits, bits), HasFloatVal);
      floatVal, bits' := v, Set(bits, HasFloatVal);
      HeldSet(m, Or(hasBits, bits), Or(hasBits, bits'), 4);
    }

    method PutDoubleVal(ghost m: Msg, v: word64, bits: HasBits) returns (bits': HasBits)
      requires MayTake(m, Or(hasBits, bits), 5, Num(v))
      modifies this`doubleVal
      ensures Took(m, Or(hasBits, bits'), 5, Num(v))
    {
      hide Wf, Describes, Has, Or, Set, ViewOf, Empty, Retained, RepeatedAt, Held;
      SetOr(hasBits, bits, HasDoubleVal);
      SetHas(Or(hasBits, bits), HasDoubleVal);
      doubleVal, bits' := v, Set(bits, HasDoubleVal);
      HeldSet(m, Or(hasBits, bits), Or(hasBits, bits'), 5);
    }

    method SetDType(ghost m: Msg, v: int32, ghost bits: HasBits)
      requires MayTake(m, Or(hasBits, bits), 0, Num(v))
      modifies this`hasBits, this`dtype
      ensures Took(m, Or(hasBits, bits), 0, Num(v))
    {
      hide Wf, Describes, Has, Or, Set, ViewOf, Empty, Retained, RepeatedAt, Held;
      ghost var was := Or(hasBits, bits);
      SetOr(hasBits, bits, HasDType);
      SetHas(was, HasDType);
      hasBits, dtype := Set(hasBits, HasDType), v;
      HeldSet(m, was, Or(hasBits, bits), 0);
    }

    method SetStrVal(ghost m: Msg, v: bytes, ghost bits: HasBits)
      requires MayTake(m, Or(hasBits, bits), 6, Data(v))
      modifies this`hasBits, this`strVal
      ensures Took(m, Or(hasBits, bits), 6, Data(v))
    {
      hide Wf, Describes, Has, Or, Set, ViewOf, Empty, Retained, RepeatedAt, Held;
      ghost var was := Or(hasBits, bits);
      SetOr(hasBits, bits, HasStrVal);
      SetHas(was, HasStrVal);
      hasBits, strVal := Set(hasBits, HasStrVal), v;
      HeldSet(m, was, Or(hasBits, bits), 6);
    }

    method SetTensorVal(ghost m: Msg, v: O.Object, ghost bits: HasBits)
      requires MayTake(m, Or(hasBits, bits), 7, Sub(O.View(v))) && O.Inv(S, IrTensor, v)
      modifies this`hasBits, this`tensorVal
      ensures Took(m, Or(hasBits, bits), 7, Sub(O.View(v)))
    {
      hide Wf, Describes, Has, Or, Set, ViewOf, Empty, RepeatedAt, Held, O.View, O.Inv, Stocked;
      ghost var was := Or(hasBits, bits);
      SetOr(hasBits, bits, HasTensorVal);
      SetHas(was, HasTensorVal);
      hasBits, tensorVal := Set(hasBits, HasTensorVal), Some(v);
      HeldSet(m, was, Or(hasBits, bits), 7);
    }

    method SetGraph(ghost m: Msg, v: O.Object, ghost bits: HasBits)
      requires MayTake(m, Or(hasBits, bits), 8, Sub(O.View(v))) && O.Inv(S, IrGraph, v)
      modifies this`hasBits, this`graph
      ensures Took(m, Or(hasBits, bits), 8, Sub(O.View(v)))
    {
      hide Wf, Describes, Has, Or, Set, ViewOf, Empty, RepeatedAt, Held, O.View, O.Inv, Stocked;
      ghost var was := Or(hasBits, bits);
      SetOr(hasBits, bits, HasGraph);
      SetHas(was, HasGraph);
      hasBits, graph := Set(hasBits, HasGraph), Some(v);
      HeldSet(m, was, Or(hasBits, bits), 8);
    }

    method SetTypeVal(ghost m: Msg, v: O.Object, ghost bits: HasBits)
      requires MayTake(m, Or(hasBits, bits), 19, Sub(O.View(v))) && O.Inv(S, IrType, v)
      modifies this`hasBits, this`typeVal
      ensures Took(m, Or(hasBits, bits), 19, Sub(O.View(v)))
    {
      hide Wf, Describes, Has, Or, Set, ViewOf, Empty, RepeatedAt, Held, O.View, O.Inv, Stocked;
      ghost var was := Or(hasBits, bits);
      SetOr(hasBits, bits, HasTypeVal);
      SetHas(was, HasTypeVal);
      hasBits, typeVal := Set(hasBits, HasTypeVal), Some(v);
      HeldSet(m, was, Or(hasBits, bits), 19);
    }

    /** The cases of fields 2 to 6.  A bit is set in `bits` even if reading the value then fails. */
    method ParseScalar(ghost b: bytes, tag: nat, b1: bytes, bits: HasBits)
      returns (ok: bool, taken: bool, rest: bytes, bits': HasBits)
      requires ValidFor(Or(hasBits, bits)) && b != [] && ReadTag(b) == Ok(tag, b1) && 2 <= tag / 8 <= 6
      modifies this`boolVal, this`intVal, this`uintVal, this`floatVal, this`doubleVal
      ensures taken ==>
                && ValidFor(Or(hasBits, bits'))
                && Handled(S, IrValue, ok, old(ViewOf(Or(hasBits, bits))), b, ViewOf(Or(hasBits, bits')), rest)
      ensures !taken ==> ValidFor(Or(hasBits, bits)) && ViewOf(Or(hasBits, bits)) == old(ViewOf(Or(hasBits, bits)))
      ensures !taken ==> bits' == bits && !Takes(IR_VALUE_FIELDS[tag / 8 - 1], tag % 8)
    {
      hide Wf, Describes, AtPlainField, StepsTo, Fails, ReadTag, IR_VALUE_FIELDS, Or, ViewOf, UnsetIsEmpty;
      HeldFieldFacts();
      ghost var m := ViewOf(Or(hasBits, bits));
      ok, taken, rest, bits' := false, false, b1, bits;
      match tag / 8 {
        case 2 =>
          if tag % 256 == 16 {
            AtCase(S, m, 1, 0, tag, b, b1);
            var n;
            ok, n, rest := ReadNumber(S, IrValue, m, 1, IR_VALUE_FIELDS[1], b, b1);
            bits' := PutBoolVal(m, n != 0, bits);
            taken := true;
          }
        case 3 =>
          if tag % 256 == 24 {
            AtCase(S, m, 2, 0, tag, b, b1);
            var n;
            ok, n, rest := ReadNumber(S, IrValue, m, 2, IR_VALUE_FIELDS[2], b, b1);
            bits' := PutIntVal(m, n, bits);
            taken := true;
          }
        case 4 =>
          if tag % 256 == 32 {
            AtCase(S, m, 3, 0, tag, b, b1);
            var n;
            ok, n, rest := ReadNumber(S, IrValue, m, 3, IR_VALUE_FIELDS[3], b, b1);
            bits' := PutUIntVal(m, n, bits);
            taken := true;
          }
        case 5 =>
          if tag % 256 == 45 {
            AtCase(S, m, 4, 5, tag, b, b1);
            var n;
            ok, n, rest := ReadNumber(S, IrValue, m, 4, IR_VALUE_FIELDS[4], b, b1);
            bits' := PutFloatVal(m, n, bits);
            taken := true;
          }
        case 6 =>
          if tag % 256 == 49 {
            AtCase(S, m, 5, 1, tag, b, b1);
            var n;
            ok, n, rest := ReadNumber(S, IrValue, m, 5, IR_VALUE_FIELDS[5], b, b1);
            bits' := PutDoubleVal(m, n, bits);
            taken := true;
          }
        case _ =>
      }
    }

    /** The cases of fields 1, 7, 8, 9 and 20: an undeclared enum value goes to the unknown fields,
        submessages are parsed into the ones that are there. */
    method ParseContent(ghost b: bytes, tag: nat, b1: bytes, ghost bits: HasBits)
      returns (ok: bool, taken: bool, rest: bytes)
      requires ValidFor(Or(hasBits, bits)) && b != [] && ReadTag(b) == Ok(tag, b1) && tag / 8 in {1, 7, 8, 9, 20}
      modifies this`hasBits, this`dtype, this`strVal, this`tensorVal, this`graph, this`typeVal, this`unknown
      ensures taken ==>
                && ValidFor(Or(hasBits, bits))
                && Handled(S, IrValue, ok, old(ViewOf(Or(hasBits, bits))), b, ViewOf(Or(hasBits, bits)), rest)
      ensures !taken ==> ValidFor(Or(hasBits, bits)) && ViewOf(Or(hasBits, bits)) == old(ViewOf(Or(hasBits, bits)))
      ensures !taken ==> !Takes(IR_VALUE_FIELDS[tag / 8 - 1], tag % 8)
    {
      hide Wf, Describes, AtPlainField, StepsTo, Fails, ReadTag, IR_VALUE_FIELDS, Or, ViewOf, UnsetIsEmpty, FromWire,
           Base;
      HeldFieldFacts();
      ghost var m := ViewOf(Or(hasBits, bits));
      ok, taken, rest := false, false, b1;
      match tag / 8 {
        case 1 =>
          if tag % 256 == 8 {
            AtCase(S, m, 0, 0, tag, b, b1);
            ok, rest := ParseDType(m, b, b1, bits);
            taken := true;
          }
        case 7 =>
          if tag % 256 == 58 {
            AtCase(S, m, 6, 2, tag, b, b1);
            var d;
            ok, d, rest := ReadString(S, IrValue, m, 6, IR_VALUE_FIELDS[6], b, b1);
            SetStrVal(m, d, bits);
            taken := true;
          }
        case 8 =>
          if tag % 256 == 66 {
            AtCase(S, m, 7, 2, tag, b, b1);
            ok, rest := ParseIntoTensorVal(m, b, b1, bits);
            taken := true;
          }
        case 9 =>
          if tag % 256 == 74 {
            AtCase(S, m, 8, 2, tag, b, b1);
            ok, rest := ParseIntoGraph(m, b, b1, bits);
            taken := true;
          }
        case 20 =>
          if tag % 256 == 162 {
            AtCase(S, m, 19, 2, tag, b, b1);
            ok, rest := ParseIntoTypeVal(m, b, b1, bits);
            taken := true;
          }
        case _ =>
      }
    }

    // `ParseMessage(_internal_mutable_x(), ptr)`: the bit is set first, and the submessage stays half parsed
    // if the nested parse fails.

    method ParseIntoTensorVal(ghost m: Msg, ghost b: bytes, b1: bytes, ghost bits: HasBits)
      returns (ok: bool, rest: bytes)
      requires ValidFor(Or(hasBits, bits)) && m == ViewOf(Or(hasBits, bits))
      requires AtPlainField(S, IrValue, m, 7, IR_VALUE_FIELDS[7], 2, b, b1)
      modifies this`hasBits, this`tensorVal
      ensures ValidFor(Or(hasBits, bits)) && Handled(S, IrValue, ok, m, b, ViewOf(Or(hasBits, bits)), rest)
    {
      hide Wf, Describes, AtPlainField, StepsTo, Fails, IR_VALUE_FIELDS, Or, ViewOf, UnsetIsEmpty, O.Inv, O.View, Base;
      HeldFieldFacts();
      PointeeIsBase(m, Or(hasBits, bits));
      ghost var ts := Family(S, IrTensor);
      var o;
      ok, o, rest := O.ReadObject(S, ts, IrValue, m, 7, IR_VALUE_FIELDS[7], O.Mutable(S, IrTensor, tensorVal), b, b1);
      SetTensorVal(m, o, bits);
    }

    method ParseIntoGraph(ghost m: Msg, ghost b: bytes, b1: bytes, ghost bits: HasBits)
      returns (ok: bool, rest: bytes)
      requires ValidFor(Or(hasBits, bits)) && m == ViewOf(Or(hasBits, bits))
      requires AtPlainField(S, IrValue, m, 8, IR_VALUE_FIELDS[8], 2, b, b1)
      modifies this`hasBits, this`graph
      ensures ValidFor(Or(hasBits, bits)) && Handled(S, IrValue, ok, m, b, ViewOf(Or(hasBits, bits)), rest)
    {
      hide Wf, Describes, AtPlainField, StepsTo, Fails, IR_VALUE_FIELDS, Or, ViewOf, UnsetIsEmpty, O.Inv, O.View, Base;
      HeldFieldFacts();
      PointeeIsBase(m, Or(hasBits, bits));
      ghost var ts := Family(S, IrGraph);
      var o;
      ok, o, rest := O.ReadObject(S, ts, IrValue, m, 8, IR_VALUE_FIELDS[8], O.Mutable(S, IrGraph, graph), b, b1);
      SetGraph(m, o, bits);
    }

    method ParseIntoTypeVal(ghost m: Msg, ghost b: bytes, b1: bytes, ghost bits: HasBits)
      returns (ok: bool, rest: bytes)
      requires ValidFor(Or(hasBits, bits)) && m == ViewOf(Or(hasBits, bits))
      requires AtPlainField(S, IrValue, m, 19, IR_VALUE_FIELDS[19], 2, b, b1)
      modifies this`hasBits, this`typeVal
      ensures ValidFor(Or(hasBits, bits)) && Handled(S, IrValue, ok, m, b, ViewOf(Or(hasBits, bits)), rest)
    {
      hide Wf, Describes, AtPlainField, StepsTo, Fails, IR_VALUE_FIELDS, Or, ViewOf, UnsetIsEmpty, O.Inv, O.View, Base;
      HeldFieldFacts();
      PointeeIsBase(m, Or(hasBits, bits));
      ghost var ts := Family(S, IrType);
      var o;
      ok, o, rest := O.ReadObject(S, ts, IrValue, m, 19, IR_VALUE_FIELDS[19], O.Mutable(S, IrType, typeVal), b, b1);
      SetTypeVal(m, o, bits);
    }

    /** The objects that are there, or new ones, show what the message has in these fields. */
    lemma PointeeIsBase(m: Msg, bits: HasBits)
      requires ValidFor(bits) && m == ViewOf(bits)
      ensures IsBase(IrTensor, At(m, 7), tensorVal) && IsBase(IrGraph, At(m, 8), graph)
      ensures IsBase(IrType, At(m, 19), typeVal)
    {
      hide Wf, Describes, O.Inv, O.View, O.New, Has, Empty, UnsetIsZero, Retained;
      PointerIsBase(IrTensor, Has(bits, HasTensorVal), tensorVal);
      PointerIsBase(IrGraph, Has(bits, HasGraph), graph);
      PointerIsBase(IrType, Has(bits, HasTypeVal), typeVal);
    }

    ghost predicate IsBase(t: MessageType, had: seq<Value>, p: Option<O.Object>) {
      O.Inv(S, t, O.Mutable(S, t, p)) && O.View(O.Mutable(S, t, p)) == Base(S, t, had)
    }

    lemma PointerIsBase(t: MessageType, has: bool, p: Option<O.Object>)
      requires Describes(S) && t in CHILD_TYPES && Retained(S, t, has, p)
      ensures IsBase(t, Held(has, Sub(Pointee(S, t, p))), p)
    {
      hide Describes, O.Inv, O.View, O.New, Empty;
      PointerIsMutable(S, t, has, p);
      if !has { RetainedIsEmpty(S, t, p); }
    }

    method AddUnknown(ghost m: Msg, more: seq<Record>, ghost bits: HasBits)
      requires ValidFor(bits) && m == ViewOf(bits) && Wf(S, IrValue, m.(unknown := m.unknown + more))
      modifies this`unknown
      ensures ValidFor(bits) && ViewOf(bits) == m.(unknown := m.unknown + more)
    {
      hide Wf, Describes, UnsetIsEmpty, HeldAt, RepeatedAt;
      unknown := unknown + more;
      assert ViewOf(bits).slots == m.slots;
    }

    method ParseDType(ghost m: Msg, ghost b: bytes, b1: bytes, ghost bits: HasBits) returns (ok: bool, rest: bytes)
      requires ValidFor(Or(hasBits, bits)) && m == ViewOf(Or(hasBits, bits))
      requires AtPlainField(S, IrValue, m, 0, IR_VALUE_FIELDS[0], 0, b, b1)
      modifies this`hasBits, this`dtype, this`unknown
      ensures ValidFor(Or(hasBits, bits)) && Handled(S, IrValue, ok, m, b, ViewOf(Or(hasBits, bits)), rest)
    {
      hide Wf, Describes, AtPlainField, StepsTo, Fails, ReadTag, IR_VALUE_FIELDS, Or, ViewOf, UnsetIsEmpty, FromWire;
      HeldFieldFacts();
      var v;
      ok, v, rest := ReadEnum(S, IrValue, m, 0, IR_VALUE_FIELDS[0], b, b1);
      if !ok { return; }
      if DataTypeIsValid(v) {
        FromWireInRange(DATA_TYPE, v);
        SetDType(m, FromWire(DATA_TYPE, v), bits);
      } else {
        AddUnknown(m, [Record(1, Scalar(v))], Or(hasBits, bits));
      }
    }

    /** After appending to field `k` alone, starting from message `a`. */
    lemma RepeatedSet(a: Msg, bits: HasBits, k: nat)
      requires Describes(S) && 9 <= k < 19 && |a.slots| == 20 && unknown == a.unknown
      requires UnsetIsEmpty(bits) && Stocked()
      requires Wf(S, IrValue, SetSlot(a, k, RepeatedAt(k)))
      requires forall j :: 0 <= j < 20 && IsHeld(j) ==> HeldAt(bits, j) == a.slots[j].vs
      requires forall j :: 9 <= j < 19 && j != k ==> RepeatedAt(j) == a.slots[j].vs
      ensures ValidFor(bits) && ViewOf(bits) == SetSlot(a, k, RepeatedAt(k))
    {
      hide Wf, Describes, HeldAt, RepeatedAt, UnsetIsEmpty;
      assert ViewOf(bits).slots == SetSlot(a, k, RepeatedAt(k)).slots;
    }

    /** `m` is the message at hand and may take `vs` at the end of field `k`. */
    ghost predicate MayGrow(m: Msg, bits: HasBits, k: nat, vs: seq<Value>)
      requires k < 20
      reads this
    {
      ValidFor(bits) && m == ViewOf(bits) && Wf(S, IrValue, SetSlot(m, k, At(m, k) + vs))
    }

    /** It has taken them. */
    ghost predicate Grew(m: Msg, bits: HasBits, k: nat, vs: seq<Value>)
      requires k < 20 == |m.slots|
      reads this
    {
      ValidFor(bits) && ViewOf(bits) == SetSlot(m, k, At(m, k) + vs)
    }

    method AddBoolVals(ghost m: Msg, vs: seq<Value>, ghost bits: HasBits)
      requires MayGrow(m, bits, 9, vs)
      modifies this`boolVals
      ensures Grew(m, bits, 9, vs)
    {
      hide Wf, Describes, ViewOf, UnsetIsEmpty, HeldAt;
      boolVals := boolVals + vs;
      RepeatedSet(m, bits, 9);
    }

    method AddIntVals(ghost m: Msg, vs: seq<Value>, ghost bits: HasBits)
      requires MayGrow(m, bits, 10, vs)
      modifies this`intVals
      ensures Grew(m, bits, 10, vs)
    {
      hide Wf, Describes, ViewOf, UnsetIsEmpty, HeldAt;
      intVals := intVals + vs;
      RepeatedSet(m, bits, 10);
    }

    method AddUIntVals(ghost m: Msg, vs: seq<Value>, ghost bits: HasBits)
      requires MayGrow(m, bits, 11, vs)
      modifies this`uintVals
      ensures Grew(m, bits, 11, vs)
    {
      hide Wf, Describes, ViewOf, UnsetIsEmpty, HeldAt;
      uintVals := uintVals + vs;
      RepeatedSet(m, bits, 11);
    }

    method AddFloatVals(ghost m: Msg, vs: seq<Value>, ghost bits: HasBits)
      requires MayGrow(m, bits, 12, vs)
      modifies this`floatVals
      ensures Grew(m, bits, 12, vs)
    {
      hide Wf, Describes, ViewOf, UnsetIsEmpty, HeldAt;
      floatVals := floatVals + vs;
      RepeatedSet(m, bits, 12);
    }

    method AddDoubleVals(ghost m: Msg, vs: seq<Value>, ghost bits: HasBits)
      requires MayGrow(m, bits, 13, vs)
      modifies this`doubleVals
      ensures Grew(m, bits, 13, vs)
    {
      hide Wf, Describes, ViewOf, UnsetIsEmpty, HeldAt;
      doubleVals := doubleVals + vs;
      RepeatedSet(m, bits, 13);
    }

    method AddStrVals(ghost m: Msg, vs: seq<Value>, ghost bits: HasBits)
      requires MayGrow(m, bits, 14, vs)
      modifies this`strVals
      ensures Grew(m, bits, 14, vs)
    {
      hide Wf, Describes, ViewOf, UnsetIsEmpty, HeldAt;
      strVals := strVals + vs;
      RepeatedSet(m, bits, 14);
    }

    /** `m` is the message at hand, and field `k` may become `c`. */
    ghost predicate MayStock(m: Msg, bits: HasBits, k: nat, c: O.Cell)
      requires 15 <= k < 19
      reads this
    {
      && ValidFor(bits) && m == ViewOf(bits)
      && O.InvCell(S, IR_VALUE_FIELDS[k], c) && Wf(S, IrValue, SetSlot(m, k, O.Shown(c)))
    }

    method SetTensorVals(ghost m: Msg, c: Elements, ghost bits: HasBits)
      requires MayStock(m, bits, 15, c)
      modifies this`tensorVals
      ensures ValidFor(bits) && ViewOf(bits) == SetSlot(m, 15, O.Shown(c))
    {
      hide Wf, Describes, ViewOf, UnsetIsEmpty, HeldAt, O.InvCell, O.Shown, IR_VALUE_FIELDS;
      tensorVals := c;
      RepeatedSet(m, bits, 15);
    }

    method SetGraphs(ghost m: Msg, c: Elements, ghost bits: HasBits)
      requires MayStock(m, bits, 16, c)
      modifies this`graphs
      ensures ValidFor(bits) && ViewOf(bits) == SetSlot(m, 16, O.Shown(c))
    {
      hide Wf, Describes, ViewOf, UnsetIsEmpty, HeldAt, O.InvCell, O.Shown, IR_VALUE_FIELDS;
      graphs := c;
      RepeatedSet(m, bits, 16);
    }

    method SetValues(ghost m: Msg, c: Elements, ghost bits: HasBits)
      requires MayStock(m, bits, 17, c)
      modifies this`values
      ensures ValidFor(bits) && ViewOf(bits) == SetSlot(m, 17, O.Shown(c))
    {
      hide Wf, Describes, ViewOf, UnsetIsEmpty, HeldAt, O.InvCell, O.Shown, IR_VALUE_FIELDS;
      values := c;
      RepeatedSet(m, bits, 17);
    }

    method SetDictVal(ghost m: Msg, c: Elements, ghost bits: HasBits)
      requires MayStock(m, bits, 18, c)
      modifies this`dictVal
      ensures ValidFor(bits) && ViewOf(bits) == SetSlot(m, 18, O.Shown(c))
    {
      hide Wf, Describes, ViewOf, UnsetIsEmpty, HeldAt, O.InvCell, O.Shown, IR_VALUE_FIELDS;
      dictVal := c;
      RepeatedSet(m, bits, 18);
    }

    /** The cases of fields 10 to 14, packed or one by one. */
    method ParseNumbers(ghost b: bytes, tag: nat, b1: bytes, ghost bits: HasBits)
      returns (ok: bool, taken: bool, rest: bytes)
      requires ValidFor(Or(hasBits, bits)) && b != [] && ReadTag(b) == Ok(tag, b1) && 10 <= tag / 8 <= 14
      modifies this`boolVals, this`intVals, this`uintVals, this`floatVals, this`doubleVals
      ensures taken ==>
                && ValidFor(Or(hasBits, bits))
                && Handled(S, IrValue, ok, old(ViewOf(Or(hasBits, bits))), b, ViewOf(Or(hasBits, bits)), rest)
      ensures !taken ==> ValidFor(Or(hasBits, bits)) && ViewOf(Or(hasBits, bits)) == old(ViewOf(Or(hasBits, bits)))
      ensures !taken ==> !Takes(IR_VALUE_FIELDS[tag / 8 - 1], tag % 8)
    {
      hide Wf, Describes, AtPlainField, StepsTo, Fails, ReadTag, IR_VALUE_FIELDS, Or, ViewOf, UnsetIsEmpty, HeldAt,
           RepeatedAt;
      RepeatedFieldFacts();
      ghost var m := ViewOf(Or(hasBits, bits));
      ok, taken, rest := false, false, b1;
      var vs;
      match tag / 8 {
        case 10 =>
          if tag % 256 == 80 || tag % 256 == 82 {
            AtCase(S, m, 9, tag % 8, tag, b, b1);
            ok, vs, rest := ReadRepeated(S, IrValue, m, 9, IR_VALUE_FIELDS[9], tag, b, b1);
            AddBoolVals(m, vs, Or(hasBits, bits));
            taken := true;
          }
        case 11 =>
          if tag % 256 == 88 || tag % 256 == 90 {
            AtCase(S, m, 10, tag % 8, tag, b, b1);
            ok, vs, rest := ReadRepeated(S, IrValue, m, 10, IR_VALUE_FIELDS[10], tag, b, b1);
            AddIntVals(m, vs, Or(hasBits, bits));
            taken := true;
          }
        case 12 =>
          if tag % 256 == 96 || tag % 256 == 98 {
            AtCase(S, m, 11, tag % 8, tag, b, b1);
            ok, vs, rest := ReadRepeated(S, IrValue, m, 11, IR_VALUE_FIELDS[11], tag, b, b1);
            AddUIntVals(m, vs, Or(hasBits, bits));
            taken := true;
          }
        case 13 =>
          if tag % 256 == 109 || tag % 256 == 106 {
            AtCase(S, m, 12, tag % 8, tag, b, b1);
            ok, vs, rest := ReadRepeated(S, IrValue, m, 12, IR_VALUE_FIELDS[12], tag, b, b1);
            AddFloatVals(m, vs, Or(hasBits, bits));
            taken := true;
          }
        case 14 =>
          if tag % 256 == 113 || tag % 256 == 114 {
            AtCase(S, m, 13, tag % 8, tag, b, b1);
            ok, vs, rest := ReadRepeated(S, IrValue, m, 13, IR_VALUE_FIELDS[13], tag, b, b1);
            AddDoubleVals(m, vs, Or(hasBits, bits));
            taken := true;
          }
        case _ =>
      }
    }

    lemma ElementsAreShown()
      ensures RepeatedAt(15) == O.Shown(tensorVals) && RepeatedAt(16) == O.Shown(graphs)
      ensures RepeatedAt(17) == O.Shown(values) && RepeatedAt(18) == O.Shown(dictVal)
      ensures |O.Shown(tensorVals)| == |tensorVals.live| && |O.Shown(graphs)| == |graphs.live|
      ensures |O.Shown(values)| == |values.live| && |O.Shown(dictVal)| == |dictVal.live|
    {
    }

    method ReadElementsOf(ghost m: Msg, k: nat, cell: Elements, ghost b: bytes, b1: bytes, ghost bits: HasBits)
      returns (ok: bool, c: Elements, rest: bytes)
      requires ValidFor(bits) && m == ViewOf(bits) && 15 <= k < 19 && O.InvCell(S, IR_VALUE_FIELDS[k], cell)
      requires O.Shown(cell) == RepeatedAt(k) && AtPlainField(S, IrValue, m, k, IR_VALUE_FIELDS[k], 2, b, b1)
      ensures Handled(S, IrValue, ok, m, b, SetSlot(m, k, O.Shown(c)), rest)
      ensures O.InvCell(S, IR_VALUE_FIELDS[k], c) && Wf(S, IrValue, SetSlot(m, k, O.Shown(c)))
    {
      hide Wf, AtPlainField, StepsTo, Fails, IR_VALUE_FIELDS, UnsetIsEmpty, O.InvCell, O.Shown, Describes, ViewOf,
           RepeatedAt;
      RepeatedFieldFacts();
      ghost var ts := ElementFamily(S, k);
      var r;
      ok, r, rest := O.ReadElements(S, ts, IrValue, m, k, IR_VALUE_FIELDS[k], cell, b, b1);
      O.HasChildren(S, IR_VALUE_FIELDS[k], r);
      c := r;
    }

    /** The cases of fields 15 to 19. */
    method ParseElements(ghost b: bytes, tag: nat, b1: bytes, ghost bits: HasBits)
      returns (ok: bool, taken: bool, rest: bytes)
      requires ValidFor(Or(hasBits, bits)) && b != [] && ReadTag(b) == Ok(tag, b1) && 15 <= tag / 8 <= 19
      modifies this`strVals, this`tensorVals, this`graphs, this`values, this`dictVal
      ensures taken ==>
                && ValidFor(Or(hasBits, bits))
                && Handled(S, IrValue, ok, old(ViewOf(Or(hasBits, bits))), b, ViewOf(Or(hasBits, bits)), rest)
      ensures !taken ==> ValidFor(Or(hasBits, bits)) && ViewOf(Or(hasBits, bits)) == old(ViewOf(Or(hasBits, bits)))
      ensures !taken ==> !Takes(IR_VALUE_FIELDS[tag / 8 - 1], tag % 8)
    {
      hide Wf, Describes, AtPlainField, StepsTo, Fails, ReadTag, IR_VALUE_FIELDS, Or, ViewOf, UnsetIsEmpty, HeldAt,
           RepeatedAt;
      RepeatedFieldFacts();
      ElementsAreShown();
      ghost var m := ViewOf(Or(hasBits, bits));
      ok, taken, rest := false, false, b1;
      var vs, c;
      match tag / 8 {
        case 15 =>
          if tag % 256 == 122 {
            AtCase(S, m, 14, tag % 8, tag, b, b1);
            ok, vs, rest := ReadRepeated(S, IrValue, m, 14, IR_VALUE_FIELDS[14], tag, b, b1);
            AddStrVals(m, vs, Or(hasBits, bits));
            taken := true;
          }
        case 16 =>
          if tag % 256 == 130 {
            AtCase(S, m, 15, 2, tag, b, b1);
            ok, c, rest := ReadElementsOf(m, 15, tensorVals, b, b1, Or(hasBits, bits));
            SetTensorVals(m, c, Or(hasBits, bits));
            taken := true;
          }
        case 17 =>
          if tag % 256 == 138 {
            AtCase(S, m, 16, 2, tag, b, b1);
            ok, c, rest := ReadElementsOf(m, 16, graphs, b, b1, Or(hasBits, bits));
            SetGraphs(m, c, Or(hasBits, bits));
            taken := true;
          }
        case 18 =>
          if tag % 256 == 146 {
            AtCase(S, m, 17, 2, tag, b, b1);
            ok, c, rest := ReadElementsOf(m, 17, values, b, b1, Or(hasBits, bits));
            SetValues(m, c, Or(hasBits, bits));
            taken := true;
          }
        case 19 =>
          if tag % 256 == 154 {
            AtCase(S, m, 18, 2, tag, b, b1);
            ok, c, rest := ReadElementsOf(m, 18, dictVal, b, b1, Or(hasBits, bits));
            SetDictVal(m, c, Or(hasBits, bits));
            taken := true;
          }
        case _ =>
      }
    }

    /** One turn of the dispatch loop. */
    method ParseField(ghost b: bytes, tag: nat, b1: bytes, bits: HasBits) returns (ok: bool, rest: bytes,
                      bits': HasBits)
      requires ValidFor(Or(hasBits, bits)) && b != [] && ReadTag(b) == Ok(tag, b1)
      modifies this
      ensures ValidFor(Or(hasBits, bits'))
      ensures Handled(S, IrValue, ok, old(ViewOf(Or(hasBits, bits))), b, ViewOf(Or(hasBits, bits')), rest)
    {
      hide Wf, WfSchema, StepsTo, Fails, ReadTag, IR_VALUE_FIELDS, Or, ViewOf, UnsetIsEmpty, Takes;
      FieldFacts();
      var taken := false;
      bits' := bits;
      if tag / 8 in {1, 7, 8, 9, 20} {
        ok, taken, rest := ParseContent(b, tag, b1, bits);
      } else if 2 <= tag / 8 <= 6 {
        ok, taken, rest, bits' := ParseScalar(b, tag, b1, bits);
      } else if 10 <= tag / 8 <= 14 {
        ok, taken, rest := ParseNumbers(b, tag, b1, bits);
      } else if 15 <= tag / 8 <= 19 {
        ok, taken, rest := ParseElements(b, tag, b1, bits);
      }
      if !taken {
        ok, rest := ParseUnknown(b, tag, b1, bits);
      }
    }

    method ParseUnknown(ghost b: bytes, tag: nat, b1: bytes, ghost bits: HasBits) returns (ok: bool, rest: bytes)
      requires ValidFor(Or(hasBits, bits)) && b != [] && ReadTag(b) == Ok(tag, b1)
      requires 1 <= tag / 8 <= 20 ==> !Takes(IR_VALUE_FIELDS[tag / 8 - 1], tag % 8)
      modifies this`unknown
      ensures ValidFor(Or(hasBits, bits))
      ensures Handled(S, IrValue, ok, old(ViewOf(Or(hasBits, bits))), b, ViewOf(Or(hasBits, bits)), rest)
    {
      hide Wf, WfSchema, StepsTo, Fails, ReadTag, IR_VALUE_FIELDS, Or, ViewOf, UnsetIsEmpty, Takes, Find;
      FieldFacts();
      ghost var m := ViewOf(Or(hasBits, bits));
      var more;
      ok, more, rest := ReadUnknown(S, IrValue, m, b, tag, b1);
      AddUnknown(m, more, Or(hasBits, bits));
    }

    /** The dispatch loop.  The bits of scalars are collected in a local word and added at the end,
        also when the parse fails. */
    method InternalParse(input: bytes) returns (ok: bool)
      requires Valid()
      modifies this
      ensures Valid()
      ensures ok <==> ParseInto(S, IrValue, old(View()), input).Some?
      ensures ok ==> Some(View()) == ParseInto(S, IrValue, old(View()), input)
    {
      hide Wf, WfSchema, ViewOf, UnsetIsEmpty, Or, IR_VALUE_FIELDS;
      OrLaws(hasBits, NO_BITS);
      var rest, bits := input, NO_BITS;
      ok := true;
      while ok && rest != []
        invariant ValidFor(Or(hasBits, bits))
        invariant if ok then ParseInto(S, IrValue, ViewOf(Or(hasBits, bits)), rest)
                             == ParseInto(S, IrValue, old(View()), input)
                  else ParseInto(S, IrValue, old(View()), input).None?
        decreases ok, |rest|
      {
        match ReadTag(rest) {
          case Fail =>
            ReadFailureFails(S, IrValue, ViewOf(Or(hasBits, bits)), rest);
            ok := false;
          case Ok(tag, b1) =>
            ok, rest, bits := ParseField(rest, tag, b1, bits);
        }
      }
      hasBits := Or(hasBits, bits);
    }

    // -------------------------------------------------------- size and printing

    ghost function SizeAt(k: nat): nat
      requires Describes(S) && k < 20
      reads this
    {
      FieldSize(S, IR_VALUE_FIELDS[k], Content(hasBits, k))
    }

    lemma SizesAddUp()
      requires Describes(S)
      ensures |Serialize(S, IrValue, View())|
           == SizeAt(0) + SizeAt(1) + SizeAt(2) + SizeAt(3) + SizeAt(4) + SizeAt(5) + SizeAt(6) + SizeAt(7) + SizeAt(8)
              + SizeAt(9) + SizeAt(10) + SizeAt(11) + SizeAt(12) + SizeAt(13) + SizeAt(14) + SizeAt(15) + SizeAt(16)
              + SizeAt(17) + SizeAt(18) + SizeAt(19) + |EncodeAll(unknown)|
    {
      hide Serialize, EncodeAll, FieldSize, HeldAt, RepeatedAt, IR_VALUE_FIELDS, WfSchema, SizesFrom, ViewOf;
      FieldFacts();
      SerializedSize(S, IrValue, View());
      SizesFromStep(S, IrValue, View(), 0);
      SizesFromStep(S, IrValue, View(), 1);
      SizesFromStep(S, IrValue, View(), 2);
      SizesFromStep(S, IrValue, View(), 3);
      SizesFromStep(S, IrValue, View(), 4);
      SizesFromStep(S, IrValue, View(), 5);
      SizesFromStep(S, IrValue, View(), 6);
      SizesFromStep(S, IrValue, View(), 7);
      SizesFromStep(S, IrValue, View(), 8);
      SizesFromStep(S, IrValue, View(), 9);
      SizesFromStep(S, IrValue, View(), 10);
      SizesFromStep(S, IrValue, View(), 11);
      SizesFromStep(S, IrValue, View(), 12);
      SizesFromStep(S, IrValue, View(), 13);
      SizesFromStep(S, IrValue, View(), 14);
      SizesFromStep(S, IrValue, View(), 15);
      SizesFromStep(S, IrValue, View(), 16);
      SizesFromStep(S, IrValue, View(), 17);
      SizesFromStep(S, IrValue, View(), 18);
      SizesFromStep(S, IrValue, View(), 19);
      SizesFromEnd(S, IrValue, View());
    }

    /** What the printer writes for a field with explicit presence. */
    lemma HeldSize(k: nat)
      requires Valid() && k < 20 && IsHeld(k)
      ensures SizeAt(k)
           == if Has(hasBits, PresenceOf(k))
              then (if k == 19 then 2 else 1) + ValueSize(S, IR_VALUE_FIELDS[k].kind, ValueAt(k)) else 0
    {
      hide ValueSize, Has, PresenceOf, ValueAt, TagSize, IR_VALUE_FIELDS, EncodeAll, Encode, ValueSizes;
      FieldFacts();
      ContentIsTyped(k);
      FieldSizeIsSum(S, IR_VALUE_FIELDS[k], Content(hasBits, k));
      TagBytes(k);
      assert ValueSizes(S, IR_VALUE_FIELDS[k].kind, []) == 0 by { NoSizes(S, IR_VALUE_FIELDS[k].kind); }
      OneSize(S, IR_VALUE_FIELDS[k].kind, ValueAt(k));
    }

    lemma ContentIsTyped(k: nat)
      requires Valid() && k < 20
      ensures Typed(S, IR_VALUE_FIELDS[k].kind, Content(hasBits, k))
    {
      hide IR_VALUE_FIELDS, WfSchema, HeldAt, RepeatedAt, WfValue;
      FieldFacts();
      assert WfSlot(S, IR_VALUE_FIELDS[k], View().slots[k].vs);
    }

    /** Size of a repeated field: a tag for each element, and the elements. */
    lemma RepeatedSize(k: nat)
      requires Valid() && 9 <= k < 19
      ensures SizeAt(k)
           == (if k < 15 then 1 else 2) * |RepeatedAt(k)| + ValueSizes(S, IR_VALUE_FIELDS[k].kind, RepeatedAt(k))
    {
      hide ValueSize, TagSize, IR_VALUE_FIELDS, EncodeAll, Encode, ValueSizes, RepeatedAt;
      FieldFacts();
      ContentIsTyped(k);
      FieldSizeIsSum(S, IR_VALUE_FIELDS[k], Content(hasBits, k));
      TagBytes(k);
    }

    /** Repeated fields are added up first, then the fields with explicit presence, group by group
        in the order of their bits; the printer goes by field number. */
    method ByteSizeLong() returns (totalSize: nat)
      requires Valid()
      modifies this`cachedSize
      ensures Valid() && totalSize == |Serialize(S, IrValue, View())| && cachedSize == ToCachedSize(totalSize)
    {
      hide Serialize, EncodeAll, ToCachedSize, Wf, WfSchema, ViewOf, Content, SizeAt, IR_VALUE_FIELDS;
      FieldFacts();
      SizesAddUp();
      totalSize := NumbersSize();
      var more := ElementsSize();
      totalSize := totalSize + more;
      more := HeldSizes();
      totalSize := totalSize + more + |EncodeAll(unknown)|;
      cachedSize := ToCachedSize(totalSize);
    }

    /** Fields 10 to 14: fixed-size elements are counted, varints measured one by one. */
    method NumbersSize() returns (size: nat)
      requires Valid()
      ensures size == SizeAt(9) + SizeAt(10) + SizeAt(11) + SizeAt(12) + SizeAt(13)
    {
      hide Wf, Describes, ViewOf, SizeAt, IR_VALUE_FIELDS, ValueSizes, Content,
           O.Shown, O.InvCell, Stocked;
      RepeatedFieldFacts();
      RepeatedSize(9);
      RepeatedSize(10);
      RepeatedSize(11);
      RepeatedSize(12);
      RepeatedSize(13);
      FixedElements(9);
      FixedElements(12);
      FixedElements(13);
      size := |boolVals| + 1 * |boolVals|;
      var dataSize := AddSizes(S, Int64, intVals);
      size := size + |intVals| + dataSize;
      dataSize := AddSizes(S, UInt64, uintVals);
      size := size + |uintVals| + dataSize;
      size := size + |floatVals| + 4 * |floatVals|;
      size := size + |doubleVals| + 8 * |doubleVals|;
    }

    lemma FixedElements(k: nat)
      requires Valid() && (k == 9 || k == 12 || k == 13)
      ensures ValueSizes(S, IR_VALUE_FIELDS[k].kind, RepeatedAt(k))
           == (if k == 9 then 1 else if k == 12 then 4 else 8) * |RepeatedAt(k)|
    {
      hide IR_VALUE_FIELDS, ValueSizes, RepeatedAt, ViewOf;
      FieldFacts();
      RepeatedFieldFacts();
      ContentIsTyped(k);
      FixedSizes(S, IR_VALUE_FIELDS[k].kind, RepeatedAt(k));
    }

    /** Fields 15 to 19. */
    method ElementsSize() returns (size: nat)
      requires Valid()
      ensures size == SizeAt(14) + SizeAt(15) + SizeAt(16) + SizeAt(17) + SizeAt(18)
    {
      hide Wf, Describes, ViewOf, SizeAt, IR_VALUE_FIELDS, ValueSizes, Content,
           O.Shown, O.InvCell, Stocked;
      RepeatedFieldFacts();
      ElementsAreShown();
      RepeatedSize(14);
      RepeatedSize(15);
      RepeatedSize(16);
      RepeatedSize(17);
      RepeatedSize(18);
      size := |strVals|;
      var dataSize := AddSizes(S, STRING2, strVals);
      size := size + dataSize + 2 * |tensorVals.live|;
      dataSize := AddSizes(S, Message(IrTensor), O.Shown(tensorVals));
      size := size + dataSize + 2 * |graphs.live|;
      dataSize := AddSizes(S, Message(IrGraph), O.Shown(graphs));
      size := size + dataSize + 2 * |values.live|;
      dataSize := AddSizes(S, Message(IrValue), O.Shown(values));
      size := size + dataSize + 2 * |dictVal.live|;
      dataSize := AddSizes(S, Message(IrNamedValue), O.Shown(dictVal));
      size := size + dataSize;
    }

    method HeldSizes() returns (size: nat)
      requires Valid()
      ensures size
           == SizeAt(0) + SizeAt(1) + SizeAt(2) + SizeAt(3) + SizeAt(4) + SizeAt(5) + SizeAt(6) + SizeAt(7) + SizeAt(8)
                      + SizeAt(19)
    {
      hide Wf, WfSchema, ViewOf, SizeAt, IR_VALUE_FIELDS, Has, HasAny, Content;
      GroupMasks(hasBits);
      HeldSize(4);
      HeldSize(5);
      FloatingPointSizes();
      var cachedHasBits := hasBits;
      size := FirstEightSizes();
      if HasAny(cachedHasBits, MASK_300) {
        if Has(cachedHasBits, HasDoubleVal) { size := size + 1 + 8; }
        if Has(cachedHasBits, HasFloatVal) { size := size + 1 + 4; }
      }
    }

    lemma FloatingPointSizes()
      requires Describes(S)
      ensures ValueSize(S, IR_VALUE_FIELDS[4].kind, ValueAt(4)) == 4
      ensures ValueSize(S, IR_VALUE_FIELDS[5].kind, ValueAt(5)) == 8
    {
      HeldFieldFacts();
      NumberSize(S, Float, floatVal);
      NumberSize(S, Double, doubleVal);
    }

    /** The block guarded by mask 0xff. */
    method FirstEightSizes() returns (size: nat)
      requires Valid()
      ensures size == SizeAt(0) + SizeAt(1) + SizeAt(2) + SizeAt(3) + SizeAt(6) + SizeAt(7) + SizeAt(8) + SizeAt(19)
    {
      hide Wf, WfSchema, ViewOf, SizeAt, IR_VALUE_FIELDS, Has, HasAny, Content, Serialize, VarintSize, ToWire,
           DelimitedSize, UnsetIsZero, HeldAt;
      GroupMasks(hasBits);
      SmallScalarSizes();
      ContentSizes();
      var cachedHasBits := hasBits;
      size := 0;
      if HasAny(cachedHasBits, MASK_FF) {
        if Has(cachedHasBits, HasStrVal) { size := size + 1 + DelimitedSize(|strVal|); }
        if Has(cachedHasBits, HasTensorVal) {
          size := size + 1 + DelimitedSize(|Serialize(S, IrTensor, O.View(tensorVal.value))|);
        }
        if Has(cachedHasBits, HasGraph) {
          size := size + 1 + DelimitedSize(|Serialize(S, IrGraph, O.View(graph.value))|);
        }
        if Has(cachedHasBits, HasTypeVal) {
          size := size + 2 + DelimitedSize(|Serialize(S, IrType, O.View(typeVal.value))|);
        }
        var more := SmallScalarsSizes();
        size := size + more;
      }
    }

    method SmallScalarsSizes() returns (size: nat)
      requires Valid()
      ensures size == SizeAt(0) + SizeAt(1) + SizeAt(2) + SizeAt(3)
    {
      hide Wf, WfSchema, ViewOf, SizeAt, IR_VALUE_FIELDS, Has, Content, VarintSize, ToWire, UnsetIsZero, HeldAt;
      SmallScalarSizes();
      var cachedHasBits := hasBits;
      size := 0;
      if Has(cachedHasBits, HasDType) { size := size + 1 + VarintSize(ToWire(dtype)); }
      if Has(cachedHasBits, HasBoolVal) { size := size + 1 + 1; }
      if Has(cachedHasBits, HasIntVal) { size := size + 1 + VarintSize(ToWire(intVal)); }
      if Has(cachedHasBits, HasUIntVal) { size := size + 1 + VarintSize(ToWire(uintVal)); }
    }

    lemma SmallScalarSizes()
      requires Valid()
      ensures SizeAt(0) == if Has(hasBits, HasDType) then 1 + VarintSize(ToWire(dtype)) else 0
      ensures SizeAt(1) == if Has(hasBits, HasBoolVal) then 1 + 1 else 0
      ensures SizeAt(2) == if Has(hasBits, HasIntVal) then 1 + VarintSize(ToWire(intVal)) else 0
      ensures SizeAt(3) == if Has(hasBits, HasUIntVal) then 1 + VarintSize(ToWire(uintVal)) else 0
    {
      hide Wf, WfSchema, ViewOf, SizeAt, IR_VALUE_FIELDS, Has, Content, Serialize, ToWire, ValueSize;
      HeldFieldFacts();
      HeldSize(0);
      HeldSize(1);
      HeldSize(2);
      HeldSize(3);
      NumberSize(S, DATA_TYPE, dtype);
      BoolSize(S, boolVal);
      NumberSize(S, Int64, intVal);
      NumberSize(S, UInt64, uintVal);
    }

    lemma ContentSizes()
      requires Valid()
      ensures SizeAt(6) == if Has(hasBits, HasStrVal) then 1 + DelimitedSize(|strVal|) else 0
      ensures SizeAt(7)
           == if Has(hasBits, HasTensorVal)
              then 1 + DelimitedSize(|Serialize(S, IrTensor, O.View(tensorVal.value))|) else 0
      ensures SizeAt(8)
           == if Has(hasBits, HasGraph) then 1 + DelimitedSize(|Serialize(S, IrGraph, O.View(graph.value))|) else 0
      ensures SizeAt(19)
           == if Has(hasBits, HasTypeVal) then 2 + DelimitedSize(|Serialize(S, IrType, O.View(typeVal.value))|) else 0
    {
      hide Wf, WfSchema, ViewOf, SizeAt, IR_VALUE_FIELDS, Has, Content, Serialize, ValueSize, DelimitedSize;
      HeldFieldFacts();
      HeldSize(6);
      HeldSize(7);
      HeldSize(8);
      HeldSize(19);
      ContentSize(S, STRING2, ValueAt(6));
      ContentSize(S, Message(IrTensor), ValueAt(7));
      ContentSize(S, Message(IrGraph), ValueAt(8));
      ContentSize(S, Message(IrType), ValueAt(19));
    }

    method InternalSerialize() returns (target: bytes)
      requires Valid()
      ensures target == Serialize(S, IrValue, View())
    {
      hide PrintedUpto, Serialize, Wf, WfSchema, EncodeAll, IR_VALUE_FIELDS;
      FieldFacts();
      ghost var m := View();
      PrintStart(S, IrValue, m);
      target := PrintScalars(m, []);
      target := PrintContents(m, target);
      target := PrintNumbers(m, target);
      target := PrintElements(m, target);
      PrintEnd(S, IrValue, m, target);
      target := target + EncodeAll(unknown);
    }

    /** Fields 1 to 6. */
    method PrintScalars(ghost m: Msg, start: bytes) returns (target: bytes)
      requires Valid() && m == View() && PrintedUpto(S, IrValue, m, 0, start)
      ensures PrintedUpto(S, IrValue, m, 6, target)
    {
      hide PrintedUpto, Serialize, Wf, Describes, EncodeAll, IR_VALUE_FIELDS, Has, ViewOf, UnsetIsEmpty, Pointee,
           RepeatedAt, Varint, O.Shown, O.InvCell, Stocked;
      FieldFacts();
      DescribesFields(S);
      target := start;
      target := PrintSingle(S, IrValue, m, 0, IR_VALUE_FIELDS[0], Has(hasBits, HasDType), Num(dtype), target);
      target := PrintSingle(S, IrValue, m, 1, IR_VALUE_FIELDS[1], Has(hasBits, HasBoolVal), Num(BoolNum(boolVal)),
                            target);
      target := PrintSingle(S, IrValue, m, 2, IR_VALUE_FIELDS[2], Has(hasBits, HasIntVal), Num(intVal), target);
      target := PrintSingle(S, IrValue, m, 3, IR_VALUE_FIELDS[3], Has(hasBits, HasUIntVal), Num(uintVal), target);
      target := PrintSingle(S, IrValue, m, 4, IR_VALUE_FIELDS[4], Has(hasBits, HasFloatVal), Num(floatVal), target);
      target := PrintSingle(S, IrValue, m, 5, IR_VALUE_FIELDS[5], Has(hasBits, HasDoubleVal), Num(doubleVal), target);
    }

    /** Fields 7 to 9. */
    method PrintContents(ghost m: Msg, start: bytes) returns (target: bytes)
      requires Valid() && m == View() && PrintedUpto(S, IrValue, m, 6, start)
      ensures PrintedUpto(S, IrValue, m, 9, target)
    {
      hide PrintedUpto, Serialize, Wf, Describes, EncodeAll, IR_VALUE_FIELDS, Has, ViewOf, RepeatedAt, Varint,
           O.Shown, O.InvCell, Stocked;
      FieldFacts();
      DescribesFields(S);
      target := start;
      target := PrintSingle(S, IrValue, m, 6, IR_VALUE_FIELDS[6], Has(hasBits, HasStrVal), Data(strVal), target);
      target := PrintSingle(S, IrValue, m, 7, IR_VALUE_FIELDS[7], Has(hasBits, HasTensorVal),
                            Sub(Pointee(S, IrTensor, tensorVal)), target);
      target := PrintSingle(S, IrValue, m, 8, IR_VALUE_FIELDS[8], Has(hasBits, HasGraph),
                            Sub(Pointee(S, IrGraph, graph)), target);
    }

    /** Fields 10 to 14, never packed. */
    method PrintNumbers(ghost m: Msg, start: bytes) returns (target: bytes)
      requires Valid() && m == View() && PrintedUpto(S, IrValue, m, 9, start)
      ensures PrintedUpto(S, IrValue, m, 14, target)
    {
      hide PrintedUpto, Serialize, Wf, Describes, EncodeAll, IR_VALUE_FIELDS, Has, ViewOf,
           O.Shown, O.InvCell, Stocked;
      FieldFacts();
      DescribesFields(S);
      target := start;
      target := PrintRepeated(S, IrValue, m, 9, IR_VALUE_FIELDS[9], boolVals, target);
      target := PrintRepeated(S, IrValue, m, 10, IR_VALUE_FIELDS[10], intVals, target);
      target := PrintRepeated(S, IrValue, m, 11, IR_VALUE_FIELDS[11], uintVals, target);
      target := PrintRepeated(S, IrValue, m, 12, IR_VALUE_FIELDS[12], floatVals, target);
      target := PrintRepeated(S, IrValue, m, 13, IR_VALUE_FIELDS[13], doubleVals, target);
    }

    /** Fields 15 to 20. */
    method PrintElements(ghost m: Msg, start: bytes) returns (target: bytes)
      requires Valid() && m == View() && PrintedUpto(S, IrValue, m, 14, start)
      ensures PrintedUpto(S, IrValue, m, 20, target)
    {
      hide PrintedUpto, Serialize, Wf, Describes, EncodeAll, IR_VALUE_FIELDS, Has, ViewOf,
           O.Shown, O.InvCell, Stocked;
      FieldFacts();
      DescribesFields(S);
      ElementsAreShown();
      target := start;
      target := PrintRepeated(S, IrValue, m, 14, IR_VALUE_FIELDS[14], strVals, target);
      target := PrintRepeated(S, IrValue, m, 15, IR_VALUE_FIELDS[15], O.Shown(tensorVals), target);
      target := PrintRepeated(S, IrValue, m, 16, IR_VALUE_FIELDS[16], O.Shown(graphs), target);
      target := PrintRepeated(S, IrValue, m, 17, IR_VALUE_FIELDS[17], O.Shown(values), target);
      target := PrintRepeated(S, IrValue, m, 18, IR_VALUE_FIELDS[18], O.Shown(dictVal), target);
      target := PrintSingle(S, IrValue, m, 19, IR_VALUE_FIELDS[19], Has(hasBits, HasTypeVal),
                            Sub(Pointee(S, IrType, typeVal)), target);
    }
  }
}
