/** tensor.pb.cc: tensors hold variants and variants hold tensors, as objects on the heap.  Every
    message has a cache that its const `ByteSizeLong` fills and its printer later reads. */
module TensorProtos {
  import opened Wire
  import opened Schemas
  import opened Messages
  import opened Codec
  import opened MasterLaw
  import opened NormalForm
  import opened Repository
  import opened Parsing
  import opened Printing

  /** The message descriptions say what this file knows about its fields. */
  ghost predicate Describes(S: Schema) {
    WfSchema(S) && FieldsOf(S, Tensor) == TENSOR_FIELDS && FieldsOf(S, VariantTensorData) == VARIANT_TENSOR_DATA_FIELDS
  }

  /** The repository's own tables are such. */
  lemma RepoDescribes()
    ensures Describes(Repo())
  {
    RepoIsWf();
    RepoFields(Tensor);
    RepoFields(VariantTensorData);
  }

  /** The mutable size caches of one message: its own size and, by field number, the sizes of its
      packed fields. */
  class SizeCache {
    var total: int
    var packed: map<nat, int>

    constructor () {
    }
  }

  /** The cached size of a message is that of its serialized form. */
  ghost predicate Cached(S: Schema, t: MessageType, m: Msg, cache: SizeCache)
    reads cache
  {
    cache.total == ToCachedSize(|Serialize(S, t, m)|)
  }

  /** A message of another type. */
  class FlatMessage {
    const S: Schema
    const t: MessageType
    const cache: SizeCache
    var content: Msg

    constructor (S: Schema, t: MessageType, content: Msg)
      ensures this.S == S && this.t == t && this.content == content && fresh(cache)
    {
      this.S, this.t, this.content := S, t, content;
      cache := new SizeCache();
    }

    method ByteSizeLong() returns (totalSize: nat)
      modifies cache
      ensures totalSize == |Serialize(S, t, content)| && Cached(S, t, content, cache)
    {
      totalSize := |Serialize(S, t, content)|;
      cache.total := ToCachedSize(totalSize);
    }

    method InternalSerialize() returns (target: bytes)
      ensures target == Serialize(S, t, content)
    {
      target := Serialize(S, t, content);
    }
  }

  /** Fields of a tensor that hold no submessages. */
  predicate IsPlain(k: nat) {
    k != 1 && k != 13 && k != 14
  }

  /** Packed fields of varints: int_val, int64_val, half_val, uint32_val and uint64_val. */
  predicate IsVarintPacked(k: nat) {
    k == 6 || k == 9 || k == 12 || k == 15 || k == 16
  }

  lemma TensorFieldFacts()
    ensures |TENSOR_FIELDS| == 18
    ensures forall k :: 0 <= k < 18 ==> TENSOR_FIELDS[k].num == k + 1 && TensorFieldFact(TENSOR_FIELDS[k], k)
  {
  }

  predicate TensorFieldFact(f: Field, k: nat) {
    && f.rule == (if k == 1 then Optional
                  else if k == 7 || k == 13 || k == 14 then Repeated(false)
                  else if k == 0 || k == 2 || k == 3 || k == 17 then Implicit
                  else Repeated(true))
    && (k == 1 ==> f.kind == Message(TensorShape))
    && (k == 3 || k == 7 || k == 17 ==> f.kind == Blob)
    && (k == 0 ==> f.kind == OpenEnum)
    && (k == 2 ==> f.kind == Int32)
    && (k == 13 ==> f.kind == Message(ResourceHandle))
    && (k == 14 ==> f.kind == Message(VariantTensorData))
    && (f.rule == Repeated(true) ==> Numeric(f.kind) && !f.kind.ClosedEnum?)
    && (IsVarintPacked(k) ==> !f.kind.Float? && !f.kind.Double? && !f.kind.Bool?)
  }

  lemma {:induction false} EmptyTensor(S: Schema)
    requires Describes(S)
    ensures var m := Empty(S, Tensor);
      && Wf(S, Tensor, m) && |m.slots| == 18 && m.unknown == []
      && forall k :: 0 <= k < 18 ==>
           m.slots[k].vs == if k == 0 || k == 2 then [Num(0)] else if k == 3 || k == 17 then [Data([])] else []
  {
    hide TENSOR_FIELDS, Wf, WfSchema;
    TensorFieldFacts();
    EmptyWf(S, Tensor);
  }

  /** Tags of fields 16 and above take two bytes. */
  lemma TensorTag(k: nat)
    requires k < 18
    ensures TagSize(TENSOR_FIELDS[k].num, ValueWireType(TENSOR_FIELDS[k].kind)) == if k < 15 then 1 else 2
    ensures TagSize(TENSOR_FIELDS[k].num, 2) == if k < 15 then 1 else 2
  {
    hide TENSOR_FIELDS;
    TensorFieldFacts();
    if k < 15 {
      OneTagByte(k + 1, ValueWireType(TENSOR_FIELDS[k].kind));
      OneTagByte(k + 1, 2);
    } else {
      TwoTagBytes(k + 1, ValueWireType(TENSOR_FIELDS[k].kind));
      TwoTagBytes(k + 1, 2);
    }
  }

  lemma TypedNumbers(S: Schema, k: Kind, vs: seq<Value>)
    requires Numeric(k) && Typed(S, k, vs)
    ensures forall i :: 0 <= i < |vs| ==> vs[i].Num? && InRange(k, vs[i].n)
  {
    forall i | 0 <= i < |vs| ensures vs[i].Num? && InRange(k, vs[i].n) {
      assert WfValue(S, k, vs[i]);
    }
  }

  /** Elements of a packed field: those of a fixed size are counted, varints are measured. */
  method SizeOfElements(k: Kind, vs: seq<Value>) returns (dataSize: nat)
    requires Numeric(k) && forall i :: 0 <= i < |vs| ==> vs[i].Num? && InRange(k, vs[i].n)
    ensures dataSize == |Pack(k, vs)|
  {
    match k {
      case Float =>
        PackedFixedSize(k, vs);
        dataSize := 4 * |vs|;
      case Double =>
        PackedFixedSize(k, vs);
        dataSize := 8 * |vs|;
      case Bool =>
        PackedBoolSize(vs);
        dataSize := 1 * |vs|;
      case _ =>
        dataSize := AddVarintSizes(k, vs);
    }
  }

  lemma ChildrenAreTyped(S: Schema, t: MessageType, m: Msg, k: nat)
    requires Describes(S) && Wf(S, t, m) && k < |FieldsOf(S, t)|
    ensures |m.slots| == |FieldsOf(S, t)| && Typed(S, FieldsOf(S, t)[k].kind, m.slots[k].vs)
  {
    assert WfSlot(S, FieldsOf(S, t)[k], m.slots[k].vs);
  }

  lemma ChildIsShorter(S: Schema, t: MessageType, m: Msg, k: nat, i: nat)
    requires Describes(S) && Wf(S, t, m) && k < |FieldsOf(S, t)| == |m.slots| && i < |m.slots[k].vs|
    requires OnePerValue(FieldsOf(S, t)[k]) && FieldsOf(S, t)[k].kind.Message? && m.slots[k].vs[i].Sub?
    ensures |Serialize(S, FieldsOf(S, t)[k].kind.target, m.slots[k].vs[i].m)| < |Serialize(S, t, m)|
  {
    hide Wf, Serialize;
    ChildrenAreTyped(S, t, m, k);
    SubmessageIsShorter(S, t, m, k, i);
  }

  lemma TensorIsShorter(S: Schema, m: Msg, i: nat)
    requires Describes(S) && Wf(S, VariantTensorData, m) && |m.slots| == 3 && i < |m.slots[2].vs|
    requires m.slots[2].vs[i].Sub?
    ensures |Serialize(S, Tensor, m.slots[2].vs[i].m)| < |Serialize(S, VariantTensorData, m)|
  {
    hide Wf, Serialize;
    ChildIsShorter(S, VariantTensorData, m, 2, i);
  }

  lemma VariantFits(S: Schema, m: Msg, v: Msg)
    requires Describes(S) && Wf(S, Tensor, m) && |m.slots| == 18 && Wf(S, VariantTensorData, v)
    ensures Wf(S, Tensor, SetSlot(m, 14, m.slots[14].vs + [Sub(v)]))
  {
    hide Wf, TENSOR_FIELDS;
    TensorFieldFacts();
    ChildrenAreTyped(S, Tensor, m, 14);
    assert WfSlot(S, TENSOR_FIELDS[14], m.slots[14].vs + [Sub(v)]);
    SetSlotWf(S, Tensor, m, 14, m.slots[14].vs + [Sub(v)]);
  }

  lemma TensorFits(S: Schema, m: Msg, x: Msg)
    requires Describes(S) && Wf(S, VariantTensorData, m) && |m.slots| == 3 && Wf(S, Tensor, x)
    ensures Wf(S, VariantTensorData, SetSlot(m, 2, m.slots[2].vs + [Sub(x)]))
  {
    hide Wf;
    ChildrenAreTyped(S, VariantTensorData, m, 2);
    assert WfSlot(S, VARIANT_TENSOR_DATA_FIELDS[2], m.slots[2].vs + [Sub(x)]);
    SetSlotWf(S, VariantTensorData, m, 2, m.slots[2].vs + [Sub(x)]);
  }

  lemma PackGrows(k: Kind, vs: seq<Value>, n: int)
    ensures |Pack(k, vs)| < |Pack(k, vs + [Num(n)])|
  {
    PackSnoc(k, vs, n);
  }

  lemma IntFits(S: Schema, m: Msg, n: int32)
    requires Describes(S) && Wf(S, Tensor, m) && |m.slots| == 18
    ensures Wf(S, Tensor, SetSlot(m, 6, m.slots[6].vs + [Num(n)]))
  {
    hide Wf;
    ChildrenAreTyped(S, Tensor, m, 6);
    assert WfSlot(S, TENSOR_FIELDS[6], m.slots[6].vs + [Num(n)]);
    SetSlotWf(S, Tensor, m, 6, m.slots[6].vs + [Num(n)]);
  }

  lemma VariantIsShorter(S: Schema, m: Msg, i: nat)
    requires Describes(S) && Wf(S, Tensor, m) && |m.slots| == 18 && i < |m.slots[14].vs| && m.slots[14].vs[i].Sub?
    ensures |Serialize(S, VariantTensorData, m.slots[14].vs[i].m)| < |Serialize(S, Tensor, m)|
  {
    hide Wf, Serialize, TENSOR_FIELDS;
    TensorFieldFacts();
    ChildIsShorter(S, Tensor, m, 14, i);
  }

  /** Adding the size of one more submessage. */
  lemma NextSize(S: Schema, k: Kind, vs: seq<Value>, i: nat)
    requires i < |vs| && vs[i].Sub? && k.Message?
    ensures ValueSizes(S, k, vs[..i + 1])
         == ValueSizes(S, k, vs[..i]) + DelimitedSize(|Serialize(S, k.target, vs[i].m)|)
  {
    hide ValueSize, Serialize;
    assert vs[..i + 1][..i] == vs[..i];
    ContentSize(S, k, vs[i]);
  }

  lemma VariantSize(S: Schema, m: Msg, typeName: bytes, metadata: bytes)
    requires Describes(S) && |m.slots| == 3 && m.slots[0].vs == [Data(typeName)] && m.slots[1].vs == [Data(metadata)]
    requires Typed(S, Message(Tensor), m.slots[2].vs)
    ensures |Serialize(S, VariantTensorData, m)|
         == |m.slots[2].vs| + ValueSizes(S, Message(Tensor), m.slots[2].vs)
            + (if |typeName| > 0 then 1 + DelimitedSize(|typeName|) else 0)
            + (if |metadata| > 0 then 1 + DelimitedSize(|metadata|) else 0) + |EncodeAll(m.unknown)|
  {
    hide Serialize, FieldSize, EncodeAll, SizesFrom, DelimitedSize, ValueSizes, WfSchema;
    var fs := VARIANT_TENSOR_DATA_FIELDS;
    SerializedSize(S, VariantTensorData, m);
    SizesFromStep(S, VariantTensorData, m, 0);
    SizesFromStep(S, VariantTensorData, m, 1);
    SizesFromStep(S, VariantTensorData, m, 2);
    SizesFromEnd(S, VariantTensorData, m);
    ImplicitDataSize(S, fs[0], typeName);
    ImplicitDataSize(S, fs[1], metadata);
    FieldSizeIsSum(S, fs[2], m.slots[2].vs);
    OneTagByte(1, 2);
    OneTagByte(2, 2);
    OneTagByte(3, 2);
  }

  class VariantTensorDataProto {
    const S: Schema
    const cache: SizeCache
    var typeName: bytes
    var metadata: bytes
    var tensors: seq<TensorProto>
    var unknown: seq<Record>
    ghost var content: Msg
    ghost var Repr: set<object>
    ghost var Caches: set<object>

    ghost predicate Valid()
      reads this, Repr
      decreases Repr
    {
      && this in Repr && cache in Caches && Repr !! Caches
      && Describes(S) && Wf(S, VariantTensorData, content) && |content.slots| == 3 && content.unknown == unknown
      && content.slots[0].vs == [Data(typeName)] && content.slots[1].vs == [Data(metadata)]
      && |content.slots[2].vs| == |tensors|
      && (forall i :: 0 <= i < |tensors| ==> Owns(i))
      && (forall i, j :: 0 <= i < j < |tensors| ==> Apart(i, j))
    }

    ghost predicate Apart(i: nat, j: nat)
      requires this in Repr && i < |tensors| && j < |tensors| && |content.slots| == 3
      requires |content.slots[2].vs| == |tensors|
      reads this, Repr
      decreases Repr, 1
    {
      Owns(i) && Owns(j) && tensors[i].Caches !! tensors[j].Caches
    }

    ghost predicate Owns(i: nat)
      requires this in Repr && i < |tensors| && |content.slots| == 3 && |content.slots[2].vs| == |tensors|
      reads this, Repr
      decreases Repr, 0
    {
      var x := tensors[i];
      && x in Repr && x.Repr <= Repr && this !in x.Repr && x.Caches <= Caches && cache !in x.Caches
      && x.S == S && content.slots[2].vs[i] == Sub(x.content) && x.Valid()
    }

    /** Every cache in the tree is up to date. */
    ghost predicate Coherent()
      requires Valid()
      reads this, Repr, Caches
      decreases Repr
    {
      && Cached(S, VariantTensorData, content, cache)
      && forall i :: 0 <= i < |tensors| ==> ChildCoherent(i)
    }

    ghost predicate ChildCoherent(i: nat)
      requires Valid() && i < |tensors|
      reads this, Repr, Caches
      decreases Repr, 0
    {
      assert Owns(i);
      tensors[i].Coherent()
    }

    constructor (S: Schema)
      requires Describes(S)
      ensures Valid() && this.S == S && content == Empty(S, VariantTensorData)
      ensures Repr == {this} && fresh(Caches)
    {
      this.S, typeName, metadata, tensors, unknown := S, [], [], [], [];
      var c := new SizeCache();
      cache, Caches := c, {c};
      content := Empty(S, VariantTensorData);
      Repr := {this};
      new;
      EmptyWf(S, VariantTensorData);
    }

    /** Appends an empty tensor for the caller to fill. */
    method AddTensors() returns (x: TensorProto)
      requires Valid()
      modifies this
      ensures Valid() && fresh(x) && x.Valid() && x.content == Empty(S, Tensor) && tensors == old(tensors) + [x]
      ensures content == SetSlot(old(content), 2, old(content.slots[2].vs) + [Sub(Empty(S, Tensor))])
    {
      hide Wf, Describes, Empty, WfSchema;
      x := new TensorProto(S);
      AddAllocated(x);
    }

    /** Appends a tensor that was filled before. */
    method AddAllocated(x: TensorProto)
      requires Valid() && x.Valid() && x.S == S && Repr !! x.Repr && Caches !! x.Caches && Repr !! x.Caches
      requires Caches !! x.Repr
      modifies this
      ensures Valid() && Repr == old(Repr) + x.Repr && Caches == old(Caches) + x.Caches && tensors == old(tensors) + [x]
      ensures content == SetSlot(old(content), 2, old(content.slots[2].vs) + [Sub(x.content)])
    {
      hide Wf, WfSchema;
      TensorFits(S, content, x.content);
      tensors := tensors + [x];
      content := SetSlot(content, 2, content.slots[2].vs + [Sub(x.content)]);
      Repr, Caches := Repr + x.Repr, Caches + x.Caches;
      forall i | 0 <= i < |tensors| ensures Owns(i) {
        if i < old(|tensors|) { assert old(Owns(i)); } else { assert tensors[i] == x && x.Valid(); }
      }
      forall i, j | 0 <= i < j < |tensors| ensures Apart(i, j) {
        assert old(Owns(i));
        if j < old(|tensors|) { assert old(Apart(i, j)); }
      }
    }

    /** Sizes come tensors first; each tensor fills its own caches on the way. */
    method ByteSizeLong() returns (totalSize: nat)
      requires Valid()
      modifies Caches
      decreases Repr
      ensures Valid()
      ensures |Serialize(S, VariantTensorData, content)| < TWO_TO_31 ==>
                totalSize == |Serialize(S, VariantTensorData, content)| && Coherent()
    {
      var dataSize := TensorSizes();
      totalSize := |tensors| + dataSize;
      if |typeName| > 0 { totalSize := totalSize + 1 + DelimitedSize(|typeName|); }
      if |metadata| > 0 { totalSize := totalSize + 1 + DelimitedSize(|metadata|); }
      totalSize := totalSize + |EncodeAll(unknown)|;
      ChildrenAreTyped(S, VariantTensorData, content, 2);
      VariantSize(S, content, typeName, metadata);
      label Before:
      cache.total := ToCachedSize(totalSize);
      if |Serialize(S, VariantTensorData, content)| < TWO_TO_31 {
        forall i | 0 <= i < |tensors| ensures ChildCoherent(i) {
          assert Owns(i) && old@Before(ChildCoherent(i));
        }
      }
    }

    /** The sizes of the tensors with their length prefixes. */
    method TensorSizes() returns (dataSize: nat)
      requires Valid()
      modifies Caches - {cache}
      decreases Repr, 0
      ensures Valid()
      ensures |Serialize(S, VariantTensorData, content)| < TWO_TO_31 ==>
                && dataSize == ValueSizes(S, Message(Tensor), content.slots[2].vs)
                && forall i :: 0 <= i < |tensors| ==> ChildCoherent(i)
    {
      hide Wf, Serialize, ValueSizes, Describes, DelimitedSize;
      ghost var small := |Serialize(S, VariantTensorData, content)| < TWO_TO_31;
      ghost var vs := content.slots[2].vs;
      dataSize := 0;
      NoSizes(S, Message(Tensor));
      for i := 0 to |tensors|
        invariant Valid()
        invariant small ==> dataSize == ValueSizes(S, Message(Tensor), vs[..i])
        invariant small ==> forall j :: 0 <= j < i ==> ChildCoherent(j)
      {
        assert Owns(i);
        if small { TensorIsShorter(S, content, i); }
        NextSize(S, Message(Tensor), vs, i);
        label Before:
        var size := tensors[i].ByteSizeLong();
        dataSize := dataSize + DelimitedSize(size);
        forall j | small && 0 <= j < i ensures ChildCoherent(j) {
          assert Apart(j, i);
          assert old@Before(Apart(j, i) && Owns(j) && Owns(i));
          assert old@Before(tensors[j].Repr <= Repr);
          assert old@Before(tensors[i].Caches <= Caches);
          assert old@Before(ChildCoherent(j));
        }
      }
      assert vs[..|tensors|] == vs;
    }

    /** Length prefixes of tensors come from their caches. */
    method InternalSerialize() returns (target: bytes)
      requires Valid()
      decreases Repr
      ensures Coherent() && |Serialize(S, VariantTensorData, content)| < TWO_TO_31 ==>
                target == Serialize(S, VariantTensorData, content)
    {
      hide PrintedUpto, Serialize, EncodeAll, Wf, WfSchema, FieldBytes, Coherent, Owns, Apart;
      ghost var good := Coherent() && |Serialize(S, VariantTensorData, content)| < TWO_TO_31;
      var fs := VARIANT_TENSOR_DATA_FIELDS;
      PrintStart(S, VariantTensorData, content);
      target := PrintData(S, VariantTensorData, content, 0, fs[0], typeName, [], good);
      target := PrintData(S, VariantTensorData, content, 1, fs[1], metadata, target, good);
      target := PrintTensors(target, good);
      if good { PrintEnd(S, VariantTensorData, content, target); }
      target := target + EncodeAll(unknown);
    }

    /** Field 3. */
    method PrintTensors(start: bytes, ghost good: bool) returns (target: bytes)
      requires Valid() && (good ==> Coherent() && |Serialize(S, VariantTensorData, content)| < TWO_TO_31)
      requires good ==> PrintedUpto(S, VariantTensorData, content, 2, start)
      decreases Repr, 0
      ensures good ==> PrintedUpto(S, VariantTensorData, content, 3, target)
    {
      hide PrintedUpto, Serialize, EncodeAll, Wf, WfSchema, FieldBytes, WithPrefix, ToCachedSize;
      ghost var f, vs := VARIANT_TENSOR_DATA_FIELDS[2], content.slots[2].vs;
      NothingIsPrinted(S, f);
      if good { PrintStep(S, VariantTensorData, content, 2, start, FieldBytes(S, f, vs)); }
      target := start;
      for i := 0 to |tensors|
        invariant good ==> target == start + FieldBytes(S, f, vs[..i])
      {
        assert Owns(i);
        if good {
          assert ChildCoherent(i);
          TensorIsShorter(S, content, i);
          assert tensors[i].Coherent();
          PrintMessage(S, f, vs, i, tensors[i].cache.total);
        }
        var data := tensors[i].InternalSerialize();
        target := target + WithPrefix(3, tensors[i].cache.total, data);
      }
      assert vs[..|tensors|] == vs;
    }
  }

  class TensorProto {
    const S: Schema
    const cache: SizeCache
    var dtype: int32
    var tensorShape: FlatMessage?
    var versionNumber: int32
    var tensorContent: bytes
    var floatVal: seq<Value>
    var doubleVal: seq<Value>
    var intVal: seq<Value>
    var stringVal: seq<Value>
    var scomplexVal: seq<Value>
    var int64Val: seq<Value>
    var boolVal: seq<Value>
    var dcomplexVal: seq<Value>
    var halfVal: seq<Value>
    var resourceHandleVal: seq<FlatMessage>
    var variantVal: seq<VariantTensorDataProto>
    var uint32Val: seq<Value>
    var uint64Val: seq<Value>
    var float8Val: bytes
    var unknown: seq<Record>
    ghost var content: Msg
    ghost var Repr: set<object>
    ghost var Caches: set<object>

    /** What the field at index `j` holds, unless it holds submessages. */
    ghost function PlainAt(j: nat): seq<Value>
      reads this`dtype, this`versionNumber, this`tensorContent, this`floatVal, this`doubleVal, this`intVal,
            this`stringVal,
            this`scomplexVal, this`int64Val, this`boolVal, this`dcomplexVal, this`halfVal, this`uint32Val, this`uint64Val,
            this`float8Val
    {
      match j
      case 0 => [Num(dtype)]
      case 2 => [Num(versionNumber)]
      case 3 => [Data(tensorContent)]
      case 4 => floatVal
      case 5 => doubleVal
      case 6 => intVal
      case 7 => stringVal
      case 8 => scomplexVal
      case 9 => int64Val
      case 10 => boolVal
      case 11 => dcomplexVal
      case 12 => halfVal
      case 15 => uint32Val
      case 16 => uint64Val
      case 17 => [Data(float8Val)]
      case _ => []
    }

    ghost predicate Valid()
      reads this, Repr
      decreases Repr
    {
      && this in Repr && cache in Caches && Repr !! Caches
      && Describes(S) && Wf(S, Tensor, content) && |content.slots| == 18 && content.unknown == unknown
      && (forall j :: 0 <= j < 18 && IsPlain(j) ==> content.slots[j].vs == PlainAt(j))
      && OwnsShape()
      && |content.slots[13].vs| == |resourceHandleVal|
      && (forall i :: 0 <= i < |resourceHandleVal| ==> OwnsHandle(i))
      && (forall i, j :: 0 <= i < j < |resourceHandleVal| ==> resourceHandleVal[i].cache != resourceHandleVal[j].cache)
      && |content.slots[14].vs| == |variantVal|
      && (forall i :: 0 <= i < |variantVal| ==> OwnsVariant(i))
      && (forall i, j :: 0 <= i < j < |variantVal| ==> VariantsApart(i, j))
    }

    ghost predicate OwnsShape()
      requires |content.slots| == 18
      reads this, Repr
    {
      if tensorShape == null then content.slots[1].vs == []
      else
        && tensorShape in Repr && tensorShape.S == S && tensorShape.t == TensorShape
        && tensorShape.cache in Caches && tensorShape.cache != cache
        && content.slots[1].vs == [Sub(tensorShape.content)]
    }

    ghost predicate OwnsHandle(i: nat)
      requires i < |resourceHandleVal| && |content.slots| == 18 && |content.slots[13].vs| == |resourceHandleVal|
      reads this, Repr
    {
      var h := resourceHandleVal[i];
      && h in Repr && h.S == S && h.t == ResourceHandle
      && h.cache in Caches && h.cache != cache && (tensorShape != null ==> h.cache != tensorShape.cache)
      && content.slots[13].vs[i] == Sub(h.content)
    }

    ghost predicate OwnsVariant(i: nat)
      requires this in Repr && i < |variantVal| && |content.slots| == 18 && |content.slots[14].vs| == |variantVal|
      reads this, Repr
      decreases Repr, 0
    {
      var v := variantVal[i];
      && v in Repr && v.Repr <= Repr && this !in v.Repr && v.S == S
      && v.Caches <= Caches && cache !in v.Caches && (tensorShape != null ==> tensorShape.cache !in v.Caches)
      && (forall h <- resourceHandleVal :: h.cache !in v.Caches)
      && content.slots[14].vs[i] == Sub(v.content) && v.Valid()
    }

    ghost predicate VariantsApart(i: nat, j: nat)
      requires this in Repr && i < |variantVal| && j < |variantVal|
      requires |content.slots| == 18 && |content.slots[14].vs| == |variantVal|
      reads this, Repr
      decreases Repr, 1
    {
      OwnsVariant(i) && OwnsVariant(j) && variantVal[i].Caches !! variantVal[j].Caches
    }

    /** Every cache in the tree is up to date. */
    ghost predicate Coherent()
      requires Valid()
      reads this, Repr, Caches
      decreases Repr
    {
      && Cached(S, Tensor, content, cache)
      && (forall k :: 0 <= k < 18 && IsVarintPacked(k) ==> PackedCached(k))
      && ShapeCoherent() && ListsCoherent()
    }

    ghost predicate PackedCached(k: nat)
      requires Valid() && k < 18
      reads this, Repr, Caches
    {
      k + 1 in cache.packed && cache.packed[k + 1] == ToCachedSize(|Pack(TENSOR_FIELDS[k].kind, content.slots[k].vs)|)
    }

    ghost predicate ShapeCoherent()
      requires Valid()
      reads this, Repr, Caches
    {
      tensorShape != null ==> Cached(S, TensorShape, tensorShape.content, tensorShape.cache)
    }

    ghost predicate HandleCoherent(i: nat)
      requires Valid() && i < |resourceHandleVal|
      reads this, Repr, Caches
    {
      assert OwnsHandle(i);
      Cached(S, ResourceHandle, resourceHandleVal[i].content, resourceHandleVal[i].cache)
    }

    ghost predicate VariantCoherent(i: nat)
      requires Valid() && i < |variantVal|
      reads this, Repr, Caches
      decreases Repr, 0
    {
      assert OwnsVariant(i);
      variantVal[i].Coherent()
    }

    constructor (S: Schema)
      requires Describes(S)
      ensures Valid() && this.S == S && content == Empty(S, Tensor)
      ensures Repr == {this} && fresh(Caches)
    {
      this.S, dtype, tensorShape, versionNumber, tensorContent, float8Val, unknown := S, 0, null, 0, [], [], [];
      floatVal, doubleVal, intVal, stringVal, scomplexVal, int64Val, boolVal := [], [], [], [], [], [], [];
      dcomplexVal, halfVal, resourceHandleVal, variantVal, uint32Val, uint64Val := [], [], [], [], [], [];
      var c := new SizeCache();
      cache, Caches := c, {c};
      content := Empty(S, Tensor);
      Repr := {this};
      new;
      hide Wf, Describes, Empty, TENSOR_FIELDS;
      EmptyTensor(S);
      assert forall j :: 0 <= j < 18 && IsPlain(j) ==> content.slots[j].vs == PlainAt(j);
      assert OwnsShape();
    }

    // ----------------------------------------------------------------- changes

    /** Appends an empty variant for the caller to fill. */
    method AddVariantVal() returns (v: VariantTensorDataProto)
      requires Valid()
      modifies this
      ensures Valid() && fresh(v) && v.Valid() && v.content == Empty(S, VariantTensorData)
      ensures variantVal == old(variantVal) + [v]
      ensures content == SetSlot(old(content), 14, old(content.slots[14].vs) + [Sub(Empty(S, VariantTensorData))])
    {
      hide Wf, Describes, Empty, TENSOR_FIELDS, PlainAt;
      v := new VariantTensorDataProto(S);
      AddAllocated(v);
    }

    /** Appends a variant that was filled before. */
    method AddAllocated(v: VariantTensorDataProto)
      requires Valid() && v.Valid() && v.S == S && Repr !! v.Repr && Caches !! v.Caches && Repr !! v.Caches
      requires Caches !! v.Repr
      modifies this
      ensures Valid() && Repr == old(Repr) + v.Repr && Caches == old(Caches) + v.Caches
      ensures variantVal == old(variantVal) + [v]
      ensures content == SetSlot(old(content), 14, old(content.slots[14].vs) + [Sub(v.content)])
    {
      hide Wf, Describes, TENSOR_FIELDS, PlainAt;
      VariantFits(S, content, v.content);
      variantVal := variantVal + [v];
      content := SetSlot(content, 14, content.slots[14].vs + [Sub(v.content)]);
      Repr, Caches := Repr + v.Repr, Caches + v.Caches;
      HandlesStay(v);
      VariantsStay(v);
    }

    /** Only a variant was appended, and its parts were entered in the footprint. */
    twostate predicate Appended(v: VariantTensorDataProto)
      reads this, v
    {
      && this !in v.Repr && Repr == old(Repr) + v.Repr && Caches == old(Caches) + v.Caches
      && old(Caches) !! v.Caches && old(Repr) !! v.Caches && old(Caches) !! v.Repr
      && tensorShape == old(tensorShape) && resourceHandleVal == old(resourceHandleVal)
      && variantVal == old(variantVal) + [v]
      && |old(content.slots)| == 18 && content == SetSlot(old(content), 14, old(content.slots[14].vs) + [Sub(v.content)])
    }

    twostate lemma HandlesStay(v: VariantTensorDataProto)
      requires old(Valid()) && Appended(v) && unchanged(old(Repr) - {this})
      ensures OwnsShape()
      ensures forall i :: 0 <= i < |resourceHandleVal| ==> OwnsHandle(i)
    {
      hide Wf, Describes, PlainAt, VariantsApart, OwnsVariant;
      forall i | 0 <= i < |resourceHandleVal| ensures OwnsHandle(i) {
        assert old(OwnsHandle(i));
      }
    }

    twostate lemma VariantsStay(v: VariantTensorDataProto)
      requires old(Valid()) && Appended(v) && unchanged(old(Repr) - {this}) && this in Repr && v.Valid() && v.S == S
      ensures forall i :: 0 <= i < |variantVal| ==> OwnsVariant(i)
      ensures forall i, j :: 0 <= i < j < |variantVal| ==> VariantsApart(i, j)
    {
      hide Wf, Describes, PlainAt;
      forall h <- resourceHandleVal ensures h.cache !in v.Caches {
        var k :| 0 <= k < |resourceHandleVal| && resourceHandleVal[k] == h;
        assert old(OwnsHandle(k));
      }
      forall i | 0 <= i < |variantVal| ensures OwnsVariant(i) {
        if i < old(|variantVal|) {
          assert old(OwnsVariant(i));
        } else {
          assert variantVal[i] == v;
        }
      }
      forall i, j | 0 <= i < j < |variantVal| ensures VariantsApart(i, j) {
        assert old(OwnsVariant(i)) && OwnsVariant(i) && OwnsVariant(j);
        if j < old(|variantVal|) {
          assert old(OwnsVariant(j)) && old(VariantsApart(i, j));
          assert variantVal[i] == old(variantVal[i]) && variantVal[j] == old(variantVal[j]);
          assert variantVal[i].Caches == old(variantVal[i].Caches) && variantVal[j].Caches == old(variantVal[j].Caches);
        } else {
          assert variantVal[j] == v && variantVal[i].Caches <= old(Caches);
        }
      }
    }

    /** A change makes the caches stale: printing is right only after the sizes are computed again. */
    method AddIntVal(n: int32)
      requires Valid()
      modifies this
      ensures Valid() && Repr == old(Repr) && Caches == old(Caches)
      ensures content == SetSlot(old(content), 6, old(content.slots[6].vs) + [Num(n)])
      ensures old(Coherent()) && Small() ==> !Coherent()
    {
      hide Wf, Describes, TENSOR_FIELDS, Serialize;
      TensorFieldFacts();
      IntFits(S, content, n);
      intVal := intVal + [Num(n)];
      content := SetSlot(content, 6, content.slots[6].vs + [Num(n)]);
      forall i | 0 <= i < |resourceHandleVal| ensures OwnsHandle(i) {
        assert old(OwnsHandle(i));
      }
      forall i | 0 <= i < |variantVal| ensures OwnsVariant(i) {
        assert old(OwnsVariant(i));
      }
      forall i, j | 0 <= i < j < |variantVal| ensures VariantsApart(i, j) {
        assert old(VariantsApart(i, j));
      }
      if old(Coherent()) && Small() {
        assert old(PackedCached(6));
        GoesStale(old(content.slots[6].vs), n);
      }
    }

    lemma GoesStale(vs: seq<Value>, n: int)
      requires Valid() && Small() && content.slots[6].vs == vs + [Num(n)]
      requires 7 in cache.packed && cache.packed[7] == ToCachedSize(|Pack(TENSOR_FIELDS[6].kind, vs)|)
      ensures !PackedCached(6)
    {
      hide Wf, WfSchema, TENSOR_FIELDS, Serialize, Pack, OwnsShape, OwnsHandle, OwnsVariant, VariantsApart;
      TensorFieldFacts();
      FieldsOfTensor();
      PackedIsShorter(S, Tensor, content, 6);
      PackGrows(TENSOR_FIELDS[6].kind, vs, n);
    }

    // ------------------------------------------------------------------- sizes

    ghost function SizeAt(k: nat): nat
      requires Describes(S) && |content.slots| == 18 && k < 18
      reads this
    {
      FieldSize(S, TENSOR_FIELDS[k], content.slots[k].vs)
    }

    ghost predicate Small()
      reads this
    {
      |Serialize(S, Tensor, content)| < TWO_TO_31
    }

    lemma SizesAddUp()
      requires Describes(S) && |content.slots| == 18
      ensures |Serialize(S, Tensor, content)|
           == SizeAt(0) + SizeAt(1) + SizeAt(2) + SizeAt(3) + SizeAt(4) + SizeAt(5) + SizeAt(6) + SizeAt(7) + SizeAt(8)
              + SizeAt(9) + SizeAt(10) + SizeAt(11) + SizeAt(12) + SizeAt(13) + SizeAt(14) + SizeAt(15) + SizeAt(16)
              + SizeAt(17) + |EncodeAll(content.unknown)|
    {
      hide Serialize, EncodeAll, FieldSize, TENSOR_FIELDS, WfSchema, SizesFrom;
      TensorFieldFacts();
      SerializedSize(S, Tensor, content);
      SizesFromStep(S, Tensor, content, 0);
      SizesFromStep(S, Tensor, content, 1);
      SizesFromStep(S, Tensor, content, 2);
      SizesFromStep(S, Tensor, content, 3);
      SizesFromStep(S, Tensor, content, 4);
      SizesFromStep(S, Tensor, content, 5);
      SizesFromStep(S, Tensor, content, 6);
      SizesFromStep(S, Tensor, content, 7);
      SizesFromStep(S, Tensor, content, 8);
      SizesFromStep(S, Tensor, content, 9);
      SizesFromStep(S, Tensor, content, 10);
      SizesFromStep(S, Tensor, content, 11);
      SizesFromStep(S, Tensor, content, 12);
      SizesFromStep(S, Tensor, content, 13);
      SizesFromStep(S, Tensor, content, 14);
      SizesFromStep(S, Tensor, content, 15);
      SizesFromStep(S, Tensor, content, 16);
      SizesFromStep(S, Tensor, content, 17);
      SizesFromEnd(S, Tensor, content);
    }

    /** Size of a packed field, as added to the total and as stored in its cache. */
    method SizeOfPacked(k: nat, vs: seq<Value>) returns (size: nat, cached: int)
      requires Valid() && k < 18 && IsPlain(k) && TENSOR_FIELDS[k].rule == Repeated(true) && vs == PlainAt(k)
      ensures Small() ==> size == SizeAt(k)
      ensures cached == ToCachedSize(|Pack(TENSOR_FIELDS[k].kind, content.slots[k].vs)|)
    {
      hide Wf, Serialize, FieldSize, WfSchema, TENSOR_FIELDS, PlainAt, Pack, ToCachedSize, PrefixSize, TagSize;
      TensorFieldFacts();
      TensorTag(k);
      ChildrenAreTyped(S, Tensor, content, k);
      TypedNumbers(S, TENSOR_FIELDS[k].kind, vs);
      PackedIsShorter(S, Tensor, content, k);
      if Small() { PackedFieldSize(S, TENSOR_FIELDS[k], vs); }
      var dataSize := SizeOfElements(TENSOR_FIELDS[k].kind, vs);
      size := 0;
      if dataSize > 0 { size := size + (if k < 15 then 1 else 2) + PrefixSize(dataSize); }
      cached := ToCachedSize(dataSize);
      size := size + dataSize;
    }

    /** Fields 5 to 9. */
    method FrontSizes() returns (size: nat, c5: int, c6: int, c7: int, c9: int)
      requires Valid()
      ensures Small() ==> size == SizeAt(4) + SizeAt(5) + SizeAt(6) + SizeAt(7) + SizeAt(8)
      ensures c7 == ToCachedSize(|Pack(TENSOR_FIELDS[6].kind, content.slots[6].vs)|)
    {
      hide Wf, Describes, Small, SizeAt, Pack, ToCachedSize, TENSOR_FIELDS, ValueSizes, OwnsShape, OwnsHandle,
           OwnsVariant, VariantsApart;
      TensorFieldFacts();
      StringsSize();
      var more;
      size, c5 := SizeOfPacked(4, floatVal);
      more, c6 := SizeOfPacked(5, doubleVal);
      size := size + more;
      more, c7 := SizeOfPacked(6, intVal);
      size := size + more + |stringVal|;
      more := AddSizes(S, Blob, stringVal);
      size := size + more;
      more, c9 := SizeOfPacked(8, scomplexVal);
      size := size + more;
    }

    /** Fields 10 to 13. */
    method MiddleSizes() returns (size: nat, c10: int, c11: int, c12: int, c13: int)
      requires Valid()
      ensures Small() ==> size == SizeAt(9) + SizeAt(10) + SizeAt(11) + SizeAt(12)
      ensures c10 == ToCachedSize(|Pack(TENSOR_FIELDS[9].kind, content.slots[9].vs)|)
      ensures c13 == ToCachedSize(|Pack(TENSOR_FIELDS[12].kind, content.slots[12].vs)|)
    {
      hide Wf, Describes, Small, SizeAt, Pack, ToCachedSize, TENSOR_FIELDS, ValueSizes, OwnsShape, OwnsHandle,
           OwnsVariant, VariantsApart;
      TensorFieldFacts();
      var more;
      size, c10 := SizeOfPacked(9, int64Val);
      more, c11 := SizeOfPacked(10, boolVal);
      size := size + more;
      more, c12 := SizeOfPacked(11, dcomplexVal);
      size := size + more;
      more, c13 := SizeOfPacked(12, halfVal);
      size := size + more;
    }

    /** Fields 16, 17, 4 and 18. */
    method BackSizes() returns (size: nat, c16: int, c17: int)
      requires Valid()
      ensures Small() ==> size == SizeAt(15) + SizeAt(16) + SizeAt(3) + SizeAt(17)
      ensures c16 == ToCachedSize(|Pack(TENSOR_FIELDS[15].kind, content.slots[15].vs)|)
      ensures c17 == ToCachedSize(|Pack(TENSOR_FIELDS[16].kind, content.slots[16].vs)|)
    {
      hide Wf, Describes, Small, Pack, ToCachedSize, TENSOR_FIELDS, FieldSize, DelimitedSize, OwnsShape, OwnsHandle,
           OwnsVariant,
           VariantsApart;
      TensorFieldFacts();
      TensorTag(3);
      TensorTag(17);
      ImplicitDataSize(S, TENSOR_FIELDS[3], tensorContent);
      ImplicitDataSize(S, TENSOR_FIELDS[17], float8Val);
      var more;
      size, c16 := SizeOfPacked(15, uint32Val);
      more, c17 := SizeOfPacked(16, uint64Val);
      size := size + more;
      if |tensorContent| > 0 { size := size + 1 + DelimitedSize(|tensorContent|); }
      if |float8Val| > 0 { size := size + 2 + DelimitedSize(|float8Val|); }
    }

    /** Fields 1 and 3. */
    method NumbersSize() returns (size: nat)
      requires Valid()
      ensures size == SizeAt(0) + SizeAt(2)
    {
      hide Wf, Describes, TENSOR_FIELDS, FieldSize, VarintSize, ToWire, OwnsShape, OwnsHandle, OwnsVariant,
           VariantsApart;
      TensorFieldFacts();
      TensorTag(0);
      TensorTag(2);
      ImplicitNumberSize(S, TENSOR_FIELDS[0], dtype);
      ImplicitNumberSize(S, TENSOR_FIELDS[2], versionNumber);
      size := 0;
      if dtype != 0 { size := size + 1 + VarintSize(ToWire(dtype)); }
      if versionNumber != 0 { size := size + 1 + VarintSize(ToWire(versionNumber)); }
    }

    lemma StringsSize()
      requires Valid()
      ensures SizeAt(7) == |stringVal| + ValueSizes(S, Blob, stringVal)
    {
      hide Wf, WfSchema, TENSOR_FIELDS, FieldSize, ValueSizes;
      TensorFieldFacts();
      TensorTag(7);
      ChildrenAreTyped(S, Tensor, content, 7);
      assert content.slots[7].vs == stringVal;
      FieldSizeIsSum(S, TENSOR_FIELDS[7], stringVal);
    }

    /** The resource handles with their length prefixes. */
    method HandleSizes() returns (dataSize: nat)
      requires Valid()
      modifies set h <- resourceHandleVal :: h.cache
      ensures Valid() && dataSize == ValueSizes(S, Message(ResourceHandle), content.slots[13].vs)
      ensures forall i :: 0 <= i < |resourceHandleVal| ==> HandleCoherent(i)
    {
      hide Wf, Serialize, ValueSizes, Describes, DelimitedSize;
      ghost var vs := content.slots[13].vs;
      assert forall i :: 0 <= i < |resourceHandleVal| ==> OwnsHandle(i);
      dataSize := 0;
      NoSizes(S, Message(ResourceHandle));
      for i := 0 to |resourceHandleVal|
        invariant Valid()
        invariant dataSize == ValueSizes(S, Message(ResourceHandle), vs[..i])
        invariant forall j :: 0 <= j < i ==> HandleCoherent(j)
      {
        assert OwnsHandle(i);
        NextSize(S, Message(ResourceHandle), vs, i);
        label Before:
        var size := resourceHandleVal[i].ByteSizeLong();
        dataSize := dataSize + DelimitedSize(size);
        forall j | 0 <= j < i ensures HandleCoherent(j) {
          assert OwnsHandle(j) && old@Before(HandleCoherent(j));
        }
      }
      assert vs[..|resourceHandleVal|] == vs;
    }

    /** The caches of all variants; none of them is a cache of the tensor itself, its shape or its
        resource handles. */
    ghost function VariantCaches(): (cs: set<object>)
      requires Valid()
      reads this, Repr
      ensures forall i :: 0 <= i < |variantVal| ==> CachesOf(i) <= cs
      ensures cs <= Caches && cache !in cs && (tensorShape != null ==> tensorShape.cache !in cs)
      ensures forall h <- resourceHandleVal :: h.cache !in cs
    {
      set i, o | 0 <= i < |variantVal| && o in CachesOf(i) :: o
    }

    ghost function CachesOf(i: nat): (cs: set<object>)
      requires Valid() && i < |variantVal|
      reads this, Repr
      ensures cs <= Caches && cache !in cs && (tensorShape != null ==> tensorShape.cache !in cs)
      ensures forall h <- resourceHandleVal :: h.cache !in cs
    {
      assert OwnsVariant(i);
      variantVal[i].Caches
    }

    /** The variants with their length prefixes. */
    method VariantSizes() returns (dataSize: nat)
      requires Valid()
      modifies VariantCaches()
      decreases Repr, 0
      ensures Valid()
      ensures Small() ==>
                && dataSize == ValueSizes(S, Message(VariantTensorData), content.slots[14].vs)
                && forall i :: 0 <= i < |variantVal| ==> VariantCoherent(i)
    {
      hide Wf, Serialize, ValueSizes, Describes, DelimitedSize, PlainAt, OwnsShape, OwnsHandle, IsPlain;
      ghost var small := Small();
      ghost var vs := content.slots[14].vs;
      ghost var mine := VariantCaches();
      dataSize := 0;
      NoSizes(S, Message(VariantTensorData));
      for i := 0 to |variantVal|
        invariant Valid() && VariantCaches() == mine
        invariant small ==> dataSize == ValueSizes(S, Message(VariantTensorData), vs[..i])
        invariant small ==> forall j :: 0 <= j < i ==> VariantCoherent(j)
      {
        assert OwnsVariant(i);
        if small { VariantIsShorter(S, content, i); }
        NextSize(S, Message(VariantTensorData), vs, i);
        label Before:
        assert CachesOf(i) <= mine;
        var size := variantVal[i].ByteSizeLong();
        dataSize := dataSize + DelimitedSize(size);
        forall j | small && 0 <= j < i ensures VariantCoherent(j) {
          assert VariantsApart(j, i);
          assert old@Before(VariantsApart(j, i) && OwnsVariant(j) && OwnsVariant(i));
          assert old@Before(variantVal[j].Repr <= Repr);
          assert old@Before(variantVal[i].Caches <= Caches);
          assert old@Before(VariantCoherent(j));
        }
      }
      assert vs[..|variantVal|] == vs;
    }

    ghost predicate ListsCoherent()
      requires Valid()
      reads this, Repr, Caches
      decreases Repr, 1
    {
      && (forall i :: 0 <= i < |resourceHandleVal| ==> HandleCoherent(i))
      && (forall i :: 0 <= i < |variantVal| ==> VariantCoherent(i))
    }

    /** Fields 14 and 15. */
    method MessageListSizes() returns (size: nat)
      requires Valid()
      modifies Caches - {cache}
      decreases Repr, 1
      ensures Valid()
      ensures Small() ==> size == SizeAt(13) + SizeAt(14) && ListsCoherent()
    {
      hide Wf, Describes, Small, Serialize, SizeAt, ValueSizes, DelimitedSize;
      ListSizes();
      ghost var mine := VariantCaches();
      forall i | 0 <= i < |resourceHandleVal|
        ensures resourceHandleVal[i].cache in Caches - {cache} && resourceHandleVal[i].cache !in mine
      {
        assert OwnsHandle(i) && resourceHandleVal[i] in resourceHandleVal;
      }
      var dataSize := HandleSizes();
      size := |resourceHandleVal| + dataSize + |variantVal|;
      label Before:
      assert VariantCaches() == mine;
      dataSize := VariantSizes();
      size := size + dataSize;
      forall i | 0 <= i < |resourceHandleVal| ensures HandleCoherent(i) {
        assert OwnsHandle(i) && old@Before(HandleCoherent(i));
      }
    }

    /** Field 2. */
    method ShapeSize() returns (size: nat)
      requires Valid()
      modifies Caches - {cache}
      ensures Valid() && size == SizeAt(1) && ShapeCoherent()
      ensures old(ListsCoherent()) ==> ListsCoherent()
    {
      hide Wf, Describes, Serialize, SizeAt, ValueSizes, DelimitedSize;
      ListSizes();
      ghost var mine := VariantCaches();
      size := 0;
      if tensorShape != null {
        var shapeSize := tensorShape.ByteSizeLong();
        size := 1 + DelimitedSize(shapeSize);
        if old(ListsCoherent()) {
          forall i | 0 <= i < |resourceHandleVal| ensures HandleCoherent(i) {
            assert OwnsHandle(i) && old(HandleCoherent(i));
          }
          forall i | 0 <= i < |variantVal| ensures VariantCoherent(i) {
            assert OwnsVariant(i) && old(OwnsVariant(i)) && old(VariantCoherent(i));
          }
        }
      }
    }

    /** Stores the sizes that were computed. */
    method StoreSizes(totalSize: nat, packed: map<nat, int>)
      requires Valid()
      modifies cache
      ensures Valid() && cache.total == ToCachedSize(totalSize) && cache.packed == packed
      ensures old(ShapeCoherent()) ==> ShapeCoherent()
      ensures old(ListsCoherent()) ==> ListsCoherent()
    {
      hide Wf, Describes, Serialize, ToCachedSize;
      cache.packed := packed;
      cache.total := ToCachedSize(totalSize);
      if old(ListsCoherent()) {
        forall i | 0 <= i < |resourceHandleVal| ensures HandleCoherent(i) {
          assert OwnsHandle(i) && old(HandleCoherent(i));
        }
        forall i | 0 <= i < |variantVal| ensures VariantCoherent(i) {
          assert OwnsVariant(i) && old(OwnsVariant(i)) && old(VariantCoherent(i));
        }
      }
    }

    lemma IsDescribed()
      requires Valid()
      ensures Describes(S) && |content.slots| == 18 && content.unknown == unknown && this !in Caches && cache in Caches
    {
    }

    /** `packed` has the right size for the cache of packed field `k`. */
    ghost predicate SizeOfPackedIn(packed: map<nat, int>, k: nat)
      requires Valid() && k < 18
      reads this, Repr
    {
      k + 1 in packed && packed[k + 1] == ToCachedSize(|Pack(TENSOR_FIELDS[k].kind, content.slots[k].vs)|)
    }

    /** Fields 5 to 13. */
    method FirstSizes() returns (size: nat, packed: map<nat, int>)
      requires Valid()
      ensures Small() ==>
                size == SizeAt(4) + SizeAt(5) + SizeAt(6) + SizeAt(7) + SizeAt(8) + SizeAt(9) + SizeAt(10) + SizeAt(11)
                        + SizeAt(12)
      ensures SizeOfPackedIn(packed, 6) && SizeOfPackedIn(packed, 9) && SizeOfPackedIn(packed, 12)
    {
      hide Valid, Small, SizeAt, Pack, ToCachedSize, TENSOR_FIELDS;
      var c5, c6, c7, c9, c10, c11, c12, c13, more;
      size, c5, c6, c7, c9 := FrontSizes();
      more, c10, c11, c12, c13 := MiddleSizes();
      size := size + more;
      packed := map[5 := c5, 6 := c6, 7 := c7, 9 := c9, 10 := c10, 11 := c11, 12 := c12, 13 := c13];
    }

    /** Fields 16, 17, 4 and 18, the shape, and fields 1 and 3. */
    method LastSizes() returns (size: nat, c16: int, c17: int)
      requires Valid()
      modifies Caches - {cache}
      ensures Valid() && ShapeCoherent()
      ensures Small() ==>
                size == SizeAt(15) + SizeAt(16) + SizeAt(3) + SizeAt(17) + SizeAt(1) + SizeAt(0) + SizeAt(2)
      ensures c16 == ToCachedSize(|Pack(TENSOR_FIELDS[15].kind, content.slots[15].vs)|)
      ensures c17 == ToCachedSize(|Pack(TENSOR_FIELDS[16].kind, content.slots[16].vs)|)
      ensures old(ListsCoherent()) ==> ListsCoherent()
    {
      hide Valid, Small, SizeAt, Pack, ToCachedSize, TENSOR_FIELDS, ShapeCoherent, ListsCoherent;
      IsApart();
      var more;
      size, c16, c17 := BackSizes();
      more := ShapeSize();
      size := size + more;
      more := NumbersSize();
      size := size + more;
    }

    lemma IsApart()
      requires Valid()
      ensures Describes(S) && |content.slots| == 18 && content.unknown == unknown && this !in Caches && cache in Caches
    {
    }

    /** Packed fields and lists first, submessages filling their own caches on the way; then the
        singular fields. */
    method AllSizes() returns (totalSize: nat, packed: map<nat, int>)
      requires Valid()
      modifies Caches - {cache}
      decreases Repr, 2
      ensures Valid() && forall k :: 0 <= k < 18 && IsVarintPacked(k) ==> SizeOfPackedIn(packed, k)
      ensures Small() ==> totalSize == |Serialize(S, Tensor, content)| && ShapeCoherent() && ListsCoherent()
    {
      hide Valid, Small, Serialize, SizeAt, Pack, ToCachedSize, TENSOR_FIELDS, EncodeAll, ShapeCoherent, ListsCoherent;
      IsApart();
      SizesAddUp();
      var c16, c17, more;
      totalSize, packed := FirstSizes();
      more := MessageListSizes();
      totalSize := totalSize + more;
      more, c16, c17 := LastSizes();
      totalSize := totalSize + more + |EncodeAll(unknown)|;
      packed := packed[16 := c16][17 := c17];
    }

    method ByteSizeLong() returns (totalSize: nat)
      requires Valid()
      modifies Caches
      decreases Repr
      ensures Valid()
      ensures Small() ==> totalSize == |Serialize(S, Tensor, content)| && Coherent()
    {
      hide Wf, Describes, Small, Serialize, Pack, ToCachedSize, TENSOR_FIELDS, ShapeCoherent, ListsCoherent, OwnsShape,
           OwnsHandle, OwnsVariant, VariantsApart;
      var packed;
      totalSize, packed := AllSizes();
      StoreSizes(totalSize, packed);
    }

    lemma ListSizes()
      requires Valid()
      ensures SizeAt(13) == |resourceHandleVal| + ValueSizes(S, Message(ResourceHandle), content.slots[13].vs)
      ensures SizeAt(14) == |variantVal| + ValueSizes(S, Message(VariantTensorData), content.slots[14].vs)
      ensures SizeAt(1)
           == if tensorShape == null then 0 else 1 + DelimitedSize(|Serialize(S, TensorShape, tensorShape.content)|)
    {
      hide Wf, WfSchema, TENSOR_FIELDS, FieldSize, ValueSizes, ValueSize, DelimitedSize;
      TensorFieldFacts();
      TensorTag(1);
      TensorTag(13);
      TensorTag(14);
      ChildrenAreTyped(S, Tensor, content, 1);
      ChildrenAreTyped(S, Tensor, content, 13);
      ChildrenAreTyped(S, Tensor, content, 14);
      FieldSizeIsSum(S, TENSOR_FIELDS[1], content.slots[1].vs);
      FieldSizeIsSum(S, TENSOR_FIELDS[13], content.slots[13].vs);
      FieldSizeIsSum(S, TENSOR_FIELDS[14], content.slots[14].vs);
      NoSizes(S, Message(TensorShape));
      if tensorShape != null {
        OneSize(S, Message(TensorShape), Sub(tensorShape.content));
        ContentSize(S, Message(TensorShape), Sub(tensorShape.content));
      }
    }

    // ---------------------------------------------------------------- printing

    /** The length prefixes of submessages and of packed varints come from the caches.  If they are
        up to date, that is after `ByteSizeLong` with no change in between, the result is the
        serialized message. */
    method InternalSerialize() returns (target: bytes)
      requires Valid()
      decreases Repr
      ensures Coherent() && Small() ==> target == Serialize(S, Tensor, content)
    {
      hide PrintedUpto, Serialize, EncodeAll, Wf, Describes, Small, TENSOR_FIELDS, OwnsShape, OwnsHandle, OwnsVariant,
           VariantsApart, Coherent;
      TensorFieldFacts();
      ghost var good := Coherent() && Small();
      PrintStart(S, Tensor, content);
      target := PrintDType([], good);
      target := PrintShape(target, good);
      target := PrintFront(target, good);
      target := PrintMiddle(target, good);
      target := PrintNext(target, good);
      target := PrintHandles(target, good);
      target := PrintVariants(target, good);
      target := PrintBack(target, good);
      FieldsOfTensor();
      if good { PrintEnd(S, Tensor, content, target); }
      target := target + EncodeAll(unknown);
    }

    lemma FieldsOfTensor()
      requires Describes(S)
      ensures FieldsOf(S, Tensor) == TENSOR_FIELDS
    {
    }

    /** Field 1. */
    method PrintDType(start: bytes, ghost good: bool) returns (target: bytes)
      requires Valid() && (good ==> Coherent() && Small()) && (good ==> PrintedUpto(S, Tensor, content, 0, start))
      ensures good ==> PrintedUpto(S, Tensor, content, 1, target)
    {
      hide PrintedUpto, Serialize, EncodeAll, Wf, Describes, FieldBytes, TENSOR_FIELDS, OwnsShape, OwnsHandle,
           OwnsVariant, VariantsApart;
      TensorFieldFacts();
      FieldsOfTensor();
      target := start;
      target := PrintNumber(S, Tensor, content, 0, TENSOR_FIELDS[0], dtype, target, good);
    }

    /** Field 2. */
    method PrintShape(start: bytes, ghost good: bool) returns (target: bytes)
      requires Valid() && (good ==> Coherent() && Small()) && (good ==> PrintedUpto(S, Tensor, content, 1, start))
      ensures good ==> PrintedUpto(S, Tensor, content, 2, target)
    {
      hide PrintedUpto, Serialize, EncodeAll, Wf, WfSchema, FieldBytes, TENSOR_FIELDS, OwnsHandle, OwnsVariant,
           VariantsApart,
           WithPrefix, ToCachedSize;
      TensorFieldFacts();
      ghost var f, vs := TENSOR_FIELDS[1], content.slots[1].vs;
      if good { PrintStep(S, Tensor, content, 1, start, FieldBytes(S, f, vs)); }
      NothingIsPrinted(S, f);
      target := start;
      if tensorShape != null {
        if good {
          ChildIsShorter(S, Tensor, content, 1, 0);
          PrintMessage(S, f, vs, 0, tensorShape.cache.total);
        }
        var data := tensorShape.InternalSerialize();
        target := target + WithPrefix(2, tensorShape.cache.total, data);
        assert vs[..1] == vs;
      }
      assert good ==> target == start + FieldBytes(S, f, vs);
    }

    /** Fields 3 to 8. */
    method PrintFront(start: bytes, ghost good: bool) returns (target: bytes)
      requires Valid() && (good ==> Coherent() && Small()) && (good ==> PrintedUpto(S, Tensor, content, 2, start))
      ensures good ==> PrintedUpto(S, Tensor, content, 8, target)
    {
      hide PrintedUpto, Serialize, EncodeAll, Wf, Describes, FieldBytes, TENSOR_FIELDS, OwnsShape, OwnsHandle,
           OwnsVariant, VariantsApart;
      TensorFieldFacts();
      FieldsOfTensor();
      target := start;
      target := PrintNumber(S, Tensor, content, 2, TENSOR_FIELDS[2], versionNumber, target, good);
      target := PrintData(S, Tensor, content, 3, TENSOR_FIELDS[3], tensorContent, target, good);
      target := PrintFixedPacked(S, Tensor, content, 4, TENSOR_FIELDS[4], floatVal, target, good);
      target := PrintFixedPacked(S, Tensor, content, 5, TENSOR_FIELDS[5], doubleVal, target, good);
      target := PrintVarints(6, intVal, target, good);
      target := PrintStrings(target, good);
    }

    /** Fields 9 and 10. */
    method PrintMiddle(start: bytes, ghost good: bool) returns (target: bytes)
      requires Valid() && (good ==> Coherent() && Small()) && (good ==> PrintedUpto(S, Tensor, content, 8, start))
      ensures good ==> PrintedUpto(S, Tensor, content, 10, target)
    {
      hide PrintedUpto, Serialize, EncodeAll, Wf, Describes, FieldBytes, TENSOR_FIELDS, OwnsShape, OwnsHandle,
           OwnsVariant, VariantsApart;
      TensorFieldFacts();
      FieldsOfTensor();
      target := start;
      target := PrintFixedPacked(S, Tensor, content, 8, TENSOR_FIELDS[8], scomplexVal, target, good);
      target := PrintVarints(9, int64Val, target, good);
    }

    /** Fields 11 to 13. */
    method PrintNext(start: bytes, ghost good: bool) returns (target: bytes)
      requires Valid() && (good ==> Coherent() && Small()) && (good ==> PrintedUpto(S, Tensor, content, 10, start))
      ensures good ==> PrintedUpto(S, Tensor, content, 13, target)
    {
      hide PrintedUpto, Serialize, EncodeAll, Wf, Describes, FieldBytes, TENSOR_FIELDS, OwnsShape, OwnsHandle,
           OwnsVariant, VariantsApart;
      TensorFieldFacts();
      FieldsOfTensor();
      target := start;
      target := PrintFixedPacked(S, Tensor, content, 10, TENSOR_FIELDS[10], boolVal, target, good);
      target := PrintFixedPacked(S, Tensor, content, 11, TENSOR_FIELDS[11], dcomplexVal, target, good);
      target := PrintVarints(12, halfVal, target, good);
    }

    /** Fields 16 to 18. */
    method PrintBack(start: bytes, ghost good: bool) returns (target: bytes)
      requires Valid() && (good ==> Coherent() && Small()) && (good ==> PrintedUpto(S, Tensor, content, 15, start))
      ensures good ==> PrintedUpto(S, Tensor, content, 18, target)
    {
      hide PrintedUpto, Serialize, EncodeAll, Wf, Describes, FieldBytes, TENSOR_FIELDS, OwnsShape, OwnsHandle,
           OwnsVariant, VariantsApart;
      TensorFieldFacts();
      FieldsOfTensor();
      target := start;
      target := PrintVarints(15, uint32Val, target, good);
      target := PrintVarints(16, uint64Val, target, good);
      target := PrintData(S, Tensor, content, 17, TENSOR_FIELDS[17], float8Val, target, good);
    }

    /** Field 8. */
    method PrintStrings(start: bytes, ghost good: bool) returns (target: bytes)
      requires Valid() && (good ==> PrintedUpto(S, Tensor, content, 7, start))
      ensures good ==> PrintedUpto(S, Tensor, content, 8, target)
    {
      hide PrintedUpto, Serialize, EncodeAll, Wf, WfSchema, Encode, TENSOR_FIELDS, OwnsShape, OwnsHandle, OwnsVariant,
           VariantsApart,
           FieldBytes, PayloadOf;
      TensorFieldFacts();
      var f, vs := TENSOR_FIELDS[7], stringVal;
      if good { PrintStep(S, Tensor, content, 7, start, FieldBytes(S, f, vs)); }
      NothingIsPrinted(S, f);
      target := start;
      for i := 0 to |vs|
        invariant target == start + FieldBytes(S, f, vs[..i])
      {
        assert vs[..i + 1] == vs[..i] + [vs[i]];
        FieldBytesSnoc(S, f, vs[..i], vs[i]);
        target := target + Encode(Record(f.num, PayloadOf(S, f.kind, vs[i])));
      }
      assert vs[..|vs|] == vs;
    }

    /** A packed field whose size comes from its cache. */
    method PrintVarints(k: nat, vs: seq<Value>, start: bytes, ghost good: bool) returns (target: bytes)
      requires Valid() && (good ==> Coherent() && Small())
      requires k < 18 && IsVarintPacked(k) && vs == PlainAt(k) && (good ==> PrintedUpto(S, Tensor, content, k, start))
      ensures good ==> PrintedUpto(S, Tensor, content, k + 1, target)
    {
      hide PrintedUpto, Serialize, EncodeAll, Wf, WfSchema, FieldBytes, TENSOR_FIELDS, OwnsShape, OwnsHandle,
           OwnsVariant, VariantsApart,
           PlainAt, Pack, ToCachedSize;
      TensorFieldFacts();
      ChildrenAreTyped(S, Tensor, content, k);
      TypedNumbers(S, TENSOR_FIELDS[k].kind, vs);
      PackedIsShorter(S, Tensor, content, k);
      assert good ==> PackedCached(k);
      var byteSize := if k + 1 in cache.packed then cache.packed[k + 1] else 0;
      target := PrintCachedPacked(S, Tensor, content, k, TENSOR_FIELDS[k], vs, byteSize, start, good);
    }

    /** Field 14. */
    method PrintHandles(start: bytes, ghost good: bool) returns (target: bytes)
      requires Valid() && (good ==> Coherent() && Small()) && (good ==> PrintedUpto(S, Tensor, content, 13, start))
      ensures good ==> PrintedUpto(S, Tensor, content, 14, target)
    {
      hide PrintedUpto, Serialize, EncodeAll, Wf, WfSchema, FieldBytes, TENSOR_FIELDS, OwnsShape, OwnsVariant,
           VariantsApart, WithPrefix,
           ToCachedSize;
      TensorFieldFacts();
      ghost var f, vs := TENSOR_FIELDS[13], content.slots[13].vs;
      if good { PrintStep(S, Tensor, content, 13, start, FieldBytes(S, f, vs)); }
      NothingIsPrinted(S, f);
      target := start;
      for i := 0 to |resourceHandleVal|
        invariant good ==> target == start + FieldBytes(S, f, vs[..i])
      {
        assert OwnsHandle(i);
        if good {
          assert HandleCoherent(i);
          ChildIsShorter(S, Tensor, content, 13, i);
          PrintMessage(S, f, vs, i, resourceHandleVal[i].cache.total);
        }
        var data := resourceHandleVal[i].InternalSerialize();
        target := target + WithPrefix(14, resourceHandleVal[i].cache.total, data);
      }
      assert vs[..|resourceHandleVal|] == vs;
    }

    /** Field 15. */
    method PrintVariants(start: bytes, ghost good: bool) returns (target: bytes)
      requires Valid() && (good ==> Coherent() && Small()) && (good ==> PrintedUpto(S, Tensor, content, 14, start))
      decreases Repr, 0
      ensures good ==> PrintedUpto(S, Tensor, content, 15, target)
    {
      hide PrintedUpto, Serialize, EncodeAll, Wf, WfSchema, FieldBytes, TENSOR_FIELDS, OwnsShape, OwnsHandle,
           VariantsApart, WithPrefix,
           ToCachedSize;
      TensorFieldFacts();
      ghost var f, vs := TENSOR_FIELDS[14], content.slots[14].vs;
      if good { PrintStep(S, Tensor, content, 14, start, FieldBytes(S, f, vs)); }
      NothingIsPrinted(S, f);
      target := start;
      for i := 0 to |variantVal|
        invariant good ==> target == start + FieldBytes(S, f, vs[..i])
      {
        assert OwnsVariant(i);
        if good {
          assert VariantCoherent(i);
          VariantIsShorter(S, content, i);
          assert variantVal[i].Coherent();
          PrintMessage(S, f, vs, i, variantVal[i].cache.total);
        }
        var data := variantVal[i].InternalSerialize();
        target := target + WithPrefix(15, variantVal[i].cache.total, data);
      }
      assert vs[..|variantVal|] == vs;
    }
  }
}
