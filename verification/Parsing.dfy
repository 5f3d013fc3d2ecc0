/** The parse loops as the generated code runs them: one turn of the dispatch loop, and the inner
    loops that stay in one case while the same tag follows. */
module Parsing {
  import opened Wire
  import Utf8
  import opened Schemas
  import opened Messages
  import opened Codec
  import opened MasterLaw
  import opened NormalForm

  /** Going from message `m` with unread bytes `b` to `m'` with `rest` is some turns of the loop:
      progress is made, the outcome of the whole parse is the same, and the message stays well
      formed. */
  ghost predicate StepsTo(S: Schema, t: MessageType, m: Msg, b: bytes, m': Msg, rest: bytes) {
    && |rest| < |b|
    && ParseInto(S, t, m, b) == ParseInto(S, t, m', rest)
    && (Wf(S, t, m) ==> Wf(S, t, m'))
  }

  ghost predicate Fails(S: Schema, t: MessageType, m: Msg, b: bytes) {
    ParseInto(S, t, m, b).None?
  }

  /** Comparing the low byte of the tag, after the switch on its field number, is exact. */
  lemma LowByteTestIsExact(tag: nat, num: nat, wireType: nat)
    requires wireType < 8
    ensures tag / 8 == num && tag % 256 == Tag(num, wireType) % 256 <==> tag == Tag(num, wireType)
  {
    hide Tag;
    TagParts(num, wireType);
    LowBits(tag);
    LowBits(Tag(num, wireType));
  }

  lemma TagParts(num: nat, wireType: nat)
    requires wireType < 8
    ensures Tag(num, wireType) / 8 == num && Tag(num, wireType) % 8 == wireType
  {
  }

  lemma LowBits(tag: nat)
    ensures tag == 8 * (tag / 8) + tag % 8 && tag % 256 % 8 == tag % 8
  {
    var q, r := tag / 256, tag % 256;
    assert tag == 8 * (32 * q + r / 8) + r % 8;
  }

  lemma ReadFailureFails(S: Schema, t: MessageType, m: Msg, b: bytes)
    requires b != [] && (ReadTag(b).Ok? ==> ReadPayload(ReadTag(b).value, ReadTag(b).rest).Fail?)
    ensures Fails(S, t, m, b)
  {
  }

  /** The turn at `b` ends in message `next` with `rest` left, or in failure. */
  ghost predicate Outcome(S: Schema, t: MessageType, m: Msg, b: bytes, next: Option<Msg>, rest: bytes) {
    match next
    case None => Fails(S, t, m, b)
    case Some(m') => StepsTo(S, t, m, b, m', rest)
  }

  /** One turn of the dispatch loop. */
  lemma OneTurn(S: Schema, t: MessageType, m: Msg, b: bytes, tag: nat, p: Payload, b1: bytes, rest: bytes)
    requires WfSchema(S) && b != [] && ReadTag(b) == Ok(tag, b1) && ReadPayload(tag, b1) == Ok(p, rest)
    ensures Outcome(S, t, m, b, Apply(S, t, m, Record(tag / 8, p)), rest)
  {
    hide Apply, Wf, ReadTag, ReadPayload;
    assert ReadRecord(b) == Ok(Record(tag / 8, p), rest);
    if Wf(S, t, m) { ApplyKeepsWf(S, t, m, Record(tag / 8, p)); }
  }

  /** `ExpectTag<tag>`: the bytes of the minimal encoding come next. */
  predicate ExpectTag(tag: nat, b: bytes) {
    Varint(tag) <= b
  }

  lemma ExpectedTagIsRead(tag: nat, b: bytes)
    requires tag < TWO_TO_32 && ExpectTag(tag, b)
    ensures ReadTag(b) == Ok(tag, b[|Varint(tag)|..])
  {
    var rest := b[|Varint(tag)|..];
    assert b == Varint(tag) + rest;
    ReadTagOf(tag, rest);
  }

  function Nums(ns: seq<int>): (vs: seq<Value>)
    ensures |vs| == |ns| && forall i :: 0 <= i < |ns| ==> vs[i] == Num(ns[i])
  {
    seq(|ns|, i requires 0 <= i < |ns| => Num(ns[i]))
  }

  /** Outcome of handling the record(s) at `b`: on success the message becomes `m'` and `rest` is
      left; on failure so does the whole parse. */
  ghost predicate Handled(S: Schema, t: MessageType, ok: bool, m: Msg, b: bytes, m': Msg, rest: bytes) {
    if ok then StepsTo(S, t, m, b, m', rest) else Fails(S, t, m, b)
  }

  /** Field `i` of the message at hand is `f`, and `b` starts with its tag for `wireType`. */
  ghost predicate AtField(S: Schema, t: MessageType, i: nat, f: Field, wireType: nat, b: bytes, b1: bytes) {
    && WfSchema(S) && i < |FieldsOf(S, t)| && FieldsOf(S, t)[i] == f && wireType < 8
    && b != [] && ReadTag(b) == Ok(Tag(f.num, wireType), b1)
  }

  /** What the case of field `i` makes of a payload. */
  function CaseResult(S: Schema, t: MessageType, m: Msg, i: nat, f: Field, p: Payload): Option<Msg> {
    match Decode(S, f, At(m, i), p)
    case Malformed => None
    case Unusual => Some(m.(unknown := m.unknown + [Record(f.num, p)]))
    case Values(vs) => Some(Store(FieldsOf(S, t), m, i, if f.rule.Repeated? then At(m, i) + vs else vs))
  }

  /** One turn of the dispatch loop that takes the case of field `i`. */
  lemma FieldTurn(S: Schema, t: MessageType, m: Msg, i: nat, f: Field, p: Payload, b: bytes, b1: bytes, rest: bytes)
    requires AtField(S, t, i, f, WireType(p), b, b1) && ReadPayload(Tag(f.num, WireType(p)), b1) == Ok(p, rest)
    ensures Outcome(S, t, m, b, CaseResult(S, t, m, i, f, p), rest)
  {
    CaseIsTaken(S, t, m, i, f, p);
    OneTurn(S, t, m, b, Tag(f.num, WireType(p)), p, b1, rest);
  }

  lemma CaseIsTaken(S: Schema, t: MessageType, m: Msg, i: nat, f: Field, p: Payload)
    requires WfSchema(S) && i < |FieldsOf(S, t)| && FieldsOf(S, t)[i] == f
    ensures Apply(S, t, m, Record(f.num, p)) == CaseResult(S, t, m, i, f, p)
  {
    FindAt(FieldsOf(S, t), i);
  }

  lemma FieldFailure(S: Schema, t: MessageType, m: Msg, i: nat, f: Field, wireType: nat, b: bytes, b1: bytes)
    requires AtField(S, t, i, f, wireType, b, b1) && ReadPayload(Tag(f.num, wireType), b1).Fail?
    ensures Fails(S, t, m, b)
  {
    ReadFailureFails(S, t, m, b);
  }

  // ------------------------------------------------------- reading one value

  /** The wire type of a single value. */
  function ValueWireType(k: Kind): (w: nat)
    ensures w < 8
  {
    if k.Float? then 5 else if k.Double? then 1 else if Numeric(k) then 0 else 2
  }

  /** A string, or a submessage parsed into the one that is there. */
  function DelimitedValue(S: Schema, f: Field, had: seq<Value>, d: bytes): Option<Value> {
    match f.kind
    case Message(t) =>
      (match ParseInto(S, t, Base(S, t, if f.rule.Repeated? then [] else had), d)
       case None => None
       case Some(m) => Some(Sub(m)))
    case _ => if f.kind == Text(true) && !Utf8.Valid(d) then None else Some(Data(d))
  }

  /** Reads a single value of a field holding `had`. */
  function ReadValue(S: Schema, f: Field, had: seq<Value>, b1: bytes): (r: Read<Value>)
    ensures r.Ok? ==> Advances(b1, r.rest)
  {
    if Numeric(f.kind) then
      match ReadOne(f.kind, b1)
      case Fail => Fail
      case Ok(n, rest) => Ok(Num(Unpacked(f.kind, n)), rest)
    else
      match ReadDelimited(b1)
      case Fail => Fail
      case Ok(d, rest) =>
        match DelimitedValue(S, f, had, d)
        case None => Fail
        case Some(v) => Ok(v, rest)
  }

  lemma DelimitedIsDecoded(S: Schema, f: Field, had: seq<Value>, d: bytes)
    requires !Numeric(f.kind)
    ensures Decode(S, f, had, Delimited(d))
         == match DelimitedValue(S, f, had, d) case None => Malformed case Some(v) => Values([v])
  {
  }

  function NumberPayload(k: Kind, n: nat): Payload {
    if k.Float? then Word32(n) else if k.Double? then Word64(n) else Scalar(n)
  }

  lemma NumberIsRead(k: Kind, tag: nat, b1: bytes)
    requires Numeric(k) && tag / 8 != 0 && tag % 8 == ValueWireType(k)
    ensures ReadPayload(tag, b1)
         == match ReadOne(k, b1) case Fail => Fail case Ok(n, rest) => Ok(NumberPayload(k, n), rest)
  {
  }

  lemma NumberIsDecoded(S: Schema, f: Field, had: seq<Value>, n: nat)
    requires Numeric(f.kind) && ClosedEnumAccepts(f.kind, n)
    ensures Decode(S, f, had, NumberPayload(f.kind, n)) == Values([Num(Unpacked(f.kind, n))])
  {
  }

  lemma DelimitedIsRead(tag: nat, b1: bytes)
    requires tag / 8 != 0 && tag % 8 == 2
    ensures ReadPayload(tag, b1)
         == match ReadDelimited(b1) case Fail => Fail case Ok(d, rest) => Ok(Delimited(d), rest)
  {
  }

  /** What the message becomes when field `i` takes the value `v`. */
  function Take(S: Schema, t: MessageType, m: Msg, i: nat, f: Field, v: Value): Msg {
    Store(FieldsOf(S, t), m, i, if f.rule.Repeated? then At(m, i) + [v] else [v])
  }

  /** A turn at a record of field `i` that starts with a length prefix. */
  lemma DelimitedTurn(S: Schema, t: MessageType, m: Msg, i: nat, f: Field, b: bytes, b1: bytes)
    requires WfField(f) && AtField(S, t, i, f, 2, b, b1)
    ensures match ReadDelimited(b1)
            case Fail => Fails(S, t, m, b)
            case Ok(d, rest) => Outcome(S, t, m, b, CaseResult(S, t, m, i, f, Delimited(d)), rest)
  {
    DelimitedIsRead(Tag(f.num, 2), b1);
    match ReadDelimited(b1)
    case Fail => FieldFailure(S, t, m, i, f, 2, b, b1);
    case Ok(d, rest) => FieldTurn(S, t, m, i, f, Delimited(d), b, b1, rest);
  }

  /** A turn at a number of field `i`, a closed enum excepted. */
  lemma NumberTurn(S: Schema, t: MessageType, m: Msg, i: nat, f: Field, b: bytes, b1: bytes)
    requires WfField(f) && Numeric(f.kind) && !f.kind.ClosedEnum? && AtField(S, t, i, f, ValueWireType(f.kind), b, b1)
    ensures match ReadOne(f.kind, b1)
            case Fail => Fails(S, t, m, b)
            case Ok(n, rest) => StepsTo(S, t, m, b, Take(S, t, m, i, f, Num(Unpacked(f.kind, n))), rest)
  {
    NumberIsRead(f.kind, Tag(f.num, ValueWireType(f.kind)), b1);
    match ReadOne(f.kind, b1)
    case Fail => FieldFailure(S, t, m, i, f, ValueWireType(f.kind), b, b1);
    case Ok(n, rest) =>
      FieldTurn(S, t, m, i, f, NumberPayload(f.kind, n), b, b1, rest);
      NumberIsDecoded(S, f, At(m, i), n);
  }

  /** One turn of the dispatch loop at a single value of field `i`, a closed enum excepted. */
  lemma ValueTurn(S: Schema, t: MessageType, m: Msg, i: nat, f: Field, b: bytes, b1: bytes)
    requires WfField(f) && !f.kind.ClosedEnum? && AtField(S, t, i, f, ValueWireType(f.kind), b, b1)
    ensures match ReadValue(S, f, At(m, i), b1)
            case Fail => Fails(S, t, m, b)
            case Ok(v, rest) => StepsTo(S, t, m, b, Take(S, t, m, i, f, v), rest)
  {
    if Numeric(f.kind) {
      NumberTurn(S, t, m, i, f, b, b1);
    } else {
      DelimitedTurn(S, t, m, i, f, b, b1);
      match ReadDelimited(b1)
      case Fail =>
      case Ok(d, _) => DelimitedIsDecoded(S, f, At(m, i), d);
    }
  }

  /** The case of a closed enum: a value that is not declared goes to the unknown fields. */
  lemma ClosedEnumTurn(S: Schema, t: MessageType, m: Msg, i: nat, f: Field, b: bytes, b1: bytes)
    requires WfField(f) && f.kind.ClosedEnum? && AtField(S, t, i, f, 0, b, b1)
    ensures match ReadVarint64(b1)
            case Fail => Fails(S, t, m, b)
            case Ok(n, rest) =>
              if ClosedEnumAccepts(f.kind, n) then StepsTo(S, t, m, b, Take(S, t, m, i, f, Num(FromWire(f.kind, n))), rest)
              else StepsTo(S, t, m, b, m.(unknown := m.unknown + [Record(f.num, Scalar(n))]), rest)
  {
    NumberIsRead(f.kind, Tag(f.num, 0), b1);
    match ReadVarint64(b1)
    case Fail => FieldFailure(S, t, m, i, f, 0, b, b1);
    case Ok(n, rest) => FieldTurn(S, t, m, i, f, Scalar(n), b, b1, rest);
  }

  /** The case of a repeated numeric field at a packed record. */
  lemma PackedTurn(S: Schema, t: MessageType, m: Msg, i: nat, f: Field, b: bytes, b1: bytes)
    requires WfField(f) && f.rule.Repeated? && Numeric(f.kind) && AtField(S, t, i, f, 2, b, b1)
    ensures match ReadDelimited(b1)
            case Fail => Fails(S, t, m, b)
            case Ok(d, rest) =>
              match Unpack(f.kind, d)
              case None => Fails(S, t, m, b)
              case Some(vs) => StepsTo(S, t, m, b, Append(FieldsOf(S, t), m, i, vs), rest)
  {
    DelimitedTurn(S, t, m, i, f, b, b1);
  }

  /** `handle_unusual`: field numbers or wire types no case takes. */
  lemma UnusualTurn(S: Schema, t: MessageType, m: Msg, b: bytes, tag: nat, b1: bytes)
    requires WfSchema(S) && b != [] && ReadTag(b) == Ok(tag, b1)
    requires ReadPayload(tag, b1).Ok? ==> Unrecognized(FieldsOf(S, t), Record(tag / 8, ReadPayload(tag, b1).value))
    ensures match ReadPayload(tag, b1)
            case Fail => Fails(S, t, m, b)
            case Ok(p, rest) => StepsTo(S, t, m, b, m.(unknown := m.unknown + [Record(tag / 8, p)]), rest)
  {
    match ReadPayload(tag, b1)
    case Fail => ReadFailureFails(S, t, m, b);
    case Ok(p, rest) =>
      UnrecognizedIsKept(S, t, m, Record(tag / 8, p));
      OneTurn(S, t, m, b, tag, p, b1, rest);
  }

  lemma UnrecognizedIsKept(S: Schema, t: MessageType, m: Msg, r: Record)
    requires Unrecognized(FieldsOf(S, t), r)
    ensures Apply(S, t, m, r) == Some(m.(unknown := m.unknown + [r]))
  {
  }

  // ------------------------------------------------ the do-while loops of a case

  /** Elements `vs` of field `i` have been read since `b`; the next one's tag is at `at` and its
      value at `rest`. */
  ghost predicate InRun(S: Schema, t: MessageType, m: Msg, i: nat, f: Field, b: bytes, vs: seq<Value>, at: bytes,
                        rest: bytes) {
    && AtField(S, t, i, f, ValueWireType(f.kind), at, rest)
    && ((at == b && vs == []) || StepsTo(S, t, m, b, Append(FieldsOf(S, t), m, i, vs), at))
  }

  lemma RunStep(S: Schema, t: MessageType, m: Msg, i: nat, f: Field, b: bytes, vs: seq<Value>, at: bytes, rest: bytes)
    requires WfField(f) && f.rule.Repeated? && InRun(S, t, m, i, f, b, vs, at, rest)
    ensures match ReadValue(S, f, [], rest)
            case Fail => Fails(S, t, m, b)
            case Ok(v, rest') => StepsTo(S, t, m, b, Append(FieldsOf(S, t), m, i, vs + [v]), rest')
  {
    hide ParseInto, Wf, ReadTag, ReadOne, ReadDelimited, Store;
    var fs := FieldsOf(S, t);
    var cur := Append(fs, m, i, vs);
    AppendNothing(fs, m, i);
    ValueTurn(S, t, cur, i, f, at, rest);
    assert ReadValue(S, f, [], rest) == ReadValue(S, f, At(cur, i), rest);
    match ReadValue(S, f, [], rest)
    case Fail =>
    case Ok(v, rest') => AppendTwice(fs, m, i, vs, [v]);
  }

  /** The inner loop of a repeated field with one tag per element: it keeps reading elements while
      more data is at hand and the next bytes are the field's tag in its usual encoding, and
      otherwise goes back to the dispatch loop.  Whenever it leaves, the outcome is the same as if
      every record had gone through the dispatch. */
  method ReadRun(S: Schema, ghost t: MessageType, ghost m: Msg, ghost i: nat, f: Field, ghost b: bytes, b1: bytes)
    returns (ok: bool, vs: seq<Value>, rest: bytes)
    requires WfField(f) && f.rule.Repeated?
    requires AtField(S, t, i, f, ValueWireType(f.kind), b, b1)
    ensures Handled(S, t, ok, m, b, Append(FieldsOf(S, t), m, i, vs), rest)
    ensures Wf(S, t, m) ==> Wf(S, t, Append(FieldsOf(S, t), m, i, vs))
  {
    var tag := Tag(f.num, ValueWireType(f.kind));
    vs, rest := [], b1;
    ghost var at := b;
    while true
      invariant InRun(S, t, m, i, f, b, vs, at, rest)
      decreases |rest|
    {
      RunStep(S, t, m, i, f, b, vs, at, rest);
      AppendNothing(FieldsOf(S, t), m, i);
      match ReadValue(S, f, [], rest) {
        case Fail => return false, vs, rest;
        case Ok(v, rest') => vs, rest := vs + [v], rest';
      }
      var dataAvailable: bool := *;
      if !dataAvailable || !ExpectTag(tag, rest) {
        return true, vs, rest;
      }
      ExpectedTagIsRead(tag, rest);
      at := rest;
      rest := rest[|Varint(tag)|..];
    }
  }

  // ------------------------------------------------------ fields outside oneofs

  function SetSlot(m: Msg, i: nat, vs: seq<Value>): Msg
    requires i < |m.slots|
  {
    m.(slots := m.slots[i := Slot(vs)])
  }

  lemma StoreIsSetSlot(fs: seq<Field>, m: Msg, i: nat, vs: seq<Value>)
    requires i < |m.slots| && i < |fs| && !fs[i].rule.Oneof?
    ensures Store(fs, m, i, vs) == SetSlot(m, i, vs)
  {
    assert Store(fs, m, i, vs).slots == SetSlot(m, i, vs).slots;
  }

  lemma SetSlotWf(S: Schema, t: MessageType, m: Msg, i: nat, vs: seq<Value>)
    requires WfSchema(S) && Wf(S, t, m) && i < |FieldsOf(S, t)| && !FieldsOf(S, t)[i].rule.Oneof?
    requires WfSlot(S, FieldsOf(S, t)[i], vs)
    ensures Wf(S, t, SetSlot(m, i, vs))
  {
    StoreWf(S, t, m, i, vs);
    StoreIsSetSlot(FieldsOf(S, t), m, i, vs);
  }

  /** The dispatch is at field `i`, which is in no oneof, of a well-formed message. */
  ghost predicate AtPlainField(S: Schema, t: MessageType, m: Msg, i: nat, f: Field, wireType: nat, b: bytes,
                               b1: bytes) {
    AtField(S, t, i, f, wireType, b, b1) && WfField(f) && !f.rule.Oneof? && Wf(S, t, m) && |m.slots| == |FieldsOf(S, t)|
  }

  /** Reads the value of a singular number. */
  method ReadNumber(S: Schema, ghost t: MessageType, ghost m: Msg, ghost i: nat, f: Field, ghost b: bytes, b1: bytes)
    returns (ok: bool, n: int, rest: bytes)
    requires Numeric(f.kind) && !f.kind.ClosedEnum? && !f.rule.Repeated?
    requires AtPlainField(S, t, m, i, f, ValueWireType(f.kind), b, b1)
    ensures InRange(f.kind, n)
    ensures Handled(S, t, ok, m, b, SetSlot(m, i, [Num(n)]), rest)
    ensures Wf(S, t, SetSlot(m, i, [Num(n)]))
  {
    hide ParseInto, ReadTag, Wf, StepsTo, Fails, Varint;
    NumberTurn(S, t, m, i, f, b, b1);
    match ReadOne(f.kind, b1) {
      case Fail => ok, n, rest := false, 0, b1;
      case Ok(v, rest') =>
        UnpackedInRange(f.kind, b1);
        ok, n, rest := true, Unpacked(f.kind, v), rest';
        StoreIsSetSlot(FieldsOf(S, t), m, i, [Num(n)]);
    }
    SetSlotWf(S, t, m, i, [Num(n)]);
  }

  /** The dispatch is at field `i` of a well-formed message. */
  ghost predicate AtWfField(S: Schema, t: MessageType, m: Msg, i: nat, f: Field, wireType: nat, b: bytes, b1: bytes) {
    AtField(S, t, i, f, wireType, b, b1) && WfField(f) && Wf(S, t, m) && |m.slots| == |FieldsOf(S, t)|
  }

  /** Reads the value of a string or bytes field, which may be a oneof member. */
  method ReadStored(S: Schema, ghost t: MessageType, ghost m: Msg, ghost i: nat, f: Field, ghost b: bytes, b1: bytes)
    returns (ok: bool, d: bytes, rest: bytes)
    requires (f.kind.Text? || f.kind.Blob?) && !f.rule.Repeated?
    requires AtWfField(S, t, m, i, f, 2, b, b1)
    ensures Handled(S, t, ok, m, b, Store(FieldsOf(S, t), m, i, [Data(d)]), rest)
    ensures Wf(S, t, Store(FieldsOf(S, t), m, i, [Data(d)]))
  {
    hide ParseInto, ReadTag, Wf, StepsTo, Fails, Varint, Utf8.Valid, ReadDelimited, Store, Decode, EncodeAll;
    DelimitedTurn(S, t, m, i, f, b, b1);
    ok, d, rest := false, [], b1;
    match ReadDelimited(b1) {
      case Fail =>
      case Ok(s, rest') =>
        DelimitedIsDecoded(S, f, At(m, i), s);
        ok, d, rest := f.kind != Text(true) || Utf8.Valid(s), s, rest';
    }
    StoreWf(S, t, m, i, [Data(d)]);
  }

  /** Reads the value of a string or bytes field outside oneofs. */
  method ReadString(S: Schema, ghost t: MessageType, ghost m: Msg, ghost i: nat, f: Field, ghost b: bytes, b1: bytes)
    returns (ok: bool, d: bytes, rest: bytes)
    requires (f.kind.Text? || f.kind.Blob?) && !f.rule.Repeated?
    requires AtPlainField(S, t, m, i, f, 2, b, b1)
    ensures Handled(S, t, ok, m, b, SetSlot(m, i, [Data(d)]), rest)
    ensures Wf(S, t, SetSlot(m, i, [Data(d)]))
  {
    hide Wf, Store, StepsTo, Fails, ReadTag;
    ok, d, rest := ReadStored(S, t, m, i, f, b, b1);
    StoreIsSetSlot(FieldsOf(S, t), m, i, [Data(d)]);
  }

  /** The message some input leaves of `base`: how a parse that failed may have left it. */
  function HalfParsed(S: Schema, t: MessageType, base: Msg, seen: bytes): Msg {
    match ParseInto(S, t, base, seen) case None => base case Some(m) => m
  }

  /** `ParseMessage`: the nested parser runs on the announced bytes and goes on with the submessage
      that is there.  If it fails, it has done so at any point and left the submessage half parsed. */
  method ReadStoredMessage(S: Schema, ghost t: MessageType, ghost m: Msg, ghost i: nat, f: Field, base: Msg,
                           ghost b: bytes,
                           b1: bytes)
    returns (ok: bool, sub: Msg, rest: bytes)
    requires f.kind.Message? && !f.rule.Repeated? && base == Base(S, f.kind.target, At(m, i))
    requires AtWfField(S, t, m, i, f, 2, b, b1)
    ensures Handled(S, t, ok, m, b, Store(FieldsOf(S, t), m, i, [Sub(sub)]), rest)
    ensures Wf(S, t, Store(FieldsOf(S, t), m, i, [Sub(sub)])) && Wf(S, f.kind.target, sub)
  {
    hide ReadTag, Wf, StepsTo, Fails, Varint, ParseInto, Store, ReadDelimited, Empty;
    DelimitedTurn(S, t, m, i, f, b, b1);
    BaseWf(S, t, m, i);
    var seen: bytes := *;
    ParseKeepsWf(S, f.kind.target, base, seen);
    ok, sub, rest := false, HalfParsed(S, f.kind.target, base, seen), b1;
    match ReadDelimited(b1) {
      case Fail =>
      case Ok(d, rest') =>
        DelimitedIsDecoded(S, f, At(m, i), d);
        ParseKeepsWf(S, f.kind.target, base, d);
        match ParseInto(S, f.kind.target, base, d) {
          case None =>
          case Some(sub') => ok, sub, rest := true, sub', rest';
        }
    }
    assert WfValue(S, f.kind, Sub(sub));
    StoreWf(S, t, m, i, [Sub(sub)]);
  }

  method ReadSubmessage(S: Schema, ghost t: MessageType, ghost m: Msg, ghost i: nat, f: Field, base: Msg,
                        ghost b: bytes,
                        b1: bytes)
    returns (ok: bool, sub: Msg, rest: bytes)
    requires f.kind.Message? && !f.rule.Repeated? && base == Base(S, f.kind.target, At(m, i))
    requires AtPlainField(S, t, m, i, f, 2, b, b1)
    ensures Handled(S, t, ok, m, b, SetSlot(m, i, [Sub(sub)]), rest)
    ensures Wf(S, t, SetSlot(m, i, [Sub(sub)]))
  {
    hide Wf, Store, StepsTo, Fails, ReadTag, Base;
    ok, sub, rest := ReadStoredMessage(S, t, m, i, f, base, b, b1);
    StoreIsSetSlot(FieldsOf(S, t), m, i, [Sub(sub)]);
  }

  lemma BaseWf(S: Schema, t: MessageType, m: Msg, i: nat)
    requires WfSchema(S) && Wf(S, t, m) && i < |FieldsOf(S, t)|
    requires FieldsOf(S, t)[i].kind.Message?
    ensures Wf(S, FieldsOf(S, t)[i].kind.target, Base(S, FieldsOf(S, t)[i].kind.target, At(m, i)))
  {
    var f := FieldsOf(S, t)[i];
    EmptyWf(S, f.kind.target);
    assert WfSlot(S, f, m.slots[i].vs);
    if At(m, i) != [] { assert WfValue(S, f.kind, At(m, i)[0]); }
  }

  /** Reads a value of a closed enum field; the caller decides what becomes of it. */
  method ReadEnum(S: Schema, ghost t: MessageType, ghost m: Msg, ghost i: nat, f: Field, ghost b: bytes, b1: bytes)
    returns (ok: bool, v: nat, rest: bytes)
    requires f.kind.ClosedEnum? && !f.rule.Repeated?
    requires AtPlainField(S, t, m, i, f, 0, b, b1)
    ensures v < TWO_TO_64
    ensures ClosedEnumAccepts(f.kind, v) ==>
              && Handled(S, t, ok, m, b, SetSlot(m, i, [Num(FromWire(f.kind, v))]), rest)
              && Wf(S, t, SetSlot(m, i, [Num(FromWire(f.kind, v))]))
    ensures !ClosedEnumAccepts(f.kind, v) ==>
              && Handled(S, t, ok, m, b, m.(unknown := m.unknown + [Record(f.num, Scalar(v))]), rest)
              && Wf(S, t, m.(unknown := m.unknown + [Record(f.num, Scalar(v))]))
  {
    hide ParseInto, ReadTag, Wf, StepsTo, Fails, Varint, Find, Store;
    ClosedEnumTurn(S, t, m, i, f, b, b1);
    match ReadVarint64(b1) {
      case Fail => ok, v, rest := false, 0, b1;
      case Ok(v', rest') => ok, v, rest := true, v', rest';
    }
    if ClosedEnumAccepts(f.kind, v) {
      StoreIsSetSlot(FieldsOf(S, t), m, i, [Num(FromWire(f.kind, v))]);
      FromWireInRange(f.kind, v);
      SetSlotWf(S, t, m, i, [Num(FromWire(f.kind, v))]);
    } else {
      FindAt(FieldsOf(S, t), i);
      AppendUnknownWf(S, t, m, Record(f.num, Scalar(v)));
    }
  }

  /** The case of a repeated field: the inner loop on one tag per element, or a packed record. */
  method ReadRepeated(S: Schema, ghost t: MessageType, ghost m: Msg, ghost i: nat, f: Field, tag: nat, ghost b: bytes,
                      b1: bytes)
    returns (ok: bool, vs: seq<Value>, rest: bytes)
    requires f.rule.Repeated?
    requires tag == Tag(f.num, ValueWireType(f.kind)) || (Numeric(f.kind) && tag == Tag(f.num, 2))
    requires AtPlainField(S, t, m, i, f, tag % 8, b, b1)
    ensures Handled(S, t, ok, m, b, SetSlot(m, i, At(m, i) + vs), rest)
    ensures Wf(S, t, SetSlot(m, i, At(m, i) + vs))
  {
    hide ParseInto, ReadTag, Wf, Unpack;
    if tag % 8 == ValueWireType(f.kind) {
      ok, vs, rest := ReadRun(S, t, m, i, f, b, b1);
    } else {
      ok, vs, rest := ReadPacked(S, t, m, i, f, b, b1);
    }
    StoreIsSetSlot(FieldsOf(S, t), m, i, At(m, i) + vs);
  }

  /** A packed record of a repeated field. */
  method ReadPacked(S: Schema, ghost t: MessageType, ghost m: Msg, ghost i: nat, f: Field, ghost b: bytes, b1: bytes)
    returns (ok: bool, vs: seq<Value>, rest: bytes)
    requires f.rule.Repeated? && Numeric(f.kind)
    requires AtPlainField(S, t, m, i, f, 2, b, b1)
    ensures Handled(S, t, ok, m, b, Append(FieldsOf(S, t), m, i, vs), rest)
    ensures Wf(S, t, Append(FieldsOf(S, t), m, i, vs))
  {
    hide ParseInto, ReadTag, Wf, Unpack, Store;
    PackedTurn(S, t, m, i, f, b, b1);
    AppendNothing(FieldsOf(S, t), m, i);
    ok, vs, rest := false, [], b1;
    match ReadDelimited(b1) {
      case Fail =>
      case Ok(d, rest') =>
        match Unpack(f.kind, d) {
          case None =>
          case Some(vs') =>
            UnpackWf(S, f, d);
            AppendWf(S, t, m, i, vs');
            ok, vs, rest := true, vs', rest';
        }
    }
  }

  lemma AppendWf(S: Schema, t: MessageType, m: Msg, i: nat, vs: seq<Value>)
    requires WfSchema(S) && Wf(S, t, m) && i < |FieldsOf(S, t)| && FieldsOf(S, t)[i].rule.Repeated?
    requires forall v <- vs :: WfValue(S, FieldsOf(S, t)[i].kind, v)
    ensures Wf(S, t, Append(FieldsOf(S, t), m, i, vs))
  {
    var f := FieldsOf(S, t)[i];
    assert WfSlot(S, f, m.slots[i].vs);
    assert WfSlot(S, f, At(m, i) + vs);
    StoreWf(S, t, m, i, At(m, i) + vs);
  }

  /** The wire types the case of a field takes. */
  predicate Takes(f: Field, wireType: nat) {
    wireType == ValueWireType(f.kind) || (wireType == 2 && f.rule.Repeated?)
  }

  /** `handle_unusual` for a tag no case takes. */
  method ReadUnknown(S: Schema, ghost t: MessageType, ghost m: Msg, ghost b: bytes, tag: nat, b1: bytes)
    returns (ok: bool, more: seq<Record>, rest: bytes)
    requires WfSchema(S) && Wf(S, t, m) && b != [] && ReadTag(b) == Ok(tag, b1)
    requires var i := Find(FieldsOf(S, t), tag / 8); i < |FieldsOf(S, t)| ==> !Takes(FieldsOf(S, t)[i], tag % 8)
    ensures Handled(S, t, ok, m, b, m.(unknown := m.unknown + more), rest)
    ensures Wf(S, t, m.(unknown := m.unknown + more))
  {
    hide ParseInto, ReadTag, Wf, StepsTo, Fails, Varint, Find, ReadPayload;
    ok, more, rest := false, [], b1;
    assert m.unknown + [] == m.unknown;
    match ReadPayload(tag, b1) {
      case Fail => ReadFailureFails(S, t, m, b);
      case Ok(p, rest') =>
        UnusualTurn(S, t, m, b, tag, b1);
        assert ReadRecord(b) == Ok(Record(tag / 8, p), rest');
        AppendUnknownWf(S, t, m, Record(tag / 8, p));
        ok, more, rest := true, [Record(tag / 8, p)], rest';
    }
  }
}
