/** Printing and parsing of logical messages, driven by the message descriptions. */
module Codec {
  import opened Wire
  import Utf8
  import opened Schemas
  import opened Messages

  // ----------------------------------------------------------------- printing

  /** One element of a packed field. */
  function PackOne(k: Kind, n: int): (b: bytes)
    ensures b != []
  {
    if k.Float? then Fixed(n % TWO_TO_32, 4)
    else if k.Double? then Fixed(n % TWO_TO_64, 8)
    else Varint(ToWire(n))
  }

  function Pack(k: Kind, vs: seq<Value>): bytes {
    if vs == [] then []
    else (if vs[0].Num? then PackOne(k, vs[0].n) else []) + Pack(k, vs[1..])
  }

  function PayloadOf(S: Schema, k: Kind, v: Value): Payload
    decreases v, 4
  {
    match v
    case Num(n) =>
      if k.Float? then Word32(n % TWO_TO_32)
      else if k.Double? then Word64(n % TWO_TO_64)
      else Scalar(ToWire(n))
    case Data(d) => Delimited(d)
    case Sub(m) => Delimited(if k.Message? then Serialize(S, k.target, m) else [])
  }

  function ElementRecords(S: Schema, f: Field, vs: seq<Value>): seq<Record>
    decreases vs, 0
  {
    if vs == [] then [] else [Record(f.num, PayloadOf(S, f.kind, vs[0]))] + ElementRecords(S, f, vs[1..])
  }

  function SlotRecords(S: Schema, f: Field, vs: seq<Value>): seq<Record>
    decreases vs, 1
  {
    if vs == [] || (f.rule.Implicit? && IsZero(f.kind, vs[0])) then []
    else if f.rule == Repeated(true) then [Record(f.num, Delimited(Pack(f.kind, vs)))]
    else ElementRecords(S, f, vs)
  }

  /** The records of the fields from number `k` on. */
  function RecordsFrom(S: Schema, fs: seq<Field>, m: Msg, k: nat): seq<Record>
    decreases m, 1, |fs| - k
  {
    if k < |fs| && k < |m.slots| then SlotRecords(S, fs[k], m.slots[k].vs) + RecordsFrom(S, fs, m, k + 1) else []
  }

  /** Everything printed for a message: its fields in field-number order, then its unknown fields. */
  function Records(S: Schema, t: MessageType, m: Msg): seq<Record>
    decreases m, 2
  {
    RecordsFrom(S, FieldsOf(S, t), m, 0) + m.unknown
  }

  function Serialize(S: Schema, t: MessageType, m: Msg): bytes
    decreases m, 3
  {
    EncodeAll(Records(S, t, m))
  }

  // ------------------------------------------------------------------ parsing

  datatype Decoded = Malformed | Unusual | Values(vs: seq<Value>)

  function ReadOne(k: Kind, b: bytes): (r: Read<nat>)
    ensures r.Ok? ==> Advances(b, r.rest)
  {
    if k.Float? then ReadFixed(b, 4) else if k.Double? then ReadFixed(b, 8) else ReadVarint64(b)
  }

  /** Elements of a packed payload; the last one must end exactly at its limit. */
  function Unpack(k: Kind, b: bytes): Option<seq<Value>>
    decreases |b|
  {
    if b == [] then Some([])
    else
      match ReadOne(k, b)
      case Fail => None
      case Ok(v, rest) =>
        match Unpack(k, rest)
        case None => None
        case Some(vs) => Some([Num(if k.Float? || k.Double? then v else FromWire(k, v))] + vs)
  }

  /** What the case of field `f` makes of a payload, `had` being the field's present content. */
  function Decode(S: Schema, f: Field, had: seq<Value>, p: Payload): Decoded
    decreases PayloadLength(p), 1
  {
    if !Accepts(f, p) then Unusual
    else match p
      case Scalar(v) => Values([Num(FromWire(f.kind, v))])
      case Word64(bits) => Values([Num(bits)])
      case Word32(bits) => Values([Num(bits)])
      case Delimited(d) =>
        match f.kind
        case Text(checked) => if checked && !Utf8.Valid(d) then Malformed else Values([Data(d)])
        case Blob => Values([Data(d)])
        case Message(t) =>
          (match ParseInto(S, t, Base(S, t, if f.rule.Repeated? then [] else had), d)
           case None => Malformed
           case Some(m) => Values([Sub(m)]))
        case _ =>
          (match Unpack(f.kind, d)
           case None => Malformed
           case Some(vs) => Values(vs))
  }

  function PayloadLength(p: Payload): nat {
    if p.Delimited? then |p.data| else 0
  }

  /** Sets slot `i`; the other members of its oneof are cleared. */
  function Store(fs: seq<Field>, m: Msg, i: nat, vs: seq<Value>): Msg {
    m.(slots := seq(|m.slots|, j requires 0 <= j < |m.slots| =>
                      if j == i then Slot(vs) else if Siblings(fs, i, j) then Slot([]) else m.slots[j]))
  }

  /** One turn of the dispatch loop. */
  function Apply(S: Schema, t: MessageType, m: Msg, r: Record): Option<Msg>
    decreases PayloadLength(r.payload), 2
  {
    var fs := FieldsOf(S, t);
    var i := Find(fs, r.num);
    if i == |fs| then Some(m.(unknown := m.unknown + [r]))
    else match Decode(S, fs[i], At(m, i), r.payload)
      case Malformed => None
      case Unusual => Some(m.(unknown := m.unknown + [r]))
      case Values(vs) => Some(Store(fs, m, i, if fs[i].rule.Repeated? then At(m, i) + vs else vs))
  }

  /** `m.MergeFromString(b)`: None when the parser reports failure. */
  function ParseInto(S: Schema, t: MessageType, m: Msg, b: bytes): Option<Msg>
    decreases |b|, 0
  {
    if b == [] then Some(m)
    else match ReadRecord(b)
      case Fail => None
      case Ok(r, rest) =>
        match Apply(S, t, m, r)
        case None => None
        case Some(m') => ParseInto(S, t, m', rest)
  }

  function ApplyAll(S: Schema, t: MessageType, m: Msg, rs: seq<Record>): Option<Msg>
    decreases |rs|
  {
    if rs == [] then Some(m)
    else match Apply(S, t, m, rs[0])
      case None => None
      case Some(m') => ApplyAll(S, t, m', rs[1..])
  }

  function Parse(S: Schema, t: MessageType, b: bytes): Option<Msg> {
    ParseInto(S, t, Empty(S, t), b)
  }
}
