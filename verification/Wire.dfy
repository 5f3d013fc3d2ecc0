/** Byte-level encoding of the Protocol Buffers wire format: base 128 varints, tags, length
    prefixes, little-endian fixed words and whole records.  Readers take the unread bytes up to
    the current limit and return the value read together with the bytes left. */
module Wire {

  type byte = b: int | 0 <= b < 256
  type bytes = seq<byte>

  const TWO_TO_31: int := 0x8000_0000
  const TWO_TO_32: int := 0x1_0000_0000
  const TWO_TO_63: int := 0x8000_0000_0000_0000
  const TWO_TO_64: int := 0x1_0000_0000_0000_0000

  type word32 = n: int | 0 <= n < TWO_TO_32
  type word64 = n: int | 0 <= n < TWO_TO_64
  type int32 = n: int | -TWO_TO_31 <= n < TWO_TO_31
  type int64 = n: int | -TWO_TO_63 <= n < TWO_TO_63

  /** Longest accepted length prefix: INT_MAX less the 16 slop bytes of the input stream. */
  const MAX_LENGTH: int := 0x7FFF_FFFF - 16

  /** Largest field number a 32-bit tag can carry. */
  const MAX_FIELD_NUMBER: int := 0x1FFF_FFFF

  datatype Option<+T> = None | Some(value: T)

  datatype Read<+T> = Fail | Ok(value: T, rest: bytes)

  /** `rest` is what is left of `b` after reading at least one byte. */
  ghost predicate Advances(b: bytes, rest: bytes) {
    |rest| < |b| && rest == b[|b| - |rest|..]
  }

  // ------------------------------------------------------------------ varints

  /** The minimal base 128 encoding. */
  function Varint(n: nat): (b: bytes)
    ensures b != []
  {
    if n < 128 then [n] else [n % 128 + 128] + Varint(n / 128)
  }

  /** Reads at most `max` bytes, least significant group first, without truncating. */
  function ReadGroups(b: bytes, max: nat): (r: Read<nat>)
    ensures r.Ok? ==> Advances(b, r.rest)
  {
    if b == [] || max == 0 then Fail
    else if b[0] < 128 then Ok(b[0], b[1..])
    else match ReadGroups(b[1..], max - 1)
      case Fail => Fail
      case Ok(v, rest) => Ok(b[0] - 128 + 128 * v, rest)
  }

  /** A 64-bit varint: up to ten bytes, high bits dropped. */
  function ReadVarint64(b: bytes): (r: Read<nat>)
    ensures r.Ok? ==> r.value < TWO_TO_64 && Advances(b, r.rest)
  {
    match ReadGroups(b, 10)
    case Fail => Fail
    case Ok(v, rest) => Ok(v % TWO_TO_64, rest)
  }

  /** A tag: up to five bytes, kept in 32 bits. */
  function ReadTag(b: bytes): (r: Read<nat>)
    ensures r.Ok? ==> r.value < TWO_TO_32 && Advances(b, r.rest)
  {
    match ReadGroups(b, 5)
    case Fail => Fail
    case Ok(v, rest) => Ok(v % TWO_TO_32, rest)
  }

  /** A length prefix: up to five bytes, refused when absurdly close to INT_MAX or beyond. */
  function ReadSize(b: bytes): (r: Read<nat>)
    ensures r.Ok? ==> r.value <= MAX_LENGTH && Advances(b, r.rest)
  {
    match ReadGroups(b, 5)
    case Fail => Fail
    case Ok(v, rest) => if v <= MAX_LENGTH then Ok(v, rest) else Fail
  }

  // -------------------------------------------------------------- fixed words

  /** `n` in `k` little-endian bytes. */
  function Fixed(n: nat, k: nat): (b: bytes)
    ensures |b| == k
  {
    if k == 0 then [] else [n % 256] + Fixed(n / 256, k - 1)
  }

  function FixedValue(b: bytes): nat {
    if b == [] then 0 else b[0] + 256 * FixedValue(b[1..])
  }

  function ReadFixed(b: bytes, k: nat): (r: Read<nat>)
    requires 0 < k
    ensures r.Ok? ==> Advances(b, r.rest)
  {
    if |b| < k then Fail else Ok(FixedValue(b[..k]), b[k..])
  }

  // ------------------------------------------------------------------ records

  datatype Payload =
    | Scalar(v: nat)
    | Word64(bits: nat)
    | Delimited(data: bytes)
    | Word32(bits: nat)

  /** One tag with the value that follows it; also the form in which unknown fields are kept. */
  datatype Record = Record(num: nat, payload: Payload)

  function WireType(p: Payload): nat {
    match p
    case Scalar(_) => 0
    case Word64(_) => 1
    case Delimited(_) => 2
    case Word32(_) => 5
  }

  predicate ValidPayload(p: Payload) {
    match p
    case Scalar(v) => v < TWO_TO_64
    case Word64(bits) => bits < TWO_TO_64
    case Delimited(_) => true
    case Word32(bits) => bits < TWO_TO_32
  }

  predicate ValidRecord(r: Record) {
    1 <= r.num <= MAX_FIELD_NUMBER && ValidPayload(r.payload)
  }

  /** The record's length prefix, if it has one, is short enough to be read back. */
  predicate Fits(r: Record) {
    r.payload.Delimited? ==> |r.payload.data| <= MAX_LENGTH
  }

  function Tag(num: nat, wireType: nat): nat {
    num * 8 + wireType
  }

  function EncodePayload(p: Payload): bytes {
    match p
    case Scalar(v) => Varint(v)
    case Word64(bits) => Fixed(bits, 8)
    case Delimited(data) => Varint(|data|) + data
    case Word32(bits) => Fixed(bits, 4)
  }

  function Encode(r: Record): (b: bytes)
    ensures b != []
  {
    Varint(Tag(r.num, WireType(r.payload))) + EncodePayload(r.payload)
  }

  function EncodeAll(rs: seq<Record>): bytes {
    if rs == [] then [] else Encode(rs[0]) + EncodeAll(rs[1..])
  }

  function ReadDelimited(b: bytes): (r: Read<bytes>)
    ensures r.Ok? ==> Advances(b, r.rest) && |r.value| + |r.rest| < |b| && |r.value| <= MAX_LENGTH
  {
    match ReadSize(b)
    case Fail => Fail
    case Ok(n, rest) => if |rest| < n then Fail else Ok(rest[..n], rest[n..])
  }

  /** Reads the value announced by `tag`.  Field number zero, group tags and the two unassigned
      wire types end the parse in failure. */
  function ReadPayload(tag: nat, b: bytes): (r: Read<Payload>)
    ensures r.Ok? ==> Advances(b, r.rest) && ValidPayload(r.value) && tag % 8 == WireType(r.value)
    ensures r.Ok? && r.value.Delimited? ==> |r.value.data| < |b| && |r.value.data| <= MAX_LENGTH
  {
    if tag / 8 == 0 then Fail
    else if tag % 8 == 0 then
      match ReadVarint64(b)
      case Fail => Fail
      case Ok(v, rest) => Ok(Scalar(v), rest)
    else if tag % 8 == 1 then
      FixedValueBound(b, 8);
      match ReadFixed(b, 8)
      case Fail => Fail
      case Ok(v, rest) => Ok(Word64(v), rest)
    else if tag % 8 == 2 then
      match ReadDelimited(b)
      case Fail => Fail
      case Ok(data, rest) => Ok(Delimited(data), rest)
    else if tag % 8 == 5 then
      FixedValueBound(b, 4);
      match ReadFixed(b, 4)
      case Fail => Fail
      case Ok(v, rest) => Ok(Word32(v), rest)
    else Fail
  }

  function ReadRecord(b: bytes): (r: Read<Record>)
    ensures r.Ok? ==> Advances(b, r.rest) && ValidRecord(r.value) && Fits(r.value)
    ensures r.Ok? && r.value.payload.Delimited? ==> |r.value.payload.data| < |b|
  {
    match ReadTag(b)
    case Fail => Fail
    case Ok(tag, b1) =>
      match ReadPayload(tag, b1)
      case Fail => Fail
      case Ok(p, rest) => Ok(Record(tag / 8, p), rest)
  }

  // ------------------------------------------------------------------- lemmas

  function Pow(base: nat, k: nat): nat {
    if k == 0 then 1 else base * Pow(base, k - 1)
  }

  lemma {:induction false} VarintLength(n: nat, k: nat)
    requires 0 < k && n < Pow(128, k)
    ensures |Varint(n)| <= k
  {
    if n >= 128 {
      VarintLength(n / 128, k - 1);
    }
  }

  /** A varint is read back exactly when it is no longer than the reader allows. */
  lemma {:induction false} ReadGroupsOfVarint(n: nat, rest: bytes, max: nat)
    ensures ReadGroups(Varint(n) + rest, max) == if |Varint(n)| <= max then Ok(n, rest) else Fail
  {
    var b := Varint(n) + rest;
    if n < 128 {
      assert b[1..] == rest;
    } else if max > 0 {
      assert b[1..] == Varint(n / 128) + rest;
      ReadGroupsOfVarint(n / 128, rest, max - 1);
    }
  }

  lemma {:induction false} FixedRoundTrip(n: nat, k: nat)
    requires n < Pow(256, k)
    ensures FixedValue(Fixed(n, k)) == n
  {
    if k > 0 {
      assert Fixed(n, k)[1..] == Fixed(n / 256, k - 1);
      FixedRoundTrip(n / 256, k - 1);
    }
  }

  lemma {:induction false} FixedValueRange(b: bytes)
    ensures FixedValue(b) < Pow(256, |b|)
  {
    if b != [] { FixedValueRange(b[1..]); }
  }

  lemma FixedPowers()
    ensures Pow(256, 4) == TWO_TO_32 && Pow(256, 8) == TWO_TO_64
    ensures Pow(128, 5) == 128 * 128 * 128 * 128 * 128
    ensures Pow(128, 10) == Pow(128, 5) * Pow(128, 5)
  {
    assert Pow(256, 4) == 256 * (256 * (256 * (256 * Pow(256, 0))));
    assert Pow(256, 8) == 256 * (256 * (256 * (256 * Pow(256, 4))));
    assert Pow(128, 5) == 128 * (128 * (128 * (128 * (128 * Pow(128, 0)))));
    assert Pow(128, 10) == 128 * (128 * (128 * (128 * (128 * Pow(128, 5)))));
  }

  lemma FixedValueBound(b: bytes, k: nat)
    requires k == 4 || k == 8
    ensures |b| >= k ==> FixedValue(b[..k]) < if k == 4 then TWO_TO_32 else TWO_TO_64
  {
    if |b| >= k {
      FixedValueRange(b[..k]);
      FixedPowers();
    }
  }

  lemma ReadFixed32Of(n: nat, rest: bytes)
    requires n < TWO_TO_32
    ensures ReadFixed(Fixed(n, 4) + rest, 4) == Ok(n, rest)
  {
    FixedPowers();
    FixedRoundTrip(n, 4);
    var b := Fixed(n, 4) + rest;
    assert b[..4] == Fixed(n, 4) && b[4..] == rest;
  }

  lemma ReadFixed64Of(n: nat, rest: bytes)
    requires n < TWO_TO_64
    ensures ReadFixed(Fixed(n, 8) + rest, 8) == Ok(n, rest)
  {
    FixedPowers();
    FixedRoundTrip(n, 8);
    var b := Fixed(n, 8) + rest;
    assert b[..8] == Fixed(n, 8) && b[8..] == rest;
  }

  lemma ReadVarintOf(n: nat, rest: bytes)
    requires n < TWO_TO_64
    ensures ReadVarint64(Varint(n) + rest) == Ok(n, rest)
  {
    FixedPowers();
    VarintLength(n, 10);
    ReadGroupsOfVarint(n, rest, 10);
  }

  lemma ReadTagOf(tag: nat, rest: bytes)
    requires tag < TWO_TO_32
    ensures ReadTag(Varint(tag) + rest) == Ok(tag, rest)
  {
    FixedPowers();
    VarintLength(tag, 5);
    ReadGroupsOfVarint(tag, rest, 5);
  }

  lemma ReadSizeOf(n: nat, rest: bytes)
    ensures ReadSize(Varint(n) + rest) == if n <= MAX_LENGTH then Ok(n, rest) else Fail
  {
    if n <= MAX_LENGTH {
      FixedPowers();
      VarintLength(n, 5);
    }
    ReadGroupsOfVarint(n, rest, 5);
  }

  lemma ReadDelimitedOf(data: bytes, rest: bytes)
    ensures ReadDelimited(Varint(|data|) + data + rest) == if |data| <= MAX_LENGTH then Ok(data, rest) else Fail
  {
    ReadSizeOf(|data|, data + rest);
    assert Varint(|data|) + data + rest == Varint(|data|) + (data + rest);
    assert (data + rest)[..|data|] == data && (data + rest)[|data|..] == rest;
  }

  /** Whatever is written is read back, and a payload too long for the reader is refused. */
  lemma ReadPayloadOfEncode(tag: nat, p: Payload, rest: bytes)
    requires tag / 8 != 0 && tag % 8 == WireType(p) && ValidPayload(p)
    ensures ReadPayload(tag, EncodePayload(p) + rest)
         == if p.Delimited? && |p.data| > MAX_LENGTH then Fail else Ok(p, rest)
  {
    match p
    case Scalar(v) => ReadVarintOf(v, rest);
    case Word64(bits) => ReadFixed64Of(bits, rest);
    case Delimited(data) => ReadDelimitedOf(data, rest);
    case Word32(bits) => ReadFixed32Of(bits, rest);
  }

  lemma ReadRecordOfEncode(r: Record, rest: bytes)
    requires ValidRecord(r)
    ensures ReadRecord(Encode(r) + rest) == if Fits(r) then Ok(r, rest) else Fail
  {
    hide Varint, ReadGroups, ReadPayload, EncodePayload;
    var tag := Tag(r.num, WireType(r.payload));
    var body := EncodePayload(r.payload);
    ReadTagOf(tag, body + rest);
    assert Encode(r) + rest == Varint(tag) + (body + rest);
    ReadPayloadOfEncode(tag, r.payload, rest);
  }

  /** Reading depends only on the bytes consumed: more input after them changes nothing. */
  lemma {:induction false} ReadGroupsExtends(b: bytes, more: bytes, max: nat)
    requires ReadGroups(b, max).Ok?
    ensures ReadGroups(b + more, max) == Ok(ReadGroups(b, max).value, ReadGroups(b, max).rest + more)
  {
    assert (b + more)[1..] == b[1..] + more;
    if b[0] >= 128 { ReadGroupsExtends(b[1..], more, max - 1); }
  }

  lemma ReadFixedExtends(b: bytes, more: bytes, k: nat)
    requires 0 < k && ReadFixed(b, k).Ok?
    ensures ReadFixed(b + more, k) == Ok(ReadFixed(b, k).value, ReadFixed(b, k).rest + more)
  {
    assert (b + more)[..k] == b[..k] && (b + more)[k..] == b[k..] + more;
  }

  lemma ReadDelimitedExtends(b: bytes, more: bytes)
    requires ReadDelimited(b).Ok?
    ensures ReadDelimited(b + more) == Ok(ReadDelimited(b).value, ReadDelimited(b).rest + more)
  {
    ReadGroupsExtends(b, more, 5);
    var n, rest := ReadSize(b).value, ReadSize(b).rest;
    assert (rest + more)[..n] == rest[..n] && (rest + more)[n..] == rest[n..] + more;
  }

  lemma ReadPayloadExtends(tag: nat, b: bytes, more: bytes)
    requires ReadPayload(tag, b).Ok?
    ensures ReadPayload(tag, b + more) == Ok(ReadPayload(tag, b).value, ReadPayload(tag, b).rest + more)
  {
    hide ReadGroups, ReadFixed, ReadDelimited;
    if tag % 8 == 0 {
      ReadGroupsExtends(b, more, 10);
    } else if tag % 8 == 1 {
      ReadFixedExtends(b, more, 8);
    } else if tag % 8 == 2 {
      ReadDelimitedExtends(b, more);
    } else {
      ReadFixedExtends(b, more, 4);
    }
  }

  lemma ReadRecordExtends(b: bytes, more: bytes)
    requires ReadRecord(b).Ok?
    ensures ReadRecord(b + more) == Ok(ReadRecord(b).value, ReadRecord(b).rest + more)
  {
    hide ReadGroups, ReadPayload;
    ReadGroupsExtends(b, more, 5);
    ReadPayloadExtends(ReadTag(b).value, ReadTag(b).rest, more);
  }

  lemma {:induction false} EncodeAllConcat(a: seq<Record>, b: seq<Record>)
    ensures EncodeAll(a + b) == EncodeAll(a) + EncodeAll(b)
  {
    if a == [] {
      assert a + b == b;
    } else {
      assert (a + b)[1..] == a[1..] + b;
      EncodeAllConcat(a[1..], b);
    }
  }

  // ------------------------------------------------ which byte carries which bits

  lemma {:induction false} PowIsPositive(base: nat, k: nat)
    requires base > 0
    ensures Pow(base, k) > 0
  {
    if k > 0 { PowIsPositive(base, k - 1); }
  }

  lemma {:induction false} Multiples(d: int, a: int)
    requires a >= 0
    ensures d >= 1 ==> d * a >= a
    ensures d <= -1 ==> d * a <= -a
  {
  }

  lemma {:induction false} QuotientIs(n: nat, a: nat, q: nat, r: nat)
    requires n == q * a + r && r < a
    ensures n / a == q
  {
    var d := n / a - q;
    assert d * a == r - n % a by { assert n == (n / a) * a + n % a; }
    Multiples(d, a);
  }

  lemma DivideTwice(n: nat, a: nat, b: nat)
    requires a > 0 && b > 0
    ensures a * b > 0 && n / a / b == n / (a * b)
  {
    var m, r := n / a, n % a;
    var q, t := m / b, m % b;
    assert n == a * m + r && m == q * b + t;
    TwoQuotients(n, a, b, m, r, q, t);
    QuotientIs(n, a * b, q, a * t + r);
  }

  lemma {:induction false} TwoQuotients(n: nat, a: nat, b: nat, m: nat, r: nat, q: nat, t: nat)
    requires n == a * m + r && m == q * b + t && r < a && t < b
    ensures n == q * (a * b) + (a * t + r) && a * t + r < a * b
  {
    assert a * m == a * (q * b) + a * t;
    assert a * b - a * t >= a by { Multiples(b - t, a); }
  }

  /** Byte `i` of a fixed word holds bits `8 * i` to `8 * i + 7`: the least significant byte is first. */
  lemma {:induction false} FixedBytes(n: nat, k: nat, i: nat)
    requires i < k
    ensures Pow(256, i) > 0 && Fixed(n, k)[i] == n / Pow(256, i) % 256
  {
    PowIsPositive(256, i);
    if i > 0 {
      FixedBytes(n / 256, k - 1, i - 1);
      DivideTwice(n, 256, Pow(256, i - 1));
    }
  }

  lemma {:induction false} FixedValueBytes(b: bytes, i: nat)
    requires i < |b|
    ensures FixedValue(b) < Pow(256, |b|)
    ensures Pow(256, i) > 0 && FixedValue(b) / Pow(256, i) % 256 == b[i]
  {
    FixedValueRange(b);
    PowIsPositive(256, i);
    if i > 0 {
      var more := FixedValue(b[1..]);
      FixedValueBytes(b[1..], i - 1);
      DivideTwice(FixedValue(b), 256, Pow(256, i - 1));
      assert FixedValue(b) / 256 == more by { QuotientIs(FixedValue(b), 256, more, b[0]); }
    }
  }

  /** Byte `i` of a varint holds bits `7 * i` to `7 * i + 6`, and all but the last one are marked. */
  lemma {:induction false} VarintBytes(n: nat, i: nat)
    requires i < |Varint(n)|
    ensures Pow(128, i) > 0
    ensures Varint(n)[i] == n / Pow(128, i) % 128 + (if i < |Varint(n)| - 1 then 128 else 0)
  {
    PowIsPositive(128, i);
    if i > 0 {
      VarintBytes(n / 128, i - 1);
      DivideTwice(n, 128, Pow(128, i - 1));
    }
  }

  /** A varint has no more bytes than the number needs. */
  lemma {:induction false} VarintLengthIff(n: nat, k: nat)
    requires 0 < k
    ensures |Varint(n)| <= k <==> n < Pow(128, k)
  {
    if k == 1 {
      assert Pow(128, 1) == 128 * Pow(128, 0);
    } else if n >= 128 {
      VarintLengthIff(n / 128, k - 1);
    } else {
      PowIsPositive(128, k - 1);
    }
  }

  /** The groups of seven bits in `b`, the first one the least significant. */
  function GroupsValue(b: bytes): nat {
    if b == [] then 0
    else GroupsValue(b[..|b| - 1]) + b[|b| - 1] % 128 * Pow(128, |b| - 1)
  }

  lemma {:induction false} FirstGroup(b: bytes)
    requires b != []
    ensures GroupsValue(b) == b[0] % 128 + 128 * GroupsValue(b[1..])
  {
    var n := |b| - 1;
    if n > 0 {
      FirstGroup(b[..n]);
      assert b[..n][1..] == b[1..][..n - 1];
      var last := b[n] % 128;
      assert last * Pow(128, n) == 128 * (last * Pow(128, n - 1));
    } else {
      assert b[..0] == [] && b[1..] == [];
    }
  }

  /** The first `k` bytes are a varint: all but the last one are marked. */
  predicate EndsAt(b: bytes, k: nat) {
    0 < k <= |b| && b[k - 1] < 128 && forall i :: 0 <= i < k - 1 ==> b[i] >= 128
  }

  lemma {:induction false} ReadGroupsMeans(b: bytes, k: nat, max: nat)
    requires EndsAt(b, k)
    ensures ReadGroups(b, max) == if k <= max then Ok(GroupsValue(b[..k]), b[k..]) else Fail
  {
    FirstGroup(b[..k]);
    if k == 1 {
      assert GroupsValue(b[..1][1..]) == 0;
    } else if max > 0 {
      assert forall i :: 0 <= i < k - 2 ==> b[1..][i] == b[i + 1];
      ReadGroupsMeans(b[1..], k - 1, max - 1);
      assert b[..k][1..] == b[1..][..k - 1];
    }
  }

  lemma {:induction false} ReadGroupsEnds(b: bytes, max: nat)
    requires ReadGroups(b, max).Ok?
    ensures EndsAt(b, |b| - |ReadGroups(b, max).rest|)
  {
    if b[0] >= 128 {
      ReadGroupsEnds(b[1..], max - 1);
      var k := |b| - |ReadGroups(b, max).rest|;
      forall i | 0 <= i < k - 1 ensures b[i] >= 128 {
        if i > 0 { assert b[i] == b[1..][i - 1]; }
      }
    }
  }

  /** What the readers make of a varint, minimal or not: ten bytes at most for a value, five for a tag
      or a length, which is at most 2^31 - 17; what does not fit in the word is dropped. */
  lemma ReadersOfVarint(b: bytes, k: nat)
    requires EndsAt(b, k)
    ensures ReadVarint64(b) == if k <= 10 then Ok(GroupsValue(b[..k]) % TWO_TO_64, b[k..]) else Fail
    ensures ReadTag(b) == if k <= 5 then Ok(GroupsValue(b[..k]) % TWO_TO_32, b[k..]) else Fail
    ensures ReadSize(b)
         == if k <= 5 && GroupsValue(b[..k]) <= 2_147_483_631 then Ok(GroupsValue(b[..k]), b[k..]) else Fail
  {
    ReadGroupsMeans(b, k, 10);
    ReadGroupsMeans(b, k, 5);
  }

  /** Without an end nothing is read. */
  lemma ReadersNeedAnEnd(b: bytes)
    requires forall k: nat :: !EndsAt(b, k)
    ensures ReadVarint64(b).Fail? && ReadTag(b).Fail? && ReadSize(b).Fail?
  {
    if ReadGroups(b, 10).Ok? { ReadGroupsEnds(b, 10); }
    if ReadGroups(b, 5).Ok? { ReadGroupsEnds(b, 5); }
  }
}
