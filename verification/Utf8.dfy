/** Well-formed UTF-8, section 4 of RFC 3629. */
module Utf8 {
  import opened Wire

  predicate Between(x: byte, lo: nat, hi: nat) {
    lo <= x <= hi
  }

  /** Length of the well-formed character `b` starts with; 0 if there is none. */
  function CharLength(b: bytes): (n: nat)
    ensures n <= |b|
  {
    if |b| >= 1 && b[0] < 0x80 then 1
    else if |b| >= 2 && Between(b[0], 0xC2, 0xDF) && Between(b[1], 0x80, 0xBF) then 2
    else if |b| >= 3 && Between(b[2], 0x80, 0xBF)
            && ( || (b[0] == 0xE0 && Between(b[1], 0xA0, 0xBF))
                 || (b[0] == 0xED && Between(b[1], 0x80, 0x9F))
                 || (Between(b[0], 0xE1, 0xEF) && b[0] != 0xED && Between(b[1], 0x80, 0xBF))) then 3
    else if |b| >= 4 && Between(b[2], 0x80, 0xBF) && Between(b[3], 0x80, 0xBF)
            && ( || (b[0] == 0xF0 && Between(b[1], 0x90, 0xBF))
                 || (b[0] == 0xF4 && Between(b[1], 0x80, 0x8F))
                 || (Between(b[0], 0xF1, 0xF3) && Between(b[1], 0x80, 0xBF))) then 4
    else 0
  }

  predicate Valid(b: bytes)
    decreases |b|
  {
    b == [] || (CharLength(b) > 0 && Valid(b[CharLength(b)..]))
  }

  // ------------------------------------------------------ what is well formed

  /** The Unicode scalar values: all code points but the surrogates. */
  predicate Scalar(c: int) {
    0 <= c <= 0x10FFFF && !(0xD800 <= c <= 0xDFFF)
  }

  /** The bits of `c` in groups of six, the topmost group behind the marker of the length. */
  function EncodeScalar(c: int): (b: bytes)
    requires Scalar(c)
    ensures b != []
  {
    if c < 0x80 then [c]
    else if c < 0x800 then [0xC0 + c / 64, 0x80 + c % 64]
    else if c < 0x1_0000 then [0xE0 + c / 4096, 0x80 + c / 64 % 64, 0x80 + c % 64]
    else [0xF0 + c / 262144, 0x80 + c / 4096 % 64, 0x80 + c / 64 % 64, 0x80 + c % 64]
  }

  function EncodeText(cs: seq<int>): bytes
    requires forall c <- cs :: Scalar(c)
  {
    if cs == [] then [] else EncodeScalar(cs[0]) + EncodeText(cs[1..])
  }

  /** `b` is the encoding of some scalar values put end to end. */
  ghost predicate IsText(b: bytes) {
    exists cs: seq<int> :: (forall c <- cs :: Scalar(c)) && EncodeText(cs) == b
  }

  lemma EncodedIsCharacter(c: int, rest: bytes)
    requires Scalar(c)
    ensures CharLength(EncodeScalar(c) + rest) == |EncodeScalar(c)|
  {
    SixBits(c);
  }

  /** The quotients that make the groups. */
  lemma SixBits(c: int)
    requires Scalar(c)
    ensures c / 4096 == c / 64 / 64 && c / 262144 == c / 64 / 64 / 64
  {
  }

  /** What a byte carries besides its marker. */
  function Bits(x: byte, marker: int): int {
    x - marker
  }

  /** The scalar value of the character `b` starts with. */
  function FirstScalar(b: bytes): int
    requires CharLength(b) > 0
  {
    match CharLength(b)
    case 1 => b[0]
    case 2 => Bits(b[0], 0xC0) * 64 + Bits(b[1], 0x80)
    case 3 => Bits(b[0], 0xE0) * 4096 + Bits(b[1], 0x80) * 64 + Bits(b[2], 0x80)
    case _ => Bits(b[0], 0xF0) * 262144 + Bits(b[1], 0x80) * 4096 + Bits(b[2], 0x80) * 64 + Bits(b[3], 0x80)
  }

  lemma CharacterIsEncoded(b: bytes)
    requires CharLength(b) > 0
    ensures Scalar(FirstScalar(b)) && EncodeScalar(FirstScalar(b)) == b[..CharLength(b)]
  {
    if CharLength(b) < 3 { ShortIsEncoded(b); } else { LongIsEncoded(b); }
  }

  lemma ShortIsEncoded(b: bytes)
    requires 0 < CharLength(b) < 3
    ensures Scalar(FirstScalar(b)) && EncodeScalar(FirstScalar(b)) == b[..CharLength(b)]
  {
    if CharLength(b) == 2 { assert FirstScalar(b) / 64 == Bits(b[0], 0xC0); }
  }

  lemma LongIsEncoded(b: bytes)
    requires CharLength(b) >= 3
    ensures Scalar(FirstScalar(b)) && EncodeScalar(FirstScalar(b)) == b[..CharLength(b)]
  {
    var c := FirstScalar(b);
    if CharLength(b) == 3 {
      assert c / 64 == Bits(b[0], 0xE0) * 64 + Bits(b[1], 0x80) && c / 4096 == Bits(b[0], 0xE0);
    } else {
      assert c / 64 == Bits(b[0], 0xF0) * 4096 + Bits(b[1], 0x80) * 64 + Bits(b[2], 0x80);
      assert c / 4096 == Bits(b[0], 0xF0) * 64 + Bits(b[1], 0x80) && c / 262144 == Bits(b[0], 0xF0);
    }
  }

  lemma {:induction false} TextIsValid(cs: seq<int>)
    requires forall c <- cs :: Scalar(c)
    ensures Valid(EncodeText(cs))
  {
    hide CharLength, EncodeScalar;
    if cs != [] {
      var first, rest := EncodeScalar(cs[0]), EncodeText(cs[1..]);
      EncodedIsCharacter(cs[0], rest);
      TextIsValid(cs[1..]);
      assert (first + rest)[|first|..] == rest;
    }
  }

  lemma {:induction false} ValidIsText(b: bytes)
    requires Valid(b)
    ensures IsText(b)
    decreases |b|
  {
    hide CharLength, EncodeScalar, FirstScalar;
    if b == [] {
      assert EncodeText([]) == b;
    } else {
      var n := CharLength(b);
      ValidIsText(b[n..]);
      var cs: seq<int> :| (forall c <- cs :: Scalar(c)) && EncodeText(cs) == b[n..];
      CharacterIsEncoded(b);
      var all := [FirstScalar(b)] + cs;
      assert all[1..] == cs;
      assert b == b[..n] + b[n..];
      assert EncodeText(all) == b;
    }
  }

  /** Exactly the encodings of sequences of Unicode scalar values are accepted. */
  lemma {:induction false} ValidIffText(b: bytes)
    ensures Valid(b) <==> IsText(b)
  {
    if Valid(b) { ValidIsText(b); }
    if IsText(b) {
      var cs: seq<int> :| (forall c <- cs :: Scalar(c)) && EncodeText(cs) == b;
      TextIsValid(cs);
    }
  }
}
