/** The presence word of ValueProto in mindspore_anf_ir.pb.cc, as the set of its bits. */
module HasBitWords {

  /** Fields with explicit presence; the constructors stand for bits 0 to 9. */
  datatype Presence =
    | HasStrVal | HasTensorVal | HasGraph | HasTypeVal | HasDType | HasBoolVal | HasIntVal | HasUIntVal | HasDoubleVal
    | HasFloatVal

  datatype HasBits = HasBits(bits: set<Presence>)

  const NO_BITS := HasBits({})

  /** The masks 0x0f, 0xf0, 0xff and 0x300, each guarding a group of fields. */
  const MASK_0F := {HasStrVal, HasTensorVal, HasGraph, HasTypeVal}
  const MASK_F0 := {HasDType, HasBoolVal, HasIntVal, HasUIntVal}
  const MASK_FF := MASK_0F + MASK_F0
  const MASK_300 := {HasDoubleVal, HasFloatVal}

  /** The bit of each field in the 32-bit word. */
  function Bit(p: Presence): bv32 {
    match p
    case HasStrVal => 0x1
    case HasTensorVal => 0x2
    case HasGraph => 0x4
    case HasTypeVal => 0x8
    case HasDType => 0x10
    case HasBoolVal => 0x20
    case HasIntVal => 0x40
    case HasUIntVal => 0x80
    case HasDoubleVal => 0x100
    case HasFloatVal => 0x200
  }

  function BitIf(h: HasBits, p: Presence): bv32 {
    if p in h.bits then Bit(p) else 0
  }

  /** The word itself. */
  function Word(h: HasBits): bv32 {
    BitIf(h, HasStrVal) | BitIf(h, HasTensorVal) | BitIf(h, HasGraph) | BitIf(h, HasTypeVal) | BitIf(h, HasDType)
    | BitIf(h, HasBoolVal) | BitIf(h, HasIntVal) | BitIf(h, HasUIntVal) | BitIf(h, HasDoubleVal) | BitIf(h, HasFloatVal)
  }

  predicate Has(h: HasBits, p: Presence) {
    p in h.bits
  }

  predicate HasAny(h: HasBits, mask: set<Presence>) {
    h.bits * mask != {}
  }

  function Or(h: HasBits, more: HasBits): HasBits {
    HasBits(h.bits + more.bits)
  }

  function Set(h: HasBits, p: Presence): HasBits {
    HasBits(h.bits + {p})
  }

  lemma OrHas(h: HasBits, more: HasBits)
    ensures forall p :: Has(Or(h, more), p) <==> Has(h, p) || Has(more, p)
  {
  }

  lemma SetHas(h: HasBits, p: Presence)
    ensures forall q :: Has(Set(h, p), q) <==> q == p || Has(h, q)
  {
  }

  /** A bit set in either word shows in their union. */
  lemma SetOr(h: HasBits, more: HasBits, p: Presence)
    ensures Or(h, Set(more, p)) == Set(Or(h, more), p) == Or(Set(h, p), more)
  {
  }

  lemma OrLaws(h: HasBits, more: HasBits)
    ensures Or(Or(h, more), more) == Or(h, more)
    ensures Or(h, NO_BITS) == h
  {
  }

  lemma NoBits()
    ensures forall p :: !Has(NO_BITS, p)
  {
  }

  /** A group is skipped exactly when none of its fields is present. */
  lemma GroupMasks(h: HasBits)
    ensures HasAny(h, MASK_0F) <==> Has(h, HasStrVal) || Has(h, HasTensorVal) || Has(h, HasGraph) || Has(h, HasTypeVal)
    ensures HasAny(h, MASK_F0) <==> Has(h, HasDType) || Has(h, HasBoolVal) || Has(h, HasIntVal) || Has(h, HasUIntVal)
    ensures HasAny(h, MASK_FF) <==> HasAny(h, MASK_0F) || HasAny(h, MASK_F0)
    ensures HasAny(h, MASK_300) <==> Has(h, HasDoubleVal) || Has(h, HasFloatVal)
  {
    if HasAny(h, MASK_0F) { var p :| p in h.bits * MASK_0F; assert p in h.bits * MASK_FF; }
    if HasAny(h, MASK_F0) { var p :| p in h.bits * MASK_F0; assert p in h.bits * MASK_FF; }
    if HasAny(h, MASK_FF) { var p :| p in h.bits * MASK_FF; assert p in h.bits * MASK_0F || p in h.bits * MASK_F0; }
    if HasAny(h, MASK_300) { var p :| p in h.bits * MASK_300; }
    if Has(h, HasStrVal) { assert HasStrVal in h.bits * MASK_0F; }
    if Has(h, HasTensorVal) { assert HasTensorVal in h.bits * MASK_0F; }
    if Has(h, HasGraph) { assert HasGraph in h.bits * MASK_0F; }
    if Has(h, HasTypeVal) { assert HasTypeVal in h.bits * MASK_0F; }
    if Has(h, HasDType) { assert HasDType in h.bits * MASK_F0; }
    if Has(h, HasBoolVal) { assert HasBoolVal in h.bits * MASK_F0; }
    if Has(h, HasIntVal) { assert HasIntVal in h.bits * MASK_F0; }
    if Has(h, HasUIntVal) { assert HasUIntVal in h.bits * MASK_F0; }
    if Has(h, HasDoubleVal) { assert HasDoubleVal in h.bits * MASK_300; }
    if Has(h, HasFloatVal) { assert HasFloatVal in h.bits * MASK_300; }
  }

  lemma NoGroups(h: HasBits)
    ensures !HasAny(h, MASK_FF) && !HasAny(h, MASK_300) ==> forall p :: !Has(h, p)
  {
    GroupMasks(h);
    if !HasAny(h, MASK_FF) && !HasAny(h, MASK_300) {
      forall p ensures !Has(h, p) {
        match p
        case HasStrVal | HasTensorVal | HasGraph | HasTypeVal =>
        case HasDType | HasBoolVal | HasIntVal | HasUIntVal =>
        case HasDoubleVal | HasFloatVal =>
      }
    }
  }

  /** The presence word after the two guarded blocks of a merge. */
  function AfterBlocks(h: HasBits, from: HasBits): HasBits {
    var first := if HasAny(from, MASK_FF) then Or(h, from) else h;
    if HasAny(from, MASK_300) then Or(first, from) else first
  }

  lemma BlocksJoin(h: HasBits, from: HasBits)
    ensures forall p :: Has(AfterBlocks(h, from), p) <==> Has(h, p) || Has(from, p)
  {
    hide HasAny, Or, Has;
    NoGroups(from);
    OrHas(h, from);
    OrLaws(h, from);
  }

  // ------------------------------------------------------------ as a machine word

  /** Testing a bit of the word is asking for the field. */
  lemma WordHasBit(h: HasBits)
    ensures Word(h) & 1 != 0 <==> Has(h, HasStrVal)
    ensures Word(h) & 2 != 0 <==> Has(h, HasTensorVal)
    ensures Word(h) & 4 != 0 <==> Has(h, HasGraph)
    ensures Word(h) & 8 != 0 <==> Has(h, HasTypeVal)
    ensures Word(h) & 16 != 0 <==> Has(h, HasDType)
    ensures Word(h) & 32 != 0 <==> Has(h, HasBoolVal)
    ensures Word(h) & 64 != 0 <==> Has(h, HasIntVal)
    ensures Word(h) & 128 != 0 <==> Has(h, HasUIntVal)
    ensures Word(h) & 256 != 0 <==> Has(h, HasDoubleVal)
    ensures Word(h) & 512 != 0 <==> Has(h, HasFloatVal)
  {
  }

  /** Joining two words bit by bit is joining the sets. */
  lemma WordOr(h: HasBits, more: HasBits)
    ensures Word(Or(h, more)) == Word(h) | Word(more)
  {
    BitOfOr(h, more, HasStrVal);
    BitOfOr(h, more, HasTensorVal);
    BitOfOr(h, more, HasGraph);
    BitOfOr(h, more, HasTypeVal);
    BitOfOr(h, more, HasDType);
    BitOfOr(h, more, HasBoolVal);
    BitOfOr(h, more, HasIntVal);
    BitOfOr(h, more, HasUIntVal);
    BitOfOr(h, more, HasDoubleVal);
    BitOfOr(h, more, HasFloatVal);
  }

  /** Setting a bit of the word is marking the field present. */
  lemma WordSet(h: HasBits, p: Presence)
    ensures Word(Set(h, p)) == Word(h) | Bit(p)
  {
    hide Word, Bit;
    WordOr(h, HasBits({p}));
    OneBit(p);
    assert Set(h, p) == Or(h, HasBits({p}));
  }

  lemma OneBit(p: Presence)
    ensures Word(HasBits({p})) == Bit(p)
  {
  }

  lemma BitOfOr(h: HasBits, more: HasBits, p: Presence)
    ensures BitIf(Or(h, more), p) == BitIf(h, p) | BitIf(more, p)
  {
  }

  /** The masks of the guarded blocks, as the numbers they are in the code. */
  lemma WordMasks(h: HasBits)
    ensures Word(h) & 0x0f != 0 <==> HasAny(h, MASK_0F)
    ensures Word(h) & 0xf0 != 0 <==> HasAny(h, MASK_F0)
    ensures Word(h) & 0xff != 0 <==> HasAny(h, MASK_FF)
    ensures Word(h) & 0x300 != 0 <==> HasAny(h, MASK_300)
    ensures Word(h) == 0 <==> h == NO_BITS
  {
    GroupMasks(h);
    if Word(h) == 0 {
      NoGroups(h);
      if h.bits != {} {
        var p :| p in h.bits;
        assert Has(h, p);
      }
    }
  }
}
