/**
 * GPU access-permission sets: a 32-bit set of permission flags, of one of
 * two kinds (generic resources or textures).  The C++ type parameter that
 * fixes the kind becomes a constant field, and the type checks the
 * compiler makes (a flag of the set's own kind) become preconditions.
 */
module Permissions {
  /** Which permission enumeration a set ranges over. */
  datatype Kind = Generic | Textures

  /** The permission flags; the generic enumeration has only the first two. */
  datatype Flag = DirectReads | DirectWrites | AsRenderTarget | AsDepthStencil | CopiesOnly

  /** Each flag's bit. */
  function Bit(f: Flag): bv32 {
    match f
    case DirectReads => 1
    case DirectWrites => 2
    case AsRenderTarget => 4
    case AsDepthStencil => 8
    case CopiesOnly => 16
  }

  /** Whether a flag belongs to a kind's enumeration. */
  predicate FlagOf(k: Kind, f: Flag) {
    k == Textures || f == DirectReads || f == DirectWrites
  }

  /** One past the largest bit pattern made only of a kind's flags. */
  function Bound(k: Kind): bv32 {
    if k == Textures then 32 else 4
  }

  /** A pattern made only of a kind's flags. */
  predicate Below(k: Kind, bits: bv32) {
    bits < Bound(k)
  }

  /** operator& on a bit pattern: whether the flag's bit is set. */
  predicate HasBit(bits: bv32, f: Flag) {
    Masked(bits, Bit(f))
  }

  /** Whether a pattern shares a bit with a mask. */
  predicate Masked(bits: bv32, b: bv32) {
    bits & b != 0
  }

  /** A flag is in the union of two patterns exactly when it is in one of them. */
  lemma UnionHas(x: bv32, y: bv32, f: Flag)
    ensures HasBit(x | y, f) <==> HasBit(x, f) || HasBit(y, f)
  {
    OrMask(x, y, Bit(f));
  }

  /** A mask meets the union of two patterns exactly when it meets one of them. */
  lemma OrMask(x: bv32, y: bv32, b: bv32)
    ensures Masked(x | y, b) <==> Masked(x, b) || Masked(y, b)
  {
    assert (x | y) & b == (x & b) | (y & b);
  }

  /** UnionHas for every flag at once. */
  lemma UnionHasAll(x: bv32, y: bv32)
    ensures forall f :: HasBit(x | y, f) <==> HasBit(x, f) || HasBit(y, f)
  {
    forall f {
      UnionHas(x, y, f);
    }
  }

  /** The union of two patterns made of a kind's flags is made of them too. */
  lemma UnionBelow(k: Kind, x: bv32, y: bv32)
    requires Below(k, x) && Below(k, y)
    ensures Below(k, x | y)
  {
    OrBelow(x, y, Bound(k));
  }

  lemma OrBelow(x: bv32, y: bv32, b: bv32)
    requires b == 4 || b == 32
    requires x < b && y < b
    ensures x | y < b
  {
  }

  /** Below a kind's bound, a pattern is determined by which of the kind's
      flags it holds; in particular it equals one flag's bit exactly when it
      holds that flag and no other. */
  lemma ExactlyOne(k: Kind, bits: bv32, f: Flag)
    requires bits < Bound(k) && FlagOf(k, f)
    ensures bits == Bit(f) <==> forall g :: FlagOf(k, g) ==> (HasBit(bits, g) <==> g == f)
  {
    if forall g :: FlagOf(k, g) ==> (HasBit(bits, g) <==> g == f) {
      assert HasBit(bits, DirectReads) <==> f == DirectReads;
      assert HasBit(bits, DirectWrites) <==> f == DirectWrites;
      if k == Textures {
        assert HasBit(bits, AsRenderTarget) <==> f == AsRenderTarget;
        assert HasBit(bits, AsDepthStencil) <==> f == AsDepthStencil;
        assert HasBit(bits, CopiesOnly) <==> f == CopiesOnly;
      }
    }
  }

  /** The raw-value constructor's check for generic sets, as written: an
      inclusive bound of DIRECT_WRITES << 1. */
  predicate GenericValueAcceptedAsWritten(val: bv32) {
    val <= 4
  }

  /** As written, the generic check accepts 4, a bit no generic flag has;
      the texture check is exclusive. */
  lemma GenericBoundInclusive()
    ensures GenericValueAcceptedAsWritten(4)
    ensures !HasBit(4, DirectReads) && !HasBit(4, DirectWrites)
  {
  }

  /** With the exclusive bound, a value is accepted exactly when it is made
      of the kind's flags, for both kinds. */
  lemma BoundIsFlagsOnly(k: Kind, val: bv32)
    ensures val < Bound(k) <==> val & !(Bound(k) - 1) == 0
  {
  }

  /** GPU_RESRC_ACCESS_PERMISSION_SET. */
  class PermissionSet {
    const kind: Kind
    var bitset: bv32

    /** Only bits of the set's own flags are set. */
    ghost predicate Valid()
      reads this
    {
      Below(kind, bitset)
    }

    /** The default constructor: no permissions. */
    constructor Empty(k: Kind)
      ensures kind == k && bitset == 0 && Valid()
      ensures forall f :: !Has(f)
    {
      kind := k;
      bitset := 0;
    }

    /** Construction from one flag stores exactly that flag. */
    constructor FromFlag(k: Kind, f: Flag)
      requires FlagOf(k, f)
      ensures kind == k && bitset == Bit(f) && Valid()
      ensures forall g :: FlagOf(k, g) ==> (Has(g) <==> g == f)
    {
      kind := k;
      bitset := Bit(f);
    }

    /** Construction from a raw value: textures check val < 32; generic sets
        check val < 4 (the exclusive form of the source's check). */
    constructor FromBits(k: Kind, val: bv32)
      requires val < Bound(k)
      ensures kind == k && bitset == val && Valid()
    {
      kind := k;
      bitset := val;
    }

    /** operator&: whether the set holds the flag. */
    predicate Has(f: Flag)
      reads this
    {
      HasBit(bitset, f)
    }

    /** operator== against a flag of kind k: false for the other kind,
        otherwise whether the set is exactly that flag. */
    predicate EqualsFlag(k: Kind, f: Flag)
      reads this
      requires FlagOf(k, f)
    {
      k == kind && bitset == Bit(f)
    }

    /** On a valid set, == holds exactly when the kinds match and the set
        holds that flag and no other. */
    lemma EqualsMeansOnly(k: Kind, f: Flag)
      requires Valid() && FlagOf(k, f)
      ensures EqualsFlag(k, f) <==> k == kind && forall g :: FlagOf(kind, g) ==> (Has(g) <==> g == f)
    {
      if k == kind {
        ExactlyOne(kind, bitset, f);
      }
    }

    /** operator|= with a flag: adds it and clears nothing. */
    method AddFlag(f: Flag)
      requires Valid() && FlagOf(kind, f)
      modifies this
      ensures bitset == old(bitset) | Bit(f) && Valid()
      ensures forall g :: Has(g) <==> old(Has(g)) || g == f
    {
      bitset := bitset | Bit(f);
      forall g
        ensures Has(g) <==> old(Has(g)) || g == f
      {
        UnionHas(old(bitset), Bit(f), g);
      }
    }

    /** operator|= with another set of the same kind. */
    method AddSet(v: PermissionSet)
      requires Valid() && v.Valid() && v.kind == kind
      modifies this
      ensures bitset == old(bitset) | old(v.bitset) && Valid()
    {
      var b0, vb := bitset, v.bitset;
      UnionBelow(kind, b0, vb);
      bitset := b0 | vb;
    }

    /** operator| with another set: a new set holding the union; the
        receiver is unchanged. */
    method Union(v: PermissionSet) returns (r: PermissionSet)
      requires Valid() && v.Valid() && v.kind == kind
      ensures fresh(r) && r.kind == kind && r.Valid()
      ensures forall g :: r.Has(g) <==> Has(g) || v.Has(g)
    {
      var a, b := bitset, v.bitset;
      UnionHasAll(a, b);
      r := new PermissionSet.FromBits(kind, a);
      r.AddSet(v);
    }

    /** operator| with a flag: a new set holding the receiver's flags and f. */
    method UnionFlag(f: Flag) returns (r: PermissionSet)
      requires Valid() && FlagOf(kind, f)
      ensures fresh(r) && r.kind == kind && r.Valid()
      ensures forall g :: r.Has(g) <==> Has(g) || g == f
    {
      r := new PermissionSet.FromBits(kind, bitset);
      r.AddFlag(f);
    }

    /** GetBitSet: the stored bits. */
    function GetBitSet(): (b: bv32)
      reads this
      ensures forall f :: HasBit(b, f) <==> Has(f)
    {
      bitset
    }
  }
}
