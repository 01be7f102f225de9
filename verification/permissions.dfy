/** The permission set: a 32-bit flag word with twelve named capabilities,
    its union and intersection, its strict and truncating constructors, and
    the tests `contains` and `intersects` that authorization rests on. */
module Permissions {
  import opened Results
  import opened Bits

  /** The union of every named bit (`all()`). */
  const NAMED_BITS: nat := 0xFFF

  /** A permission set, as its `u32` word. Built through the library's own
      operations it never carries a bit outside the twelve named ones. */
  type PermissionSet = p: nat | p < 0x1000

  const READ: PermissionSet := 0x0001
  const WRITE: PermissionSet := 0x0002
  const DELETE: PermissionSet := 0x0004
  const ADMIN: PermissionSet := 0x0008
  const MANAGE_USERS: PermissionSet := 0x0010
  const MANAGE_ROLES: PermissionSet := 0x0020
  const BILLING: PermissionSet := 0x0040
  const AUDIT: PermissionSet := 0x0080
  const EXPORT: PermissionSet := 0x0100
  const IMPORT: PermissionSet := 0x0200
  const API_ACCESS: PermissionSet := 0x0400
  const PREMIUM: PermissionSet := 0x0800

  /** The twelve capabilities, in declaration order. */
  datatype Flag =
    | Read | Write | Delete | Admin
    | ManageUsers | ManageRoles | Billing | Audit
    | Export | Import | ApiAccess | Premium

  const DECLARATION_ORDER: seq<Flag> :=
    [Read, Write, Delete, Admin, ManageUsers, ManageRoles, Billing, Audit, Export, Import, ApiAccess, Premium]

  /** The bit a flag occupies; declaration order is bit order. */
  function Position(f: Flag): (i: nat)
    ensures i < 12
    ensures DECLARATION_ORDER[i] == f
  {
    match f
    case Read => 0
    case Write => 1
    case Delete => 2
    case Admin => 3
    case ManageUsers => 4
    case ManageRoles => 5
    case Billing => 6
    case Audit => 7
    case Export => 8
    case Import => 9
    case ApiAccess => 10
    case Premium => 11
  }

  /** The flag's own constant. */
  function Bit(f: Flag): PermissionSet
  {
    match f
    case Read => READ
    case Write => WRITE
    case Delete => DELETE
    case Admin => ADMIN
    case ManageUsers => MANAGE_USERS
    case ManageRoles => MANAGE_ROLES
    case Billing => BILLING
    case Audit => AUDIT
    case Export => EXPORT
    case Import => IMPORT
    case ApiAccess => API_ACCESS
    case Premium => PREMIUM
  }

  /** `f` is in the word `p`. */
  predicate Has(p: nat, f: Flag) {
    BitAt(p, Position(f))
  }

  /** Every position below twelve belongs to exactly one flag. */
  lemma PositionsCovered()
    ensures forall i :: 0 <= i < 12 ==> Position(DECLARATION_ORDER[i]) == i
  {
  }

  /** Each flag's constant is a single bit at the flag's position, so it
      holds that flag and no other. */
  lemma {:induction false} BitHoldsOnlyItself(f: Flag, g: Flag)
    ensures Has(Bit(f), g) <==> f == g
  {
    assert Bit(f) == Pow2(Position(f)) by {
      Pow2Values();
      match f
      case Read =>
      case Write =>
      case Delete =>
      case Admin =>
      case ManageUsers =>
      case ManageRoles =>
      case Billing =>
      case Audit =>
      case Export =>
      case Import =>
      case ApiAccess =>
      case Premium =>
    }
    PowerBit(Position(f), Position(g));
  }

  /** Two sets with the same flags are the same set. */
  lemma {:induction false} SameFlagsSameSet(a: PermissionSet, b: PermissionSet)
    requires forall f :: Has(a, f) == Has(b, f)
    ensures a == b
  {
    PositionsCovered();
    forall i: nat | i < 12
      ensures BitAt(a, i) == BitAt(b, i)
    {
      assert Has(a, DECLARATION_ORDER[i]) == Has(b, DECLARATION_ORDER[i]);
    }
    Pow2Values();
    BitsDetermine(a, b, 12);
  }

  /** The set with no flag is the empty set. */
  lemma NoFlagIsEmpty(a: PermissionSet)
    ensures (forall f :: !Has(a, f)) <==> a == 0
  {
    forall f
      ensures !Has(0, f)
    {
      ZeroHasNoBits(Position(f));
    }
    if forall f :: !Has(a, f) {
      SameFlagsSameSet(a, 0);
    }
  }

  /** `empty()`. */
  function Empty(): (r: PermissionSet)
    ensures forall f :: !Has(r, f)
  {
    NoFlagIsEmpty(0);
    0
  }

  /** `all()`: the union of every named bit. */
  function All(): (r: PermissionSet)
    ensures forall f :: Has(r, f)
  {
    assert forall f :: Has(NAMED_BITS, f) by {
      forall f
        ensures Has(NAMED_BITS, f)
      {
        AllOnes(12, Position(f));
      }
    }
    NAMED_BITS
  }

  /** `a | b`. */
  function Union(a: PermissionSet, b: PermissionSet): (r: PermissionSet)
    ensures forall f :: Has(r, f) <==> Has(a, f) || Has(b, f)
  {
    Pow2Values();
    CombineBound(Or, a, b, 12);
    CombineBits(Or, a, b);
    Combine(Or, a, b)
  }

  /** A flag's constant holds that flag alone. */
  lemma SingleFlag(f: Flag)
    ensures forall h :: Has(Bit(f), h) <==> h == f
  {
    forall h
      ensures Has(Bit(f), h) <==> h == f
    {
      BitHoldsOnlyItself(f, h);
    }
  }

  /** The union of two flags' constants holds those two flags and no
      other. */
  lemma PairFlags(f: Flag, g: Flag)
    ensures forall h :: Has(Union(Bit(f), Bit(g)), h) <==> h == f || h == g
  {
    forall h
      ensures Has(Union(Bit(f), Bit(g)), h) <==> h == f || h == g
    {
      BitHoldsOnlyItself(f, h);
      BitHoldsOnlyItself(g, h);
    }
  }

  /** `a & b`. */
  function Intersection(a: PermissionSet, b: PermissionSet): (r: PermissionSet)
    ensures forall f :: Has(r, f) <==> Has(a, f) && Has(b, f)
  {
    Pow2Values();
    CombineBound(And, a, b, 12);
    CombineBits(And, a, b);
    Combine(And, a, b)
  }

  /** `contains`: every flag of `b` is in `a`. This is the authorization
      primitive everything else rests on. */
  function Contains(a: PermissionSet, b: PermissionSet): (r: bool)
    ensures r <==> forall f :: Has(b, f) ==> Has(a, f)
  {
    var common := Intersection(a, b);
    if forall f :: Has(b, f) ==> Has(a, f) then
      SameFlagsSameSet(common, b);
      common == b
    else
      common == b
  }

  /** `intersects`: some flag is in both sets. */
  function Intersects(a: PermissionSet, b: PermissionSet): (r: bool)
    ensures r <==> exists f :: Has(a, f) && Has(b, f)
  {
    var common := Intersection(a, b);
    NoFlagIsEmpty(common);
    common != 0
  }

  /** `satisfies`: the held set meets the required one. */
  function Satisfies(held: PermissionSet, required: PermissionSet): (r: bool)
    ensures r <==> forall f :: Has(required, f) ==> Has(held, f)
  {
    Contains(held, required)
  }

  /** `is_none`: no flag is set. */
  function IsNone(p: PermissionSet): (r: bool)
    ensures r <==> forall f :: !Has(p, f)
  {
    NoFlagIsEmpty(p);
    p == 0
  }

  /** `from_bits_checked`: the set with exactly the bits of `b`, or nothing
      when `b` has a bit outside the named ones. */
  function FromBitsChecked(b: U32): (r: Option<PermissionSet>)
    ensures r.Some? <==> ClearFrom(b, 12, 32)
    ensures r.Some? ==> r.value == b
  {
    Pow2Values();
    WordFitsIff(b, 12, 32);
    if b < 0x1000 then Some(b) else None
  }

  /** `from_bits_truncating`: the named bits of `b`; unknown bits are
      dropped and it never fails. */
  function FromBitsTruncating(b: U32): (r: PermissionSet)
    ensures forall f :: Has(r, f) <==> Has(b, f)
    ensures b < 0x1000 ==> r == b
  {
    TruncateKeepsNamedBits(b);
    Combine(And, b, NAMED_BITS)
  }

  /** `b & 0xFFF` keeps exactly the bits of `b` below twelve. */
  lemma TruncateKeepsNamedBits(b: U32)
    ensures Combine(And, b, NAMED_BITS) < 0x1000
    ensures forall i: nat :: BitAt(Combine(And, b, NAMED_BITS), i) == (BitAt(b, i) && i < 12)
    ensures b < 0x1000 ==> Combine(And, b, NAMED_BITS) == b
  {
    var r := Combine(And, b, NAMED_BITS);
    Pow2Values();
    CombineBits(And, b, NAMED_BITS);
    forall i: nat
      ensures BitAt(r, i) == (BitAt(b, i) && i < 12)
    {
      AllOnes(12, i);
    }
    assert NAMED_BITS < Pow2(32);
    CombineBound(And, b, NAMED_BITS, 32);
    WordFitsIff(r, 12, 32);
    if b < 0x1000 {
      BitsDetermine(r, b, 12);
    }
  }

  /** `as_u32`: the raw bits. */
  function AsU32(p: PermissionSet): (b: U32)
    ensures forall f :: Has(b, f) <==> Has(p, f)
  {
    p
  }

  /** The strict constructor takes back the word of every set, and so does
      the truncating one. */
  lemma AsU32RoundTrip(p: PermissionSet)
    ensures FromBitsChecked(AsU32(p)) == Some(p)
    ensures FromBitsTruncating(AsU32(p)) == p
  {
  }

  /** Truncation is idempotent, and where the strict constructor succeeds
      the two agree. */
  lemma TruncatingIdempotent(b: U32)
    ensures FromBitsTruncating(FromBitsTruncating(b)) == FromBitsTruncating(b)
    ensures FromBitsChecked(b).Some? ==> FromBitsChecked(b) == Some(FromBitsTruncating(b))
  {
  }

  /** The crate's tests: `0x3` is READ|WRITE, words with high bits are
      rejected by the strict constructor, and truncating all 32 bits gives
      `all()`. */
  lemma ConstructorExamples()
    ensures FromBitsChecked(0x0003) == Some(Union(READ, WRITE))
    ensures FromBitsChecked(0xFFFF_0000) == None
    ensures FromBitsChecked(0xFFFF_FFFF) == None
    ensures FromBitsTruncating(0xFFFF_FFFF) == All()
  {
    var rw := Union(READ, WRITE);
    BitHoldsOnlyItself(Read, Read);
    forall f
      ensures Has(rw, f) == Has(3, f)
    {
      BitHoldsOnlyItself(Read, f);
      BitHoldsOnlyItself(Write, f);
      assert Has(3, f) <==> f == Read || f == Write by {
        match f
        case Read =>
        case Write =>
        case _ =>
      }
    }
    SameFlagsSameSet(rw, 3);
    SameFlagsSameSet(FromBitsTruncating(0xFFFF_FFFF), All());
  }

  /** Presets: aliases for common combinations, not new bits. */
  const VIEWER: PermissionSet := READ
  const EDITOR: PermissionSet := Union(READ, WRITE)
  const MANAGER: PermissionSet := Union(Union(Union(READ, WRITE), DELETE), MANAGE_USERS)

  /** The presets hold exactly the flags their names promise, and their
      words are the ones the crate spells out. */
  lemma PresetFlags()
    ensures forall f :: Has(VIEWER, f) <==> f == Read
    ensures forall f :: Has(EDITOR, f) <==> f in {Read, Write}
    ensures forall f :: Has(MANAGER, f) <==> f in {Read, Write, Delete, ManageUsers}
    ensures VIEWER == 0x1 && EDITOR == 0x3 && MANAGER == 0x17
  {
    forall f
      ensures Has(VIEWER, f) <==> f == Read
      ensures Has(EDITOR, f) <==> f in {Read, Write}
      ensures Has(MANAGER, f) <==> f in {Read, Write, Delete, ManageUsers}
      ensures Has(EDITOR, f) == Has(0x3, f) && Has(MANAGER, f) == Has(0x17, f)
    {
      BitHoldsOnlyItself(Read, f);
      BitHoldsOnlyItself(Write, f);
      BitHoldsOnlyItself(Delete, f);
      BitHoldsOnlyItself(ManageUsers, f);
      match f
      case Read =>
      case Write =>
      case Delete =>
      case ManageUsers =>
      case _ =>
    }
    SameFlagsSameSet(EDITOR, 0x3);
    SameFlagsSameSet(MANAGER, 0x17);
  }

  /** `Default`: least privilege, READ alone rather than the empty set. */
  function Default(): (r: PermissionSet)
    ensures forall f :: Has(r, f) <==> f == Read
  {
    forall f
      ensures Has(READ, f) <==> f == Read
    {
      BitHoldsOnlyItself(Read, f);
    }
    READ
  }

  /** Containment is reflexive, and the empty set is contained only in
      itself from below: `empty().contains(p)` only for empty `p`. */
  lemma ContainsReflexive(p: PermissionSet)
    ensures Contains(p, p)
    ensures Contains(Empty(), p) <==> p == Empty()
    ensures Contains(p, Empty())
  {
    NoFlagIsEmpty(p);
  }

  /** The crate's tests: READ|WRITE contains READ and WRITE but not
      DELETE; READ|WRITE|DELETE satisfies READ and READ|WRITE, not ADMIN. */
  lemma ContainsExamples()
    ensures Contains(EDITOR, READ) && Contains(EDITOR, WRITE)
    ensures !Contains(EDITOR, DELETE)
    ensures Satisfies(Union(EDITOR, DELETE), READ) && Satisfies(Union(EDITOR, DELETE), EDITOR)
    ensures !Satisfies(Union(EDITOR, DELETE), ADMIN)
  {
    PresetFlags();
    BitHoldsOnlyItself(Read, Read);
    BitHoldsOnlyItself(Write, Write);
    BitHoldsOnlyItself(Delete, Delete);
    BitHoldsOnlyItself(Admin, Admin);
    forall f
      ensures Has(READ, f) ==> f == Read
      ensures Has(WRITE, f) ==> f == Write
      ensures Has(ADMIN, f) ==> f == Admin
      ensures Has(DELETE, f) ==> f == Delete
    {
      BitHoldsOnlyItself(Read, f);
      BitHoldsOnlyItself(Write, f);
      BitHoldsOnlyItself(Admin, f);
      BitHoldsOnlyItself(Delete, f);
    }
    assert !Has(Union(EDITOR, DELETE), Admin);
  }
}
