/** The `Role` trait: anything that names a permission set, together with
    the checks every implementation inherits from it. */
module Capabilities {
  import opened Permissions

  /** A role as the trait sees it: a permission set and a stable name.
      Custom roles supply both; every check below is derived from the
      permission set alone. */
  datatype RoleCapability = RoleCapability(permissions: PermissionSet, name: string) {

    /** `can`: the role holds every flag of `p`. */
    function Can(p: PermissionSet): (r: bool)
      ensures r <==> forall f :: Has(p, f) ==> Has(permissions, f)
    {
      Contains(permissions, p)
    }

    /** `can_all`: every flag of `p`; the same test as `can`. */
    function CanAll(p: PermissionSet): (r: bool)
      ensures r <==> forall f :: Has(p, f) ==> Has(permissions, f)
    {
      Contains(permissions, p)
    }

    /** `can_any`: at least one flag of `p`. */
    function CanAny(p: PermissionSet): (r: bool)
      ensures r <==> exists f :: Has(p, f) && Has(permissions, f)
    {
      Intersects(permissions, p)
    }

    /** `is_admin`: the role holds the ADMIN flag. */
    function IsAdmin(): (r: bool)
      ensures r <==> Has(permissions, Admin)
    {
      BitHoldsOnlyItself(Admin, Admin);
      forall f
        ensures Has(ADMIN, f) ==> f == Admin
      {
        BitHoldsOnlyItself(Admin, f);
      }
      Can(ADMIN)
    }

    /** `is_premium`: the role holds the PREMIUM flag. */
    function IsPremium(): (r: bool)
      ensures r <==> Has(permissions, Premium)
    {
      BitHoldsOnlyItself(Premium, Premium);
      forall f
        ensures Has(PREMIUM, f) ==> f == Premium
      {
        BitHoldsOnlyItself(Premium, f);
      }
      Can(PREMIUM)
    }
  }

  /** The derived checks agree with one another the way the trait defines
      them: `can_all` is `can`, `is_admin` is `can(ADMIN)`, `is_premium` is
      `can(PREMIUM)`, and a single flag is held exactly when `can_any` of
      it holds. */
  lemma DerivedChecksAgree(c: RoleCapability, p: PermissionSet, f: Flag)
    ensures c.CanAll(p) == c.Can(p)
    ensures c.IsAdmin() == c.Can(ADMIN)
    ensures c.IsPremium() == c.Can(PREMIUM)
    ensures c.Can(Bit(f)) == c.CanAny(Bit(f))
  {
    forall g
      ensures Has(ADMIN, g) <==> g == Admin
      ensures Has(PREMIUM, g) <==> g == Premium
      ensures Has(Bit(f), g) <==> g == f
    {
      BitHoldsOnlyItself(Admin, g);
      BitHoldsOnlyItself(Premium, g);
      BitHoldsOnlyItself(f, g);
    }
  }

  /** Widening a role's permission set never revokes a capability. */
  lemma {:induction false} CapabilityMonotone(small: RoleCapability, large: RoleCapability, p: PermissionSet)
    requires Contains(large.permissions, small.permissions)
    ensures small.Can(p) ==> large.Can(p)
    ensures small.CanAny(p) ==> large.CanAny(p)
    ensures small.IsAdmin() ==> large.IsAdmin()
    ensures small.IsPremium() ==> large.IsPremium()
  {
    if small.CanAny(p) {
      var f :| Has(p, f) && Has(small.permissions, f);
      assert Has(large.permissions, f);
    }
  }

  /** On a single flag, `can` and `can_any` both ask whether the role holds
      that flag. */
  lemma SingleFlagCapability(c: RoleCapability, f: Flag)
    ensures c.Can(Bit(f)) <==> Has(c.permissions, f)
    ensures c.CanAny(Bit(f)) <==> Has(c.permissions, f)
  {
    SingleFlag(f);
    OneFlagCapability(c, Bit(f), f);
  }

  lemma OneFlagCapability(c: RoleCapability, u: PermissionSet, f: Flag)
    requires forall h :: Has(u, h) <==> h == f
    ensures c.Can(u) <==> Has(c.permissions, f)
    ensures c.CanAny(u) <==> Has(c.permissions, f)
  {
  }

  /** On two flags, `can_all` asks for both and `can_any` for either. */
  lemma PairCapability(c: RoleCapability, f: Flag, g: Flag)
    ensures c.CanAll(Union(Bit(f), Bit(g))) <==> Has(c.permissions, f) && Has(c.permissions, g)
    ensures c.CanAny(Union(Bit(f), Bit(g))) <==> Has(c.permissions, f) || Has(c.permissions, g)
  {
    PairFlags(f, g);
    TwoFlagCapability(c, Union(Bit(f), Bit(g)), f, g);
  }

  lemma TwoFlagCapability(c: RoleCapability, u: PermissionSet, f: Flag, g: Flag)
    requires forall h :: Has(u, h) <==> h == f || h == g
    ensures c.CanAll(u) <==> Has(c.permissions, f) && Has(c.permissions, g)
    ensures c.CanAny(u) <==> Has(c.permissions, f) || Has(c.permissions, g)
  {
    assert Has(u, f) && Has(u, g);
    if Has(c.permissions, f) && Has(c.permissions, g) {
      forall h | Has(u, h)
        ensures Has(c.permissions, h)
      {
      }
    }
    if c.CanAny(u) {
      var h :| Has(u, h) && Has(c.permissions, h);
    }
  }
}
