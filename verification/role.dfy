/** The built-in role enumeration: three roles in a strict hierarchy, their
    names, their fixed permission sets, and their JSON form. */
module Roles {
  import opened Results
  import opened Permissions
  import opened Capabilities
  import Json

  /** `RUserRole`. */
  datatype UserRole = User | Premium | Admin

  /** `#[default]`: a new user is a regular user. */
  const DEFAULT: UserRole := User

  /** `is_admin`: only the administrator, the one role granted ADMIN. */
  predicate IsAdmin(r: UserRole)
    ensures IsAdmin(r) <==> Has(RolePermissions(r), Flag.Admin)
  {
    r == UserRole.Admin
  }

  /** `is_premium`: premium users and administrators, the roles granted
      PREMIUM. */
  predicate IsPremium(r: UserRole)
    ensures IsPremium(r) <==> Has(RolePermissions(r), Flag.Premium)
  {
    r == UserRole.Premium || r == UserRole.Admin
  }

  /** `is_user`: only the regular user, the one role without PREMIUM. */
  predicate IsUser(r: UserRole)
    ensures IsUser(r) <==> !Has(RolePermissions(r), Flag.Premium)
  {
    r == User
  }

  /** `as_str`, which `Display`, the trait's `name` and the serde form all
      use. */
  function AsStr(r: UserRole): (s: string)
    ensures |s| > 0
  {
    match r
    case User => "user"
    case Premium => "premium"
    case Admin => "admin"
  }

  /** The three names are distinct, so a name identifies its role. */
  lemma AsStrInjective(a: UserRole, b: UserRole)
    ensures AsStr(a) == AsStr(b) <==> a == b
  {
  }

  /** The flags each role is granted. */
  predicate UserFlag(f: Flag) {
    f == Read || f == ApiAccess
  }

  predicate PremiumFlag(f: Flag) {
    f == Read || f == Write || f == ApiAccess || f == Flag.Premium || f == Export
  }

  /** `Role::permissions`: READ and API_ACCESS for a user; READ, WRITE,
      API_ACCESS, PREMIUM and EXPORT for a premium user; everything for an
      administrator. The two fixed sets are written as the words their
      unions evaluate to; `RoleWordsAreTheUnions` ties them back. */
  function RolePermissions(r: UserRole): (p: PermissionSet)
    ensures r == User ==> forall f :: Has(p, f) <==> UserFlag(f)
    ensures r == UserRole.Premium ==> forall f :: Has(p, f) <==> PremiumFlag(f)
    ensures r == UserRole.Admin ==> forall f :: Has(p, f)
  {
    match r
    case User =>
      UserWordFlags();
      USER_WORD
    case Premium =>
      PremiumWordFlags();
      PREMIUM_WORD
    case Admin => All()
  }

  /** READ | API_ACCESS. */
  const USER_WORD: PermissionSet := 0x0401
  /** READ | WRITE | API_ACCESS | PREMIUM | EXPORT. */
  const PREMIUM_WORD: PermissionSet := 0x0D03

  lemma UserWordFlags()
    ensures forall f :: Has(USER_WORD, f) <==> UserFlag(f)
  {
    forall f
      ensures Has(USER_WORD, f) <==> UserFlag(f)
    {
      match f
      case Read =>
      case Write =>
      case Delete =>
      case Admin =>
      case ManageUsers =>
      case ManageRoles =>
      case Billing =>
      case Audit =>
      case Export =>
      case Import =>
      case ApiAccess =>
      case Premium =>
    }
  }

  lemma PremiumWordFlags()
    ensures forall f :: Has(PREMIUM_WORD, f) <==> PremiumFlag(f)
  {
    forall f
      ensures Has(PREMIUM_WORD, f) <==> PremiumFlag(f)
    {
      match f
      case Read =>
      case Write =>
      case Delete =>
      case Admin =>
      case ManageUsers =>
      case ManageRoles =>
      case Billing =>
      case Audit =>
      case Export =>
      case Import =>
      case ApiAccess =>
      case Premium =>
    }
  }

  /** The fixed sets are exactly the unions of flag constants the crate
      writes for them. */
  lemma RoleWordsAreTheUnions()
    ensures RolePermissions(User) == Union(READ, API_ACCESS)
    ensures RolePermissions(UserRole.Premium) == Union(Union(Union(Union(READ, WRITE), API_ACCESS), PREMIUM), EXPORT)
  {
    UserUnionFlags();
    PremiumUnionFlags();
    SameFlagsSameSet(RolePermissions(User), Union(READ, API_ACCESS));
    SameFlagsSameSet(RolePermissions(UserRole.Premium), Union(Union(Union(Union(READ, WRITE), API_ACCESS), PREMIUM), EXPORT));
  }

  lemma UserUnionFlags()
    ensures forall f :: Has(Union(READ, API_ACCESS), f) <==> UserFlag(f)
  {
    forall f
      ensures Has(Union(READ, API_ACCESS), f) <==> UserFlag(f)
    {
      BitHoldsOnlyItself(Read, f);
      BitHoldsOnlyItself(ApiAccess, f);
    }
  }

  lemma PremiumUnionFlags()
    ensures forall f :: Has(Union(Union(Union(Union(READ, WRITE), API_ACCESS), PREMIUM), EXPORT), f) <==> PremiumFlag(f)
  {
    forall f
      ensures Has(Union(Union(Union(Union(READ, WRITE), API_ACCESS), PREMIUM), EXPORT), f) <==> PremiumFlag(f)
    {
      BitHoldsOnlyItself(Read, f);
      BitHoldsOnlyItself(Write, f);
      BitHoldsOnlyItself(ApiAccess, f);
      BitHoldsOnlyItself(Flag.Premium, f);
      BitHoldsOnlyItself(Export, f);
    }
  }

  /** The role seen through the `Role` trait. */
  function Capability(r: UserRole): (c: RoleCapability)
    ensures c.permissions == RolePermissions(r) && c.name == AsStr(r)
  {
    RoleCapability(RolePermissions(r), AsStr(r))
  }

  /** The hierarchy: every permission of a user is a premium user's, and
      every permission of a premium user is an administrator's; neither
      inclusion is an equality. */
  lemma Hierarchy()
    ensures Contains(RolePermissions(UserRole.Premium), RolePermissions(User))
    ensures Contains(RolePermissions(UserRole.Admin), RolePermissions(UserRole.Premium))
    ensures !Contains(RolePermissions(User), RolePermissions(UserRole.Premium))
    ensures !Contains(RolePermissions(UserRole.Premium), RolePermissions(UserRole.Admin))
  {
    assert Has(RolePermissions(UserRole.Premium), Write);
    assert Has(RolePermissions(UserRole.Admin), Flag.Admin);
  }

  /** A higher role can do everything a lower one can. */
  lemma HigherRoleCanMore(p: PermissionSet)
    ensures Capability(User).Can(p) ==> Capability(UserRole.Premium).Can(p)
    ensures Capability(UserRole.Premium).Can(p) ==> Capability(UserRole.Admin).Can(p)
    ensures Capability(User).CanAny(p) ==> Capability(UserRole.Premium).CanAny(p)
    ensures Capability(UserRole.Premium).CanAny(p) ==> Capability(UserRole.Admin).CanAny(p)
  {
    Hierarchy();
    CapabilityMonotone(Capability(User), Capability(UserRole.Premium), p);
    CapabilityMonotone(Capability(UserRole.Premium), Capability(UserRole.Admin), p);
  }

  /** The enum's own `is_admin` and `is_premium` agree with the checks the
      trait derives from the permission table: only the administrator holds
      ADMIN, exactly premium users and administrators hold PREMIUM, and the
      regular user is the one role without PREMIUM. */
  lemma InherentChecksMatchTrait(r: UserRole)
    ensures IsAdmin(r) <==> Capability(r).IsAdmin()
    ensures IsPremium(r) <==> Capability(r).IsPremium()
    ensures IsUser(r) <==> !Capability(r).IsPremium()
  {
  }

  /** The default role holds the fewest permissions of the three. */
  lemma DefaultIsLeastPrivileged(r: UserRole)
    ensures DEFAULT == User && IsUser(DEFAULT)
    ensures Contains(RolePermissions(r), RolePermissions(DEFAULT))
  {
    Hierarchy();
    if r == UserRole.Admin {
      ContainsTransitive(RolePermissions(UserRole.Admin), RolePermissions(UserRole.Premium), RolePermissions(User));
    } else if r == User {
      ContainsReflexive(RolePermissions(User));
    }
  }

  lemma ContainsTransitive(a: PermissionSet, b: PermissionSet, c: PermissionSet)
    requires Contains(a, b) && Contains(b, c)
    ensures Contains(a, c)
  {
  }

  /** The crate's tests of what a user can do: read and call the API. */
  lemma UserExamples()
    ensures Capability(User).Can(Bit(Read)) && Capability(User).Can(Bit(ApiAccess))
  {
    var c := Capability(User);
    assert c.Can(Bit(Read)) by {
      SingleFlagCapability(c, Read);
    }
    assert c.Can(Bit(ApiAccess)) by {
      SingleFlagCapability(c, ApiAccess);
    }
  }

  /** The crate's tests of what a user cannot do: write or delete. */
  lemma UserLimits()
    ensures !Capability(User).Can(Bit(Write)) && !Capability(User).Can(Bit(Delete))
  {
    var c := Capability(User);
    assert !c.Can(Bit(Write)) by {
      SingleFlagCapability(c, Write);
    }
    assert !c.Can(Bit(Delete)) by {
      SingleFlagCapability(c, Delete);
    }
  }

  /** The crate's tests of a user's combined permissions: it cannot read
      and write together, but holds one of ADMIN and READ. */
  lemma UserPairExamples()
    ensures !Capability(User).CanAll(Union(Bit(Read), Bit(Write)))
    ensures Capability(User).CanAny(Union(Bit(Flag.Admin), Bit(Read)))
  {
    var c := Capability(User);
    assert !c.CanAll(Union(Bit(Read), Bit(Write))) by {
      PairCapability(c, Read, Write);
    }
    assert c.CanAny(Union(Bit(Flag.Admin), Bit(Read))) by {
      PairCapability(c, Flag.Admin, Read);
    }
  }

  /** The crate's tests of a premium user: it can read and write together
      and holds PREMIUM and EXPORT, but not ADMIN. */
  lemma PremiumExamples()
    ensures Capability(UserRole.Premium).CanAll(Union(Bit(Read), Bit(Write)))
    ensures Capability(UserRole.Premium).Can(Bit(Flag.Premium)) && Capability(UserRole.Premium).Can(Bit(Export))
    ensures !Capability(UserRole.Premium).Can(Bit(Flag.Admin))
  {
    var c := Capability(UserRole.Premium);
    assert c.CanAll(Union(Bit(Read), Bit(Write))) by {
      PairCapability(c, Read, Write);
    }
    assert c.Can(Bit(Flag.Premium)) by {
      SingleFlagCapability(c, Flag.Premium);
    }
    assert c.Can(Bit(Export)) by {
      SingleFlagCapability(c, Export);
    }
    assert !c.Can(Bit(Flag.Admin)) by {
      SingleFlagCapability(c, Flag.Admin);
    }
  }

  /** The crate's tests of an administrator: it holds every flag and can
      manage users. */
  lemma AdminExamples()
    ensures Capability(UserRole.Admin).CanAll(All()) && Capability(UserRole.Admin).Can(Bit(ManageUsers))
  {
    SingleFlagCapability(Capability(UserRole.Admin), ManageUsers);
  }

  /** The serde form: the role's name as a JSON string. */
  function Encode(r: UserRole): (v: Json.Value)
    ensures v.Str? && v.s == AsStr(r)
  {
    Json.Str(AsStr(r))
  }

  /** The other form serde_json accepts for a role: `{"<name>": null}`. */
  function MapForm(r: UserRole): (v: Json.Value)
    ensures v == Json.VariantMap(AsStr(r))
  {
    Json.VariantMap(AsStr(r))
  }

  const NAMES: seq<string> := ["user", "premium", "admin"]

  /** The derived decoder: a role's name, as a string or as the key of a
      one-entry map to `null`, is that role; another string is an unknown
      variant, and a value of another kind is not a role at all. */
  function Decode(v: Json.Value): (r: Result<UserRole, Json.EnumError>)
    ensures r.Ok? <==> exists role :: v == Encode(role) || v == MapForm(role)
    ensures r.Ok? ==> v == Encode(r.value) || v == MapForm(r.value)
    ensures v.Str? && r.Err? ==> r.error == Json.UnknownVariant(v.s)
    ensures v.Null? || v.Bool? || v.Integer? || v.Float? || v.Array? ==> r == Err(Json.NotAnEnum)
  {
    match Json.UnitVariant(v, NAMES)
    case Ok(name) =>
      var role := if name == "user" then User else if name == "premium" then UserRole.Premium else UserRole.Admin;
      assert AsStr(role) == name;
      assert v == Encode(role) || v == MapForm(role);
      Ok(role)
    case Err(e) =>
      assert forall role :: AsStr(role) in NAMES;
      Err(e)
  }

  /** Every role survives a trip through JSON. */
  lemma RoleRoundTrip(r: UserRole)
    ensures Decode(Encode(r)) == Ok(r)
    ensures Decode(MapForm(r)) == Ok(r)
  {
  }

  /** Serde examples from the crate's tests. */
  lemma SerdeExamples()
    ensures Encode(User) == Json.Str("user") && Encode(UserRole.Premium) == Json.Str("premium")
    ensures Encode(UserRole.Admin) == Json.Str("admin")
    ensures Decode(Json.Str("admin")) == Ok(UserRole.Admin)
    ensures Decode(Json.Str("root")) == Err(Json.UnknownVariant("root"))
    ensures Decode(Json.Object([("admin", Json.Null)])) == Ok(UserRole.Admin)
    ensures Decode(Json.Object([("root", Json.Null)])) == Err(Json.UnknownVariant("root"))
    ensures Decode(Json.Object([("admin", Json.Integer(1))])) == Err(Json.InvalidEnumMap)
  {
  }
}
