/** The JWT claims record: who the token is for, the role it carries, when
    it expires, and an optional permission set that overrides the role's. */
module TokenClaims {
  import opened Results
  import opened Permissions
  import opened Capabilities
  import Roles
  import PermissionSerde
  import Json

  /** `Claims`. `iat` and `permissions` are optional; the others are
      required. */
  datatype Claims = Claims(
    sub: Uuid,
    role: Roles.UserRole,
    exp: Usize,
    iat: Option<Usize>,
    permissions: Option<PermissionSet>)

  /** `new`: no issue time and no override. */
  function New(sub: Uuid, role: Roles.UserRole, exp: Usize): (c: Claims)
    ensures c.sub == sub && c.role == role && c.exp == exp
    ensures c.iat == None && c.permissions == None
  {
    Claims(sub, role, exp, None, None)
  }

  /** `with_iat`: an issue time and no override. */
  function WithIat(sub: Uuid, role: Roles.UserRole, exp: Usize, iat: Usize): (c: Claims)
    ensures c.sub == sub && c.role == role && c.exp == exp
    ensures c.iat == Some(iat) && c.permissions == None
  {
    Claims(sub, role, exp, Some(iat), None)
  }

  /** `with_permissions`: an override and no issue time. */
  function WithPermissions(sub: Uuid, role: Roles.UserRole, exp: Usize, permissions: PermissionSet): (c: Claims)
    ensures c.sub == sub && c.role == role && c.exp == exp
    ensures c.iat == None && c.permissions == Some(permissions)
  {
    Claims(sub, role, exp, None, Some(permissions))
  }

  /** The two specialised constructors are `new` with exactly one optional
      field filled in. */
  lemma ConstructorsExtendNew(sub: Uuid, role: Roles.UserRole, exp: Usize, iat: Usize, p: PermissionSet)
    ensures WithIat(sub, role, exp, iat) == New(sub, role, exp).(iat := Some(iat))
    ensures WithPermissions(sub, role, exp, p) == New(sub, role, exp).(permissions := Some(p))
    ensures WithIat(sub, role, exp, iat) != New(sub, role, exp)
    ensures WithPermissions(sub, role, exp, p) != New(sub, role, exp)
  {
  }

  /** `user_id`: the subject. */
  function UserId(c: Claims): (id: Uuid)
    ensures id == c.sub
  {
    c.sub
  }

  /** The constructors keep the subject they were given. */
  lemma UserIdIsSubject(sub: Uuid, role: Roles.UserRole, exp: Usize, iat: Usize, p: PermissionSet)
    ensures UserId(New(sub, role, exp)) == sub
    ensures UserId(WithIat(sub, role, exp, iat)) == sub
    ensures UserId(WithPermissions(sub, role, exp, p)) == sub
  {
  }

  /** The current time in whole seconds since the epoch, as `is_expired`
      reads it: a clock before the epoch (`None`) counts as zero. */
  function Now(clock: Option<Uint64>): (now: Usize)
    ensures clock.Some? ==> now == clock.value
    ensures clock.None? ==> now == 0
  {
    clock.UnwrapOr(0)
  }

  /** `is_expired` against a given time: strictly after `exp`, no leeway. */
  function IsExpiredAt(c: Claims, now: Usize): (r: bool)
    ensures r <==> now > c.exp
  {
    c.exp < now
  }

  /** `is_expired` with the clock as a parameter. */
  function IsExpired(c: Claims, clock: Option<Uint64>): (r: bool)
    ensures r <==> Now(clock) > c.exp
  {
    IsExpiredAt(c, Now(clock))
  }

  /** Expiry is permanent, a token is still valid at the very second it
      names, `exp = 0` has expired once any time has passed, `usize::MAX`
      never expires, and a clock before the epoch expires nothing. */
  lemma ExpiryFacts(c: Claims, t: Usize, u: Usize)
    ensures IsExpiredAt(c, t) && t <= u ==> IsExpiredAt(c, u)
    ensures !IsExpiredAt(c, c.exp)
    ensures c.exp == 0 ==> (IsExpiredAt(c, t) <==> t > 0)
    ensures c.exp == USIZE_MAX ==> !IsExpiredAt(c, t)
    ensures !IsExpired(c, None)
  {
  }

  /** `is_admin`: the role alone decides, whatever the override says; it
      holds when the role's own table entry has ADMIN. */
  predicate IsAdmin(c: Claims)
    ensures IsAdmin(c) <==> Has(Roles.RolePermissions(c.role), Flag.Admin)
  {
    Roles.IsAdmin(c.role)
  }

  /** `is_premium`: the role alone decides, whatever the override says; it
      holds when the role's own table entry has PREMIUM. */
  predicate IsPremium(c: Claims)
    ensures IsPremium(c) <==> Has(Roles.RolePermissions(c.role), Flag.Premium)
  {
    Roles.IsPremium(c.role)
  }

  /** `effective_permissions`: the override when there is one, otherwise the
      role's table entry. The override replaces the role's set; the two are
      never merged. */
  function EffectivePermissions(c: Claims): (p: PermissionSet)
    ensures c.permissions.Some? ==> p == c.permissions.value
    ensures c.permissions.None? ==> p == Roles.RolePermissions(c.role)
  {
    c.permissions.UnwrapOr(Roles.RolePermissions(c.role))
  }

  /** `can`: every flag of `p` is effective. */
  function Can(c: Claims, p: PermissionSet): (r: bool)
    ensures r <==> forall f :: Has(p, f) ==> Has(EffectivePermissions(c), f)
  {
    Contains(EffectivePermissions(c), p)
  }

  /** `can_all`: the same test as `can`. */
  function CanAll(c: Claims, p: PermissionSet): (r: bool)
    ensures r <==> forall f :: Has(p, f) ==> Has(EffectivePermissions(c), f)
  {
    Contains(EffectivePermissions(c), p)
  }

  /** `can_any`: some flag of `p` is effective. */
  function CanAny(c: Claims, p: PermissionSet): (r: bool)
    ensures r <==> exists f :: Has(p, f) && Has(EffectivePermissions(c), f)
  {
    Intersects(EffectivePermissions(c), p)
  }

  /** The claims' checks are the trait's checks on a role whose set is the
      effective one; without an override that is the claimed role itself. */
  lemma ChecksAreCapabilityChecks(c: Claims, p: PermissionSet)
    ensures Can(c, p) == RoleCapability(EffectivePermissions(c), "").Can(p)
    ensures CanAll(c, p) == Can(c, p)
    ensures CanAny(c, p) == RoleCapability(EffectivePermissions(c), "").CanAny(p)
    ensures c.permissions.None? ==> Can(c, p) == Roles.Capability(c.role).Can(p)
    ensures c.permissions.None? ==> CanAny(c, p) == Roles.Capability(c.role).CanAny(p)
  {
  }

  /** Without an override, the role checks and the permission checks tell
      the same story: the claims are an administrator's exactly when they
      can do ADMIN, and premium exactly when they can do PREMIUM. */
  lemma RoleChecksMatchWithoutOverride(c: Claims)
    requires c.permissions.None?
    ensures IsAdmin(c) <==> Can(c, ADMIN)
    ensures IsPremium(c) <==> Can(c, PREMIUM)
  {
    Roles.InherentChecksMatchTrait(c.role);
    DerivedChecksAgree(Roles.Capability(c.role), ADMIN, Read);
    ChecksAreCapabilityChecks(c, ADMIN);
    ChecksAreCapabilityChecks(c, PREMIUM);
  }

  /** An override replaces the role's set outright: with one, the role no
      longer matters to `can`, `can_all` or `can_any`, while `is_admin` and
      `is_premium` never look at the override. */
  lemma OverrideReplacesRole(c: Claims, role: Roles.UserRole, q: PermissionSet, p: PermissionSet)
    requires c.permissions == Some(q)
    ensures EffectivePermissions(c.(role := role)) == q
    ensures Can(c.(role := role), p) == Can(c, p) && CanAny(c.(role := role), p) == CanAny(c, p)
    ensures IsAdmin(c.(permissions := None)) == IsAdmin(c)
    ensures IsPremium(c.(permissions := None)) == IsPremium(c)
  {
  }

  /** On a single flag, `can` asks whether that flag is effective. */
  lemma CanFlag(c: Claims, f: Flag)
    ensures Can(c, Bit(f)) <==> Has(EffectivePermissions(c), f)
  {
    SingleFlagCapability(RoleCapability(EffectivePermissions(c), ""), f);
  }

  /** The override can narrow an administrator: with READ|EXPORT an admin
      claim can read but not delete, and still reports `is_admin`. */
  lemma OverrideNarrowsAdmin(sub: Uuid, exp: Usize)
    ensures var c := WithPermissions(sub, Roles.UserRole.Admin, exp, Union(Bit(Read), Bit(Export)));
      EffectivePermissions(c) == Union(Bit(Read), Bit(Export)) &&
      Can(c, Bit(Read)) && !Can(c, Bit(Delete)) && IsAdmin(c)
  {
    var c := WithPermissions(sub, Roles.UserRole.Admin, exp, Union(Bit(Read), Bit(Export)));
    assert Has(EffectivePermissions(c), Read) && !Has(EffectivePermissions(c), Delete) by {
      PairFlags(Read, Export);
    }
    CanFlag(c, Read);
    CanFlag(c, Delete);
  }

  /** The override can widen a user: with ADMIN a user claim can do ADMIN,
      yet `is_admin` still says no. */
  lemma OverrideWidensUser(sub: Uuid, exp: Usize)
    ensures var c := WithPermissions(sub, Roles.UserRole.User, exp, Bit(Flag.Admin));
      Can(c, Bit(Flag.Admin)) && !IsAdmin(c)
  {
    var c := WithPermissions(sub, Roles.UserRole.User, exp, Bit(Flag.Admin));
    BitHoldsOnlyItself(Flag.Admin, Flag.Admin);
    CanFlag(c, Flag.Admin);
  }

  /** Why a JSON value is not a set of claims. */
  datatype ClaimsError =
    | NotAStruct
    | InvalidLength(length: nat)
    | MissingField(field: string)
    | DuplicateField(field: string)
    | InvalidField(field: string)

  /** A `usize` as serde_json delivers it: a non-negative integer that fits
      in 64 bits. */
  function DecodeUsize(v: Json.Value): (r: Option<Usize>)
    ensures r.Some? <==> v.Integer? && 0 <= v.n <= USIZE_MAX
    ensures r.Some? ==> r.value == v.n
  {
    if v.Integer? && Json.Deliver(v.n) == Json.AsU64 then Some(v.n) else None
  }

  /** The five field values are each of the kind their field takes: a UUID,
      a role, a `usize`, and for the two optional fields nothing, `null`,
      a `usize` or a permission word. */
  predicate ValuesReadable(subValue: Json.Value, roleValue: Json.Value, expValue: Json.Value, iatValue: Option<Json.Value>, permissionsValue: Option<Json.Value>) {
    && subValue.UuidText?
    && Roles.Decode(roleValue).Ok?
    && expValue.Integer? && 0 <= expValue.n <= USIZE_MAX
    && (iatValue.Some? && iatValue.value != Json.Null ==>
          iatValue.value.Integer? && 0 <= iatValue.value.n <= USIZE_MAX)
    && (permissionsValue.Some? && permissionsValue.value != Json.Null ==>
          PermissionSerde.Deserialize(permissionsValue.value).Ok?)
  }

  /** The keys the record uses, in declaration order. */
  const KEYS: seq<string> := ["sub", "role", "exp", "iat", "permissions"]

  /** The derived encoder: the three required fields, then `iat` and
      `permissions` only when present. */
  function Encode(c: Claims): (v: Json.Value)
    ensures v.Object? && 3 <= |v.fields| <= 5
  {
    var iat := if c.iat.Some? then [("iat", Json.Integer(c.iat.value))] else [];
    var permissions := if c.permissions.Some? then [("permissions", PermissionSerde.Serialize(c.permissions.value))] else [];
    Json.Object([("sub", Json.UuidText(c.sub)), ("role", Roles.Encode(c.role)), ("exp", Json.Integer(c.exp))] + (iat + permissions))
  }

  /** What the encoder writes under each key: the required fields always,
      `iat` and `permissions` only when present, and nothing else. */
  function Written(c: Claims, key: string): Option<Json.Value> {
    if key == "sub" then Some(Json.UuidText(c.sub))
    else if key == "role" then Some(Roles.Encode(c.role))
    else if key == "exp" then Some(Json.Integer(c.exp))
    else if key == "iat" && c.iat.Some? then Some(Json.Integer(c.iat.value))
    else if key == "permissions" && c.permissions.Some? then Some(PermissionSerde.Serialize(c.permissions.value))
    else None
  }

  /** The encoded object holds exactly what `Written` says, each key at
      most once. */
  lemma EncodedFields(c: Claims, key: string)
    ensures Json.Field(Encode(c).fields, key) == Written(c, key)
    ensures Json.Count(Encode(c).fields, key) == if Written(c, key).Some? then 1 else 0
  {
    var sub, role, exp := ("sub", Json.UuidText(c.sub)), ("role", Roles.Encode(c.role)), ("exp", Json.Integer(c.exp));
    var iat := if c.iat.Some? then [("iat", Json.Integer(c.iat.value))] else [];
    var permissions := if c.permissions.Some? then [("permissions", PermissionSerde.Serialize(c.permissions.value))] else [];
    var optional := iat + permissions;
    assert Encode(c).fields == [sub] + ([role] + ([exp] + optional)) by {
      assert [sub, role, exp] == [sub] + ([role] + [exp]);
    }
    Json.FieldCons(sub, [role] + ([exp] + optional), key);
    Json.FieldCons(role, [exp] + optional, key);
    Json.FieldCons(exp, optional, key);
    Json.FieldAppend(iat, permissions, key);
    if c.iat.Some? {
      Json.FieldCons(iat[0], [], key);
      assert iat == [iat[0]] + [];
    }
    if c.permissions.Some? {
      Json.FieldCons(permissions[0], [], key);
      assert permissions == [permissions[0]] + [];
    }
  }

  /** An optional field: absent or `null` is `None`. */
  function DecodeOptional<T>(v: Option<Json.Value>, decode: Json.Value -> Option<T>): (r: Option<Option<T>>)
    ensures v.None? ==> r == Some(None)
    ensures v == Some(Json.Null) ==> r == Some(None)
    ensures v.Some? && v.value != Json.Null ==> (r.Some? <==> decode(v.value).Some?)
    ensures v.Some? && v.value != Json.Null && r.Some? ==> r.value == decode(v.value)
  {
    match v
    case None => Some(None)
    case Some(Null) => Some(None)
    case Some(x) =>
      match decode(x)
      case Some(t) => Some(Some(t))
      case None => None
  }

  function DecodeUuid(v: Json.Value): Option<Uuid> {
    if v.UuidText? then Some(v.id) else None
  }

  function DecodeRole(v: Json.Value): Option<Roles.UserRole> {
    match Roles.Decode(v)
    case Ok(r) => Some(r)
    case Err(_) => None
  }

  function DecodePermissions(v: Json.Value): Option<PermissionSet> {
    match PermissionSerde.Deserialize(v)
    case Ok(p) => Some(p)
    case Err(_) => None
  }

  /** The first key of `keys` that occurs more than once. */
  function FirstDuplicate(fields: seq<(string, Json.Value)>, keys: seq<string>): (r: Option<string>)
    ensures r.None? <==> forall i :: 0 <= i < |keys| ==> Json.Count(fields, keys[i]) <= 1
    ensures r.Some? ==> r.value in keys && Json.Count(fields, r.value) > 1
  {
    if |keys| == 0 then None
    else if Json.Count(fields, keys[0]) > 1 then Some(keys[0])
    else
      var r := FirstDuplicate(fields, keys[1..]);
      assert forall i :: 0 < i < |keys| ==> keys[i] == keys[1..][i - 1];
      r
  }

  /** The derived decoder's map form. Unknown keys are ignored; a known key
      given twice is an error; `sub`, `role` and `exp` must be present and
      well formed; `iat` and `permissions` default to `None` when absent or
      `null`. */
  function DecodeObject(fields: seq<(string, Json.Value)>): (r: Result<Claims, ClaimsError>)
    ensures Json.Field(fields, "sub").None? && FirstDuplicate(fields, KEYS).None? ==> r == Err(MissingField("sub"))
    ensures r.Ok? ==> Json.Field(fields, "sub") == Some(Json.UuidText(r.value.sub))
    ensures r.Ok? ==> Json.Field(fields, "role").Some? && Roles.Decode(Json.Field(fields, "role").value) == Ok(r.value.role)
    ensures r.Ok? ==> Json.Field(fields, "exp") == Some(Json.Integer(r.value.exp))
    ensures r.Ok? ==> (r.value.iat.None? <==> Json.Field(fields, "iat") in {None, Some(Json.Null)})
    ensures r.Ok? ==> (r.value.permissions.None? <==> Json.Field(fields, "permissions") in {None, Some(Json.Null)})
    ensures r.Ok? && r.value.iat.Some? ==> Json.Field(fields, "iat") == Some(Json.Integer(r.value.iat.value))
    ensures r.Ok? && r.value.permissions.Some? ==>
      Json.Field(fields, "permissions").Some? && PermissionSerde.Deserialize(Json.Field(fields, "permissions").value) == Ok(r.value.permissions.value)
    ensures FirstDuplicate(fields, KEYS).Some? ==> r == Err(DuplicateField(FirstDuplicate(fields, KEYS).value))
    ensures r.Ok? <==>
      && FirstDuplicate(fields, KEYS).None?
      && Json.Field(fields, "sub").Some? && Json.Field(fields, "role").Some? && Json.Field(fields, "exp").Some?
      && ValuesReadable(Json.Field(fields, "sub").value, Json.Field(fields, "role").value, Json.Field(fields, "exp").value,
                        Json.Field(fields, "iat"), Json.Field(fields, "permissions"))
  {
    match FirstDuplicate(fields, KEYS)
    case Some(k) => Err(DuplicateField(k))
    case None =>
      match Json.Field(fields, "sub")
      case None => Err(MissingField("sub"))
      case Some(subValue) =>
        match Json.Field(fields, "role")
        case None => Err(MissingField("role"))
        case Some(roleValue) =>
          match Json.Field(fields, "exp")
          case None => Err(MissingField("exp"))
          case Some(expValue) =>
            DecodeValues(subValue, roleValue, expValue, Json.Field(fields, "iat"), Json.Field(fields, "permissions"))
  }

  /** The element at `i`, if the array is that long. */
  function Element(items: seq<Json.Value>, i: nat): Option<Json.Value> {
    if i < |items| then Some(items[i]) else None
  }

  /** The derived decoder's sequence form: the fields in declaration order,
      the three required ones always, the two defaulted ones only if the
      array is long enough; a longer array is refused. */
  function DecodeArray(items: seq<Json.Value>): (r: Result<Claims, ClaimsError>)
    ensures |items| < 3 || |items| > 5 ==> r == Err(InvalidLength(|items|))
    ensures r.Ok? ==> items[0] == Json.UuidText(r.value.sub) && Roles.Decode(items[1]) == Ok(r.value.role)
    ensures r.Ok? ==> items[2] == Json.Integer(r.value.exp)
    ensures r.Ok? ==> (r.value.iat.None? <==> |items| < 4 || items[3] == Json.Null)
    ensures r.Ok? ==> (r.value.permissions.None? <==> |items| < 5 || items[4] == Json.Null)
    ensures r.Ok? && r.value.iat.Some? ==> |items| >= 4 && items[3] == Json.Integer(r.value.iat.value)
    ensures r.Ok? && r.value.permissions.Some? ==>
      |items| == 5 && PermissionSerde.Deserialize(items[4]) == Ok(r.value.permissions.value)
    ensures r.Ok? <==> 3 <= |items| <= 5 && ValuesReadable(items[0], items[1], items[2], Element(items, 3), Element(items, 4))
  {
    if |items| < 3 || |items| > 5 then Err(InvalidLength(|items|))
    else DecodeValues(items[0], items[1], items[2], Element(items, 3), Element(items, 4))
  }

  /** The five field values, however they were found, read into claims. */
  function DecodeValues(subValue: Json.Value, roleValue: Json.Value, expValue: Json.Value, iatValue: Option<Json.Value>, permissionsValue: Option<Json.Value>): (r: Result<Claims, ClaimsError>)
    ensures r.Ok? ==> subValue == Json.UuidText(r.value.sub) && Roles.Decode(roleValue) == Ok(r.value.role)
    ensures r.Ok? ==> expValue == Json.Integer(r.value.exp)
    ensures r.Ok? ==> (r.value.iat.None? <==> iatValue in {None, Some(Json.Null)})
    ensures r.Ok? ==> (r.value.permissions.None? <==> permissionsValue in {None, Some(Json.Null)})
    ensures r.Ok? && r.value.iat.Some? ==> iatValue == Some(Json.Integer(r.value.iat.value))
    ensures r.Ok? && r.value.permissions.Some? ==>
      permissionsValue.Some? && PermissionSerde.Deserialize(permissionsValue.value) == Ok(r.value.permissions.value)
    ensures r.Ok? <==> ValuesReadable(subValue, roleValue, expValue, iatValue, permissionsValue)
  {
    match (DecodeUuid(subValue), DecodeRole(roleValue), DecodeUsize(expValue))
    case (None, _, _) => Err(InvalidField("sub"))
    case (_, None, _) => Err(InvalidField("role"))
    case (_, _, None) => Err(InvalidField("exp"))
    case (Some(sub), Some(role), Some(exp)) =>
      match DecodeOptional(iatValue, DecodeUsize)
      case None => Err(InvalidField("iat"))
      case Some(iat) =>
        match DecodeOptional(permissionsValue, DecodePermissions)
        case None => Err(InvalidField("permissions"))
        case Some(permissions) => Ok(Claims(sub, role, exp, iat, permissions))
  }

  /** The derived decoder: a JSON object read by key, or a JSON array read
      by position; any other value is refused. */
  function Decode(v: Json.Value): (r: Result<Claims, ClaimsError>)
    ensures !v.Object? && !v.Array? ==> r == Err(NotAStruct)
    ensures v.Object? && Json.Field(v.fields, "sub").None? && FirstDuplicate(v.fields, KEYS).None? ==> r == Err(MissingField("sub"))
    ensures v.Object? && r.Ok? ==> Json.Field(v.fields, "sub") == Some(Json.UuidText(r.value.sub))
    ensures v.Object? && r.Ok? ==> Json.Field(v.fields, "role").Some? && Roles.Decode(Json.Field(v.fields, "role").value) == Ok(r.value.role)
    ensures v.Object? && r.Ok? ==> Json.Field(v.fields, "exp") == Some(Json.Integer(r.value.exp))
    ensures v.Object? && r.Ok? ==> (r.value.iat.None? <==> Json.Field(v.fields, "iat") in {None, Some(Json.Null)})
    ensures v.Object? && r.Ok? ==> (r.value.permissions.None? <==> Json.Field(v.fields, "permissions") in {None, Some(Json.Null)})
    ensures v.Array? && (|v.items| < 3 || |v.items| > 5) ==> r == Err(InvalidLength(|v.items|))
    ensures v.Array? && r.Ok? ==> v.items[0] == Json.UuidText(r.value.sub) && Roles.Decode(v.items[1]) == Ok(r.value.role)
    ensures v.Array? && r.Ok? ==> v.items[2] == Json.Integer(r.value.exp)
    ensures v.Array? && r.Ok? ==> (r.value.iat.None? <==> |v.items| < 4 || v.items[3] == Json.Null)
    ensures v.Array? && r.Ok? ==> (r.value.permissions.None? <==> |v.items| < 5 || v.items[4] == Json.Null)
    ensures v.Object? && r.Ok? && r.value.iat.Some? ==> Json.Field(v.fields, "iat") == Some(Json.Integer(r.value.iat.value))
    ensures v.Object? && r.Ok? && r.value.permissions.Some? ==>
      Json.Field(v.fields, "permissions").Some? && PermissionSerde.Deserialize(Json.Field(v.fields, "permissions").value) == Ok(r.value.permissions.value)
    ensures v.Array? && r.Ok? && r.value.iat.Some? ==> |v.items| >= 4 && v.items[3] == Json.Integer(r.value.iat.value)
    ensures v.Array? && r.Ok? && r.value.permissions.Some? ==>
      |v.items| == 5 && PermissionSerde.Deserialize(v.items[4]) == Ok(r.value.permissions.value)
    ensures v.Object? && FirstDuplicate(v.fields, KEYS).Some? ==> r == Err(DuplicateField(FirstDuplicate(v.fields, KEYS).value))
    ensures v.Object? ==> (r.Ok? <==>
      && FirstDuplicate(v.fields, KEYS).None?
      && Json.Field(v.fields, "sub").Some? && Json.Field(v.fields, "role").Some? && Json.Field(v.fields, "exp").Some?
      && ValuesReadable(Json.Field(v.fields, "sub").value, Json.Field(v.fields, "role").value, Json.Field(v.fields, "exp").value,
                        Json.Field(v.fields, "iat"), Json.Field(v.fields, "permissions")))
    ensures v.Array? ==> (r.Ok? <==> 3 <= |v.items| <= 5 && ValuesReadable(v.items[0], v.items[1], v.items[2], Element(v.items, 3), Element(v.items, 4)))
  {
    match v
    case Object(fields) => DecodeObject(fields)
    case Array(items) => DecodeArray(items)
    case _ => Err(NotAStruct)
  }

  /** The values the encoder writes read back as the claims they came
      from. */
  lemma WrittenValuesDecode(c: Claims)
    ensures DecodeValues(Json.UuidText(c.sub), Roles.Encode(c.role), Json.Integer(c.exp), Written(c, "iat"), Written(c, "permissions")) == Ok(c)
  {
    Roles.RoleRoundTrip(c.role);
    if c.permissions.Some? {
      PermissionSerde.SerializeRoundTrip(c.permissions.value);
    }
    assert DecodeRole(Roles.Encode(c.role)) == Some(c.role);
    assert DecodeOptional(Written(c, "iat"), DecodeUsize) == Some(c.iat);
    assert DecodeOptional(Written(c, "permissions"), DecodePermissions) == Some(c.permissions);
  }

  /** Every set of claims survives a trip through JSON. */
  lemma ClaimsRoundTrip(c: Claims)
    ensures Decode(Encode(c)) == Ok(c)
  {
    var fields := Encode(c).fields;
    EncodedFields(c, "sub");
    EncodedFields(c, "role");
    EncodedFields(c, "exp");
    EncodedFields(c, "iat");
    EncodedFields(c, "permissions");
    assert FirstDuplicate(fields, KEYS).None?;
    WrittenValuesDecode(c);
  }

  /** The sequence form: `[sub, role, exp]` decodes like the object with
      those three keys. */
  lemma ArrayFormExamples(sub: Uuid)
    ensures Decode(Json.Array([Json.UuidText(sub), Json.Str("admin"), Json.Integer(1700000000)])) == Ok(New(sub, Roles.UserRole.Admin, 1700000000))
  {
    Roles.RoleRoundTrip(Roles.UserRole.Admin);
    assert DecodeRole(Json.Str("admin")) == Some(Roles.UserRole.Admin);
    assert DecodeValues(Json.UuidText(sub), Json.Str("admin"), Json.Integer(1700000000), None, None) == Ok(New(sub, Roles.UserRole.Admin, 1700000000));
  }

  /** `iat` and `permissions` may follow, in that order. */
  lemma ArrayFormOptionalFields(sub: Uuid)
    ensures Decode(Json.Array([Json.UuidText(sub), Json.Str("user"), Json.Integer(1700000000), Json.Null, Json.Integer(1)])) == Ok(WithPermissions(sub, Roles.UserRole.User, 1700000000, READ))
  {
    Roles.RoleRoundTrip(Roles.UserRole.User);
    assert DecodeRole(Json.Str("user")) == Some(Roles.UserRole.User);
    assert DecodePermissions(Json.Integer(1)) == Some(READ) by {
      PermissionSerde.SerializeRoundTrip(READ);
    }
    assert DecodeValues(Json.UuidText(sub), Json.Str("user"), Json.Integer(1700000000), Some(Json.Null), Some(Json.Integer(1))) == Ok(WithPermissions(sub, Roles.UserRole.User, 1700000000, READ));
  }

  /** An array of two values, or of six, is refused for its length. */
  lemma ArrayFormLengths(sub: Uuid)
    ensures Decode(Json.Array([Json.UuidText(sub), Json.Str("user")])) == Err(InvalidLength(2))
    ensures Decode(Json.Array([Json.UuidText(sub), Json.Str("user"), Json.Integer(0), Json.Null, Json.Null, Json.Null])) == Err(InvalidLength(6))
  {
  }
}
