# revelation_user authorization core in Dafny

This project models the authorization core of the `revelation_user` Rust crate and proves properties of that model.

The core is a capability-flag permission set: a 32-bit word with twelve named bits, `READ = 0x1` through `PREMIUM = 0x800`. The model covers:

- the set's constructors, tests and numeric or string decoder, and its display;
- the `Role` trait's derived checks;
- the standard three-level role (`user`, `premium`, `admin`) and its permission table;
- the JWT claims record, whose effective permissions are an optional override that replaces the role's set;
- the small validators around them: the E.164 phone pattern, the bind and create request rules, the profile update rules, the Telegram chat id classification, and the gender names.

Modules follow the crate's files:

| module | file | source |
|---|---|---|
| `Results` | results.dfy | `Option`, `Result` and the integer widths the crate uses |
| `Text` | text.dfy | Rust's `trim`, `to_lowercase`, `split` and `join`, and digit strings |
| `Bits` | bits.dfy | bitwise operations on natural numbers, defined bit by bit |
| `Json` | json.dfy | the JSON values the serde derives read and write |
| `Permissions` | permissions.dfy | `src/permissions.rs`: the flags and their set algebra |
| `PermissionSerde` | permission_serde.dfy | `src/permissions.rs`: `parse_permissions`, `Display`, the serde visitor |
| `Capabilities` | capability.dfy | `src/permissions.rs`: the `Role` trait's default methods |
| `Roles` | role.dfy | `src/role.rs` |
| `TokenClaims` | claims.dfy | `src/entity/claims.rs` |
| `PhoneNumbers` | phone.dfy | `PHONE_REGEX` in `src/lib.rs` |
| `BindRequests` | bind.dfy | `src/dto/bind.rs` |
| `CreateRequests` | create.dfy | `src/dto/create.rs` |
| `UpdateRequests` | update.dfy | `src/dto/update.rs` |
| `Notifications` | notification.dfy | `src/notification.rs` |
| `Genders` | gender.dfy | `src/gender.rs` |

A permission set is a natural number below `0x1000`. The crate's safe API never builds a set with other bits, because `from_bits` refuses them and `from_bits_truncate` drops them. `Has(p, f)` reads the bit of flag `f`. Union and intersection are defined bit by bit, and every set operation is specified by which flags its result holds.

## Model

| member | source | states |
|---|---|---|
| Permissions.Position | src/permissions.rs:191-257 | each flag's bit lies below bit 12, and the bit order is the order the flags are declared in |
| Permissions.BitHoldsOnlyItself | src/permissions.rs:191-257 | each named constant holds its own flag and no other |
| Permissions.NoFlagIsEmpty | src/permissions.rs:416-418 | a set holds no flag exactly when its word is zero |
| Permissions.Empty | src/permissions.rs:333-334 | the empty set holds no flag |
| Permissions.All | src/permissions.rs:658-661 | `all()` holds every flag |
| Permissions.Union | src/permissions.rs:633-638 | `a \| b` holds a flag exactly when `a` or `b` holds it |
| Permissions.Intersection | src/permissions.rs:633-638 | `a & b` holds a flag exactly when both hold it |
| Permissions.Contains | src/permissions.rs:633-638 | `a.contains(b)` holds exactly when every flag of `b` is in `a` |
| Permissions.Intersects | src/permissions.rs:607-609 | `a.intersects(b)` holds exactly when some flag is in both |
| Permissions.Satisfies | src/permissions.rs:378-380 | `satisfies` holds exactly when every required flag is held, which is `contains` |
| Permissions.IsNone | src/permissions.rs:416-418 | `is_none` holds exactly when no flag is held |
| Permissions.FromBitsChecked | src/permissions.rs:400-402 | a word is accepted exactly when bits 12 to 31 are clear, and then the set is that word |
| Permissions.FromBitsTruncating | src/permissions.rs:454-456 | the result holds exactly the named flags of the word, and a word below `0x1000` is kept as it is |
| Permissions.TruncateKeepsNamedBits | src/permissions.rs:454-456 | masking with `0xFFF` keeps bits 0 to 11 of the word and clears the rest |
| Permissions.AsU32 | src/permissions.rs:434-436 | the raw word holds the same flags as the set |
| Permissions.AsU32RoundTrip | src/permissions.rs:434-436 | both constructors give back the set from its raw word |
| Permissions.TruncatingIdempotent | src/permissions.rs:454-456 | truncating twice is truncating once, and the two constructors agree where the strict one accepts |
| Permissions.ConstructorExamples | src/permissions.rs:649-661 | `0x3` is `READ \| WRITE`, `0xFFFF_0000` and `0xFFFF_FFFF` are refused, and truncating `0xFFFF_FFFF` gives `all()` |
| Permissions.PresetFlags | src/permissions.rs:264-273 | `VIEWER`, `EDITOR` and `MANAGER` hold exactly their listed flags |
| Permissions.Default | src/permissions.rs:459-467 | the default set holds `READ` and nothing else |
| Permissions.ContainsReflexive | src/permissions.rs:378-380 | every set contains itself and the empty set, and only the empty set is contained in the empty set |
| Permissions.ContainsExamples | src/permissions.rs:633-646 | `READ \| WRITE` contains `READ` and `WRITE` but not `DELETE`, and adding `DELETE` satisfies `READ` but not `ADMIN` |
| Text.Trim | src/permissions.rs:336-337 | the result is the input without leading and trailing white space, and is empty exactly when the input is all white space |
| Text.TrimPadded | src/permissions.rs:336-337 | white space added before and after a word that neither starts nor ends with white space is exactly what trimming removes, so the trimmed result is that word |
| Text.ToLower | src/permissions.rs:336-337 | the result has the input's length, each character is the lower-case form of the one at the same place, no upper-case letter is left, and a string without one is unchanged |
| Text.Split | src/permissions.rs:336-337 | `split` yields at least one piece, and no piece holds a separator |
| Text.SplitRejoins | src/permissions.rs:336-337 | `split` loses nothing: there is one piece more than there are separators, and putting the separators back between the pieces, in order, gives the input |
| Text.SplitJoin | src/permissions.rs:336-337 | splitting a joined list of separator-free pieces gives the pieces back |
| PermissionSerde.NameInjective | src/permissions.rs:338-350 | two flags have the same name exactly when they are the same flag |
| PermissionSerde.Name | src/permissions.rs:339-351 | each flag's lower-case name, the word the parser and the display use for it; NameInjective and FlagNamedName show each name picks out its own flag |
| PermissionSerde.FlagNamed | src/permissions.rs:338-350 | a name lookup succeeds only for a flag's name, and fails exactly when no flag has that name |
| PermissionSerde.ParseTokens | src/permissions.rs:333-358 | parsing succeeds exactly when every token is a name or empty; the set then holds exactly the named flags; otherwise the error names the first unknown token |
| PermissionSerde.ParsePermissions | src/permissions.rs:333-358 | the parser splits on `,` and `\|`, trims and lower-cases each piece, and succeeds exactly when every piece is a name or empty, with the named flags as the result |
| PermissionSerde.ParseNames | src/permissions.rs:333-358 | any list of flag names parses to the set of those flags |
| PermissionSerde.ParseJoinedPieces | src/permissions.rs:333-358 | pieces joined by one separator, each normalizing to a flag's name, parse to the set of those flags |
| PermissionSerde.UpperPaddedName | src/permissions.rs:336-337 | a flag's name in upper case, with white space around it, normalizes to the name |
| PermissionSerde.ParsePair | src/permissions.rs:719-722 | `"<f>, <g>"` parses to the set of `f` and `g` |
| PermissionSerde.ParseEmptyString | src/permissions.rs:758-761 | the empty string parses to the empty set |
| PermissionSerde.ParseUnknownName | src/permissions.rs:764-767 | `"invalid_perm"` fails with `unknown permission: invalid_perm` |
| PermissionSerde.FlagsOf | src/permissions.rs:469-516 | the flags listed are exactly those of the given list that the set holds, and there are no more of them than given |
| PermissionSerde.DeclarationOrderAscending | src/permissions.rs:476-510 | the order the display tests the flags in lists every flag once, in ascending bit order |
| PermissionSerde.FlagsOfAscending | src/permissions.rs:476-510 | keeping the held flags of a list in ascending bit order leaves them in ascending bit order |
| PermissionSerde.AscendingUnique | src/permissions.rs:476-510 | two lists in ascending bit order that hold the same flags are the same list |
| PermissionSerde.Display | src/permissions.rs:469-516 | the display is `"none"` exactly when the set is empty |
| PermissionSerde.DisplayInOrder | src/permissions.rs:476-512 | a non-empty set displays as the names of its flags in ascending bit order, which is declaration order, joined by `", "`; any list of exactly its flags in that order gives the display |
| PermissionSerde.DisplaySplits | src/permissions.rs:469-516 | splitting a non-empty set's display gives the names of its flags in declaration order |
| PermissionSerde.DisplayParseRoundTrip | src/permissions.rs:469-516 | parsing the display of a non-empty set gives back the set |
| PermissionSerde.DisplayEmptyNotParsed | src/permissions.rs:472-474 | the empty set displays as `"none"`, which the parser refuses as an unknown permission |
| PermissionSerde.DisplaySingle | src/permissions.rs:686-690 | a one-flag set displays as that flag's name |
| PermissionSerde.DisplayPair | src/permissions.rs:692-696 | a two-flag set displays as the two names in declaration order, joined by `", "` |
| Bits.TruncateToU32 | src/permissions.rs:306 | `value as u32`: bit `i` of the result is bit `i` of the value for `i` below 32 and clear above, so the result is the value modulo 2^32, and a value that fits is unchanged |
| PermissionSerde.VisitU64AsWritten | src/permissions.rs:302-308 | the visitor as written keeps the low 32 bits, then accepts exactly the words below `0x1000` |
| PermissionSerde.VisitU64WrapsAround | src/permissions.rs:302-308 | `4294967297` decodes to `READ` as written, and is refused by the corrected visitor |
| PermissionSerde.VisitU64 | src/permissions.rs:302-308 | the corrected visitor accepts exactly the values below `0x1000` and keeps them; anything else gives the invalid-bits error |
| PermissionSerde.VisitU64AgreesBelowTwoToThe32 | src/permissions.rs:302-308 | the two visitors differ exactly on values of `2^32` or more whose low 32 bits are a set |
| PermissionSerde.VisitI64 | src/permissions.rs:310-318 | a negative value is refused with the negative-permissions message; any other value goes to `visit_u64` as written, so it is accepted exactly when its low 32 bits are below `0x1000`, and decodes to those bits |
| PermissionSerde.VisitI64Intended | src/permissions.rs:310-318 | with the corrected `visit_u64`, a non-negative value is accepted exactly below `0x1000` and kept as it is |
| PermissionSerde.VisitStr | src/permissions.rs:320-325 | a string decodes exactly as `parse_permissions` parses it, with its error carried as a custom error |
| PermissionSerde.Deserialize | src/permissions.rs:287-330 | the decoder as written: an integer from 0 to `u64::MAX` is accepted exactly when its low 32 bits are below `0x1000`, and decodes to those bits; a negative `i64` is refused as negative; a wider integer, and any value that is neither an integer nor a string, is a type error; a string is parsed |
| PermissionSerde.DeserializeIntended | src/permissions.rs:287-330 | the corrected decoder: a non-negative integer is accepted exactly below `0x1000` and kept; the other cases are as written |
| PermissionSerde.DeserializeWrapsAround | src/permissions.rs:302-308 | `4294967297` decodes to `READ` as written and is refused by the corrected decoder |
| PermissionSerde.DeserializeAgreement | src/permissions.rs:287-330 | the two decoders give different answers exactly on integers from `2^32` to `u64::MAX` whose low 32 bits are a set |
| PermissionSerde.Serialize | src/permissions.rs:278-285 | a set is written as an integer below `0x1000` |
| PermissionSerde.SerializeRoundTrip | src/permissions.rs:731-736 | decoding what is written gives back the set |
| PermissionSerde.DeserializeExamples | src/permissions.rs:770-786 | `3` gives `READ \| WRITE`, `-1` and `-42` are refused as negative (also through `visit_i64`), `4294967295` is refused, and a boolean is a type error |
| Capabilities.RoleCapability.Can | src/permissions.rs:575-577 | `can(p)` holds exactly when every flag of `p` is held |
| Capabilities.RoleCapability.CanAll | src/permissions.rs:591-593 | `can_all(p)` holds exactly when every flag of `p` is held |
| Capabilities.RoleCapability.CanAny | src/permissions.rs:607-609 | `can_any(p)` holds exactly when some flag of `p` is held |
| Capabilities.RoleCapability.IsAdmin | src/permissions.rs:615-617 | `is_admin` holds exactly when the `ADMIN` flag is held |
| Capabilities.RoleCapability.IsPremium | src/permissions.rs:623-625 | `is_premium` holds exactly when the `PREMIUM` flag is held |
| Capabilities.DerivedChecksAgree | src/permissions.rs:575-625 | `can_all` is `can`, `is_admin` is `can(ADMIN)`, `is_premium` is `can(PREMIUM)`, and for one flag `can` and `can_any` agree |
| Capabilities.CapabilityMonotone | src/permissions.rs:575-625 | a role whose set contains another's passes every check the other passes |
| Capabilities.SingleFlagCapability | src/permissions.rs:575-609 | checking one flag with `can` or `can_any` is asking whether it is held |
| Capabilities.PairCapability | src/permissions.rs:591-609 | for two flags, `can_all` needs both and `can_any` needs either |
| Roles.AsStr | src/role.rs:209-215 | every role has a non-empty name |
| Roles.AsStrInjective | src/role.rs:209-215 | two roles have the same name exactly when they are the same role |
| Roles.IsAdmin | src/role.rs:157-159 | `is_admin` holds exactly for the role whose table entry has `ADMIN` |
| Roles.IsPremium | src/role.rs:175-177 | `is_premium` holds exactly for the roles whose table entry has `PREMIUM` |
| Roles.IsUser | src/role.rs:193-195 | `is_user` holds exactly for the role whose table entry lacks `PREMIUM` |
| Roles.RolePermissions | src/role.rs:249-261 | `user` holds exactly `READ` and `API_ACCESS`, `premium` exactly `READ`, `WRITE`, `API_ACCESS`, `PREMIUM` and `EXPORT`, and `admin` every flag |
| Roles.RoleWordsAreTheUnions | src/role.rs:249-261 | the `user` and `premium` sets are the unions the table writes |
| Roles.Capability | src/role.rs:248-266 | the role seen through the `Role` trait has the role's table entry as its set and `as_str` as its name |
| Roles.Hierarchy | src/role.rs:11-19 | `admin` strictly contains `premium`, which strictly contains `user` |
| Roles.HigherRoleCanMore | src/role.rs:11-19 | every `can` or `can_any` check a lower role passes, a higher role passes too |
| Roles.InherentChecksMatchTrait | src/role.rs:157-195 | the inherent `is_admin` and `is_premium` agree with the trait's flag checks, and `is_user` holds exactly for roles without `PREMIUM` |
| Roles.DefaultIsLeastPrivileged | src/role.rs:128-129 | the default role is `user`, and every role's set contains the default's |
| Roles.UserExamples | src/role.rs:342-349 | `user` can `READ` and `API_ACCESS` |
| Roles.UserLimits | src/role.rs:342-349 | `user` cannot `WRITE` or `DELETE` |
| Roles.UserPairExamples | src/role.rs:373-386 | `user` fails `can_all(READ \| WRITE)` and passes `can_any(ADMIN \| READ)` |
| Roles.PremiumExamples | src/role.rs:351-359 | `premium` can `READ \| WRITE`, `PREMIUM` and `EXPORT`, but not `ADMIN` |
| Roles.AdminExamples | src/role.rs:361-364 | `admin` passes `can_all(all())` and `can(MANAGE_USERS)` |
| Roles.Encode | src/role.rs:116-117 | a role is written as the JSON string of its name |
| Roles.Decode | src/role.rs:116-117 | decoding succeeds exactly on a role's name, written as a string or as a one-entry object from the name to `null`, and gives that role; another string is an unknown variant; null, booleans, numbers and arrays are refused as not an enum |
| Roles.RoleRoundTrip | src/role.rs:291-314 | every role survives a trip through JSON, in either form |
| Roles.SerdeExamples | src/role.rs:291-314 | the three names as written, `"admin"` and `{"admin": null}` read back as `admin`, `"root"` and `{"root": null}` refused as an unknown variant, and `{"admin": 1}` refused |
| TokenClaims.New | src/entity/claims.rs:171-179 | `new` copies its arguments and leaves `iat` and `permissions` absent |
| TokenClaims.WithIat | src/entity/claims.rs:204-212 | `with_iat` sets `iat` and leaves `permissions` absent |
| TokenClaims.WithPermissions | src/entity/claims.rs:243-256 | `with_permissions` sets the override and leaves `iat` absent |
| TokenClaims.ConstructorsExtendNew | src/entity/claims.rs:171-256 | each extra constructor is `new` with one more field set, and so differs from it |
| TokenClaims.UserId | src/entity/claims.rs:275-277 | `user_id` is the subject |
| TokenClaims.UserIdIsSubject | src/entity/claims.rs:465-470 | every constructor's claims report the subject it was given |
| TokenClaims.Now | src/entity/claims.rs:306-309 | the time `is_expired` reads is the clock's whole seconds, or 0 for a clock before the epoch |
| TokenClaims.IsExpiredAt | src/entity/claims.rs:303-312 | claims are expired exactly when `exp` is strictly before `now` |
| TokenClaims.IsExpired | src/entity/claims.rs:303-312 | claims are expired exactly when the clock's time is strictly after `exp` |
| TokenClaims.ExpiryFacts | src/entity/claims.rs:303-312 | expiry is monotone in time; nothing is expired at its own `exp`; `exp = 0` expires at any positive time; `usize::MAX` never expires; a pre-epoch clock expires nothing |
| TokenClaims.IsAdmin | src/entity/claims.rs:331-333 | `is_admin` holds exactly when the role's own table entry has `ADMIN`, whatever the override |
| TokenClaims.IsPremium | src/entity/claims.rs:354-356 | `is_premium` holds exactly when the role's own table entry has `PREMIUM`, whatever the override |
| TokenClaims.EffectivePermissions | src/entity/claims.rs:386-388 | the effective set is the override when there is one, and otherwise the role's table entry; the two are never merged |
| TokenClaims.Can | src/entity/claims.rs:407-409 | `can(p)` holds exactly when every flag of `p` is effective |
| TokenClaims.CanAll | src/entity/claims.rs:427-429 | `can_all(p)` holds exactly when every flag of `p` is effective |
| TokenClaims.CanAny | src/entity/claims.rs:444-446 | `can_any(p)` holds exactly when some flag of `p` is effective |
| TokenClaims.ChecksAreCapabilityChecks | src/entity/claims.rs:407-446 | the claims checks are the trait's checks on the effective set, and without an override they are the role's checks |
| TokenClaims.RoleChecksMatchWithoutOverride | src/entity/claims.rs:331-356 | without a permission override, the claims are an administrator's exactly when they can do ADMIN, and premium exactly when they can do PREMIUM, `can` being membership in the effective set (src/entity/claims.rs:407-409) |
| TokenClaims.OverrideReplacesRole | src/entity/claims.rs:386-388 | with an override present, changing the role changes neither the effective set nor any `can` or `can_any` check, while dropping the override leaves `is_admin` and `is_premium` as they were |
| TokenClaims.CanFlag | src/entity/claims.rs:407-409 | checking one flag asks whether it is effective |
| TokenClaims.OverrideNarrowsAdmin | src/entity/claims.rs:524-535 | an `admin` with override `READ \| EXPORT` can read but not delete, and still reports `is_admin` |
| TokenClaims.OverrideWidensUser | src/entity/claims.rs:331-356 | a `user` with override `ADMIN` can `ADMIN` but does not report `is_admin` |
| TokenClaims.DecodeUsize | src/entity/claims.rs:124 | an `exp` or `iat` value is accepted exactly when it is an integer from 0 to `usize::MAX` |
| TokenClaims.Encode | src/entity/claims.rs:109-140 | claims are written as an object with three to five fields |
| TokenClaims.EncodedFields | src/entity/claims.rs:129-139 | `sub`, `role` and `exp` are always written once; `iat` and `permissions` are written once when present and left out when absent |
| TokenClaims.DecodeOptional | src/entity/claims.rs:129-139 | a missing or null optional field reads as absent, and any other value must decode |
| TokenClaims.FirstDuplicate | src/entity/claims.rs:109-140 | a duplicate is reported exactly when some known key occurs twice |
| TokenClaims.DecodeValues | src/entity/claims.rs:109-140 | the values are accepted exactly when each is of its field's kind (a UUID, a role, a `usize`, and for `iat` and `permissions` missing, null, a `usize` or a permission word); decoded claims hold the given `sub`, a `role` the role decoder reads as theirs and the given `exp`; an optional field is absent exactly when its value is missing or null, and a present one is the value given, read as `usize` or by the permission decoder |
| TokenClaims.DecodeObject | src/entity/claims.rs:109-140 | from an object: it is accepted exactly when no known key is doubled, `sub`, `role` and `exp` are present and every entry is of its field's kind; a doubled known key is reported as such; the fields are its entries, an optional field is absent exactly when its key is missing or null and otherwise holds that entry's value; a missing `sub` is reported when no key is doubled |
| TokenClaims.DecodeArray | src/entity/claims.rs:109-140 | from an array: it is accepted exactly when it has three to five values, each of the kind of the field at its position in declaration order; any other length is refused; an optional field is absent exactly when the array stops before it or holds null there, and otherwise holds the value at its position |
| TokenClaims.Decode | src/entity/claims.rs:109-140 | an object is read by key and an array by position, with the acceptance condition and the field values of each form; any other value is refused as not a struct |
| TokenClaims.WrittenValuesDecode | src/entity/claims.rs:109-140 | the values the encoder writes read back as the claims they came from |
| TokenClaims.ArrayFormExamples | src/entity/claims.rs:109-124 | `[sub, "admin", 1700000000]` decodes to `new(sub, admin, 1700000000)` |
| TokenClaims.ArrayFormOptionalFields | src/entity/claims.rs:124-139 | `[sub, "user", 1700000000, null, 1]` decodes to claims with no `iat` and the override `READ` |
| TokenClaims.ArrayFormLengths | src/entity/claims.rs:109-140 | arrays of two and of six values are refused for their length |
| TokenClaims.ClaimsRoundTrip | src/entity/claims.rs:493-581 | every claim survives a trip through JSON |
| Json.FieldMeaning | src/entity/claims.rs:109-140 | a key lookup fails exactly when no entry has the key, and otherwise returns an entry's value |
| Json.FieldAppend | src/entity/claims.rs:109-140 | looking a key up in two joined field lists finds the first list's entry first, and counts add up |
| Json.UnitVariant | src/role.rs:116-117 | serde_json's reading of a unit-only enum: a known name as a string, or as the one key of an object whose value is `null`, is accepted as that name; an unknown string or first key is an unknown variant; null, booleans, numbers and arrays are not an enum |
| Json.Deliver | src/permissions.rs:302-318 | a JSON integer reaches `visit_u64` when it is from 0 to `u64::MAX` and `visit_i64` when it is negative and fits in an `i64` |
| PhoneNumbers.Matches | src/lib.rs:214-215 | the matcher accepts exactly `+`, a digit from 1 to 9, then 9 to 14 more digits |
| PhoneNumbers.DocumentedForm | src/dto/bind.rs:155-162 | the pattern is the documented form: `+`, then 10 to 15 digits, the first of them not 0 |
| PhoneNumbers.AcceptedExamples | src/lib.rs:222-226 | `+14155551234`, `+442071234567` and `+79991234567` are accepted |
| PhoneNumbers.RefusedExamples | src/lib.rs:229-234 | a number without `+`, a short one, one with a leading zero and `not a phone` are refused |
| BindRequests.ValidTelegram | src/dto/bind.rs:76-77 | a bind request is valid exactly when its Telegram id is at least 1 |
| BindRequests.ValidTelegramIsUserChat | src/dto/bind.rs:76-77 | a valid Telegram id is exactly the id of a private chat |
| BindRequests.TelegramExamples | src/dto/bind.rs:172-194 | ids `1` and `123456789` pass; `0` and `-1` fail |
| BindRequests.ValidPhone | src/dto/bind.rs:163-164 | the phone rule is the E.164 pattern; ValidatePhone runs it |
| BindRequests.ValidatePhone | src/dto/bind.rs:163-164 | a bind request is valid exactly when the phone matches the E.164 pattern, and a valid phone has 11 to 16 characters |
| BindRequests.PhoneExamples | src/dto/bind.rs:222-267 | the three sample numbers pass; the number without `+`, the short one and the one with a leading zero fail |
| CreateRequests.Telegram | src/dto/create.rs:116-123 | `telegram` sets only the Telegram id |
| CreateRequests.Email | src/dto/create.rs:142-149 | `email` sets only the e-mail address |
| CreateRequests.Phone | src/dto/create.rs:167-174 | `phone` sets only the phone number |
| CreateRequests.OneContactEach | src/dto/create.rs:116-174 | each constructor sets exactly one contact, and no two constructors build the same request |
| CreateRequests.Violations | src/dto/create.rs:72-95 | a rule fails exactly for a present Telegram id below 1 or a present e-mail address the e-mail rule refuses |
| CreateRequests.Valid | src/dto/create.rs:72-95 | a request is valid when no rule fails; Violations says which rules do |
| CreateRequests.TelegramRuleMatchesBind | src/dto/create.rs:82-83 | the Telegram rule is the bind request's rule |
| CreateRequests.PhoneIsNotValidated | src/dto/create.rs:91-94 | a request made from any phone string is valid |
| CreateRequests.Examples | src/dto/create.rs:182-206 | id `0` fails, `telegram(1)` passes, and `telegram(123)` carries no e-mail address |
| UpdateRequests.IsEmpty | src/dto/update.rs:33-38 | a request is empty when no field is set; EmptyMeansNoChanges states what that means |
| UpdateRequests.EmptyMeansNoChanges | src/dto/update.rs:33-38 | the empty request is the one with no changes, and setting any one field makes a request non-empty |
| UpdateRequests.Valid | src/dto/update.rs:17-18 | a request is valid exactly when its name is absent or has 2 to 100 characters |
| UpdateRequests.EmptyIsValid | src/dto/update.rs:15-28 | the empty request is valid, and a one-character name is neither empty nor valid |
| UpdateRequests.OnlyNameMatters | src/dto/update.rs:15-28 | changing the gender, birth date or confession never changes validity |
| UpdateRequests.Examples | src/lib.rs:140-150 | the names `"J"` and `"A"` are too short and `"John"` passes |
| Notifications.New | src/notification.rs:162-166 | `new` keeps the chat id |
| Notifications.FromI64 | src/notification.rs:216-218 | the conversion from `i64` is `new` |
| Notifications.IsUser | src/notification.rs:182-184 | private chats are the positive ids; Classification states it |
| Notifications.IsGroup | src/notification.rs:200-202 | groups and channels are the negative ids; Classification states it |
| Notifications.Classification | src/notification.rs:182-202 | a recipient is a user exactly for a positive id and a group exactly for a negative one; never both; neither exactly for 0 |
| Notifications.Examples | src/notification.rs:226-249 | `123456789` is a user, `-1001234567890` a group, and the conversion keeps the id |
| Notifications.Encode | src/notification.rs:133-144 | a recipient is written as an object whose `chat_id` is the id |
| Notifications.Decode | src/notification.rs:133-144 | from an object, a missing `chat_id` is refused as missing, a badly typed first `chat_id` as invalid, and a doubled `chat_id` is refused, as a duplicate once the first value is good; a decoded recipient's id is its `chat_id`, and with one `chat_id` decoding succeeds exactly when it is a 64-bit integer; from an array, decoding succeeds exactly on one 64-bit integer, which is the id, a badly typed first element is refused as invalid, and other lengths are refused, as a wrong length when the first element is good or absent; any other value is refused |
| Notifications.ErrorOrderExamples | src/notification.rs:133-144 | a bad first `chat_id` or first element is the error reported even when a second `chat_id` or element follows, and a good one lets the duplicate key or the extra element be reported |
| Notifications.ArrayFormExamples | src/notification.rs:133-144 | `[-100123]` is the group chat `-100123`; `[]` and `[1, 2]` are refused for their length and `["1"]` for its value |
| Notifications.RoundTrip | src/notification.rs:252-257 | every recipient survives a trip through JSON |
| Genders.AsStr | src/gender.rs:114-119 | every gender has a non-empty name |
| Genders.IsMale | src/gender.rs:84-86 | `is_male` holds exactly for the gender named `male` |
| Genders.IsFemale | src/gender.rs:99-101 | `is_female` holds exactly for the gender named `female` |
| Genders.ExactlyOne | src/gender.rs:84-101 | exactly one of `is_male` and `is_female` holds |
| Genders.AsStrInjective | src/gender.rs:114-119 | two genders have the same name exactly when they are the same gender |
| Genders.Encode | src/gender.rs:59-60 | a gender is written as the JSON string of its name |
| Genders.Decode | src/gender.rs:59-60 | decoding succeeds exactly on a gender's name, written as a string or as a one-entry object from the name to `null`, and gives that gender; another string is an unknown variant; null, booleans, numbers and arrays are refused as not an enum |
| Genders.RoundTrip | src/gender.rs:132-151 | every gender survives a trip through JSON, in either form |
| Genders.SerdeExamples | src/gender.rs:132-157 | the names are `male` and `female`, they are written as those strings and read back from them, `"other"` is an unknown variant, and `{"female": null}` reads as `female` |

## Left out

- The serde and serde_json machinery is not modelled. JSON values are a small datatype. Decoders report which rule failed, not serde's message text. JSON is read as serde_json's streaming reader reads it: for an enum, the key of a map is checked before its value and before the map is known to have one entry; serde_json's reader over an already-parsed value refuses a map of several entries before looking at its keys, which changes only the error reported.
- Uuid values are 128-bit atoms. The text form of a UUID belongs to the `uuid` crate and is not modelled, so a `sub` is written as a UUID atom and not as a string.
- TokenClaims.Decode, TokenClaims.DecodeObject, TokenClaims.DecodeArray, TokenClaims.DecodeValues: the contracts state which documents are accepted and what they decode to, and name the error for a non-struct, a wrong array length, a doubled key and a missing `sub`; for other refused documents they do not say which error is reported. When several fields are wrong, the error is chosen by a fixed order (for an object: doubled keys, then `sub`, `role`, `exp`, then the optional fields; for an array: its length first). serde reports the first wrong field in document order, and meets a short array only after reading the values in it. The set of accepted documents and the decoded values are those of serde.
- Roles.Decode, Genders.Decode: a UUID value (`UuidText`) stands for a string the model does not spell out, so it is refused as not an enum where serde_json calls it an unknown variant. Both refuse it.
- Unknown keys in the claims and recipient objects are ignored, as serde's derive does. `deny_unknown_fields` is not used in the crate.
- The wall clock of `is_expired` is a parameter: `None` stands for a clock before the epoch. `usize` is taken to be 64 bits.
- The e-mail rule (`#[validate(email)]`) belongs to the `validator` crate and is not visible. It is a predicate parameter of `ValidEmail` and `Violations`.
- The default `id` of a create request comes from `Uuid::now_v7()`, which depends on the clock. It is a parameter.
- `to_lowercase` and the regex class `\d` are modelled for ASCII only. Rust's versions are Unicode-aware: a non-ASCII upper-case letter or digit behaves differently there. `trim` uses Rust's full white-space list.
- Permission literals such as `"read, write"` and `"READ | WRITE"` are covered by lemmas stated for all flags: DisplayPair, ParsePair, ParseJoinedPieces and UpperPaddedName. There is no lemma per literal string.
- The bitflags API that the crate does not call is not modelled: iteration, `from_name`, `toggle`, `remove`, `complement`, and `from_bits_retain`, the one constructor that can make words with bits above 11.
- `Role::name` for the standard role is `as_str`. This is stated through Capability; a custom `Role` implementation can choose any name.
- The request extractors, the repository ports, the builder macros in `extend.rs`, the projections and the `RUser` constructors contain no decision logic and are not modelled.
- The unused files `src/bind.rs`, `src/entity.rs`, `src/profile.rs` and `src/dto.rs` are not modelled. The crate's module tree does not reach them.

## Findings

| source | as written | input that shows it | evidently intended | confidence | as-written member | corrected member |
|---|---|---|---|---|---|---|
| src/permissions.rs:302-308 | `visit_u64` casts the value with `value as u32`, which keeps the low 32 bits, and then checks the bits strictly; `visit_i64` hands non-negative values to it, so the whole decoder wraps | `4294967297` (`2^32 + 1`) decodes to `READ`, while the error message and the test for `4294967295` show values outside the set are meant to be refused | refuse every value of `2^32` or more | not executed | PermissionSerde.Deserialize | PermissionSerde.DeserializeIntended |
