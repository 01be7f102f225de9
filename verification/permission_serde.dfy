/** How a permission set is written and read: the flag names, the name-list
    parser, the `Display` form, and the serde visitor that accepts either a
    number or a name list. */
module PermissionSerde {
  import opened Results
  import opened Text
  import opened Bits
  import opened Permissions
  import Json

  /** The lower-case name of each flag, as the parser and `Display` spell
      it. */
  function Name(f: Flag): string {
    match f
    case Read => "read"
    case Write => "write"
    case Delete => "delete"
    case Admin => "admin"
    case ManageUsers => "manage_users"
    case ManageRoles => "manage_roles"
    case Billing => "billing"
    case Audit => "audit"
    case Export => "export"
    case Import => "import"
    case ApiAccess => "api_access"
    case Premium => "premium"
  }

  /** The characters that separate names in a list. */
  const SEPARATORS: set<char> := {',', '|'}

  /** A character of a flag name: a lower-case ASCII letter or `_`. */
  predicate NameChar(c: char) {
    'a' <= c <= 'z' || c == '_'
  }

  /** Every character of `s` is a name character. */
  predicate NameWord(s: string) {
    forall i :: 0 <= i < |s| ==> NameChar(s[i])
  }

  /** A name word has no whitespace, no upper-case letter and no
      separator. */
  lemma {:induction false} NameWordShape(s: string)
    requires NameWord(s)
    ensures NoWhitespace(s) && HasNoUpper(s) && SeparatorFree(s, SEPARATORS)
  {
  }

  /** Every name is a non-empty lower-case word with no whitespace and no
      separator, and none starts with `n`. */
  lemma NameShape(f: Flag)
    ensures |Name(f)| > 0 && Name(f)[0] != 'n'
    ensures NameWord(Name(f))
    ensures NoWhitespace(Name(f)) && HasNoUpper(Name(f))
    ensures SeparatorFree(Name(f), SEPARATORS)
  {
    assert NameWord(Name(f)) by {
      match f
      case Read =>
      case Write =>
      case Delete =>
      case Admin =>
      case ManageUsers =>
      case ManageRoles =>
      case Billing =>
      case Audit =>
      case Export =>
      case Import =>
      case ApiAccess =>
      case Premium =>
    }
    NameWordShape(Name(f));
  }

  /** No two flags share a name. */
  lemma NameInjective(f: Flag, g: Flag)
    ensures Name(f) == Name(g) <==> f == g
  {
  }

  /** The flag a normalised token names, if any. */
  function FlagNamed(s: string): (r: Option<Flag>)
    ensures r.Some? ==> Name(r.value) == s
    ensures r.None? ==> forall f :: Name(f) != s
  {
    if s == "read" then Some(Read)
    else if s == "write" then Some(Write)
    else if s == "delete" then Some(Delete)
    else if s == "admin" then Some(Admin)
    else if s == "manage_users" then Some(ManageUsers)
    else if s == "manage_roles" then Some(ManageRoles)
    else if s == "billing" then Some(Billing)
    else if s == "audit" then Some(Audit)
    else if s == "export" then Some(Export)
    else if s == "import" then Some(Import)
    else if s == "api_access" then Some(ApiAccess)
    else if s == "premium" then Some(Premium)
    else None
  }

  /** A token trimmed and lower-cased. */
  function Normalize(part: string): string {
    ToLower(Trim(part))
  }

  /** Every piece of the input, normalised. */
  function Tokens(parts: seq<string>): (r: seq<string>)
    ensures |r| == |parts|
    ensures forall i :: 0 <= i < |parts| ==> r[i] == Normalize(parts[i])
  {
    seq(|parts|, i requires 0 <= i < |parts| => Normalize(parts[i]))
  }

  /** A normalised token the parser accepts: empty, or a flag name. */
  predicate Known(name: string) {
    name == "" || FlagNamed(name).Some?
  }

  /** The token at `i` is the first one the parser does not accept. */
  predicate FirstUnknownAt(tokens: seq<string>, i: int) {
    && 0 <= i < |tokens|
    && !Known(tokens[i])
    && (forall j :: 0 <= j < i ==> Known(tokens[j]))
  }

  /** The message the parser fails with. */
  function UnknownMessage(name: string): string {
    "unknown permission: " + name
  }

  /** The loop of `parse_permissions` over the normalised pieces of its
      input: empty tokens are skipped, each name adds its flag, and the
      first token that is neither stops the parse. */
  function ParseTokens(tokens: seq<string>): (r: Result<PermissionSet, string>)
    ensures r.Ok? <==> forall i :: 0 <= i < |tokens| ==> Known(tokens[i])
    ensures r.Ok? ==> forall f :: Has(r.value, f) <==> Name(f) in tokens
    ensures r.Err? ==> exists i :: FirstUnknownAt(tokens, i) && r.error == UnknownMessage(tokens[i])
  {
    if |tokens| == 0 then
      Ok(Empty())
    else
      var name := tokens[0];
      var tail := tokens[1..];
      var rest := ParseTokens(tail);
      assert tokens == [name] + tail;
      if !Known(name) then
        assert FirstUnknownAt(tokens, 0);
        Err(UnknownMessage(name))
      else if rest.Err? then
        var i :| FirstUnknownAt(tail, i) && rest.error == UnknownMessage(tail[i]);
        assert FirstUnknownAt(tokens, i + 1);
        rest
      else if name == "" then
        assert forall f :: Name(f) in tokens <==> Name(f) in tail by {
          forall f
            ensures Name(f) in tokens <==> Name(f) in tail
          {
            NameShape(f);
          }
        }
        rest
      else
        var f := FlagNamed(name).value;
        var r := Union(Bit(f), rest.value);
        assert forall g :: Has(r, g) <==> Name(g) in tokens by {
          forall g
            ensures Has(r, g) <==> Name(g) in tokens
          {
            BitHoldsOnlyItself(f, g);
            NameInjective(f, g);
          }
        }
        Ok(r)
  }

  /** `parse_permissions`: a list of names separated by `,` or `|`. */
  function ParsePermissions(s: string): (r: Result<PermissionSet, string>)
    ensures r.Ok? <==> forall t :: t in Tokens(Split(s, SEPARATORS)) ==> Known(t)
    ensures r.Ok? ==> forall f :: Has(r.value, f) <==> Name(f) in Tokens(Split(s, SEPARATORS))
  {
    ParseTokens(Tokens(Split(s, SEPARATORS)))
  }

  /** `parse_permissions` finds every flag `Display`-style names by name. */
  lemma FlagNamedName(f: Flag)
    ensures FlagNamed(Name(f)) == Some(f)
  {
  }

  /** The flags of `p` among `fs`, in the order of `fs`. */
  function FlagsOf(p: PermissionSet, fs: seq<Flag>): (r: seq<Flag>)
    ensures forall f :: f in r <==> f in fs && Has(p, f)
    ensures |r| <= |fs|
  {
    if |fs| == 0 then
      []
    else
      var rest := FlagsOf(p, fs[1..]);
      assert forall f :: f in fs <==> f == fs[0] || f in fs[1..];
      (if Has(p, fs[0]) then [fs[0]] else []) + rest
  }

  /** The name of each flag of a list. */
  function Names(fs: seq<Flag>): (r: seq<string>)
    ensures |r| == |fs|
    ensures forall i :: 0 <= i < |fs| ==> r[i] == Name(fs[i])
  {
    seq(|fs|, i requires 0 <= i < |fs| => Name(fs[i]))
  }

  /** A flag's name is in a list of names exactly when the flag is in the
      list of flags. */
  lemma {:induction false} NameInNames(f: Flag, fs: seq<Flag>)
    ensures Name(f) in Names(fs) <==> f in fs
  {
    var names := Names(fs);
    if Name(f) in names {
      var i :| 0 <= i < |names| && names[i] == Name(f);
      NameInjective(f, fs[i]);
    }
    if f in fs {
      var i :| 0 <= i < |fs| && fs[i] == f;
      assert names[i] == Name(f);
    }
  }

  /** A list of flag names parses to exactly the flags named. */
  lemma {:induction false} ParseNames(fs: seq<Flag>)
    ensures ParseTokens(Names(fs)).Ok?
    ensures forall f :: Has(ParseTokens(Names(fs)).value, f) <==> f in fs
  {
    forall i | 0 <= i < |fs|
      ensures Known(Names(fs)[i])
    {
      FlagNamedName(fs[i]);
    }
    forall f
      ensures Name(f) in Names(fs) <==> f in fs
    {
      NameInNames(f, fs);
    }
  }

  /** `Display`: `"none"` for the empty set, otherwise the names of its
      flags in declaration order, joined by `", "`. */
  function Display(p: PermissionSet): (r: string)
    ensures r == "none" <==> IsNone(p)
  {
    if IsNone(p) then
      "none"
    else
      NamesNotNone(p);
      Join(Names(FlagsOf(p, DECLARATION_ORDER)), ", ")
  }

  /** A list of flags in strictly increasing bit order, so each flag at
      most once. */
  predicate Ascending(fs: seq<Flag>) {
    forall i, j :: 0 <= i < j < |fs| ==> Position(fs[i]) < Position(fs[j])
  }

  /** The declaration order is the bit order. */
  lemma DeclarationOrderAscending()
    ensures Ascending(DECLARATION_ORDER)
    ensures forall f :: f in DECLARATION_ORDER
  {
    PositionsCovered();
    forall f
      ensures f in DECLARATION_ORDER
    {
      assert DECLARATION_ORDER[Position(f)] == f;
    }
  }

  /** Dropping the first flag of an ascending list leaves an ascending list
      holding every other flag of it. */
  lemma AscendingTail(a: seq<Flag>)
    requires Ascending(a) && |a| > 0
    ensures Ascending(a[1..])
    ensures forall f :: f in a[1..] <==> f in a && f != a[0]
  {
    forall f | f in a[1..]
      ensures f != a[0]
    {
      var k :| 0 <= k < |a[1..]| && a[1..][k] == f;
      assert a[k + 1] == f;
    }
    assert a == [a[0]] + a[1..];
  }

  /** Keeping the flags of a set preserves the order of the list. */
  lemma {:induction false} FlagsOfAscending(p: PermissionSet, fs: seq<Flag>)
    requires Ascending(fs)
    ensures Ascending(FlagsOf(p, fs))
    decreases |fs|
  {
    if |fs| > 0 {
      AscendingTail(fs);
      FlagsOfAscending(p, fs[1..]);
      var rest := FlagsOf(p, fs[1..]);
      forall k | 0 <= k < |rest|
        ensures Position(fs[0]) < Position(rest[k])
      {
        assert rest[k] in fs[1..];
        var m :| 0 <= m < |fs[1..]| && fs[1..][m] == rest[k];
        assert fs[m + 1] == rest[k];
      }
    }
  }

  /** The first flag of an ascending list has the lowest bit in it. */
  lemma AscendingHead(a: seq<Flag>, f: Flag)
    requires Ascending(a) && f in a
    ensures Position(a[0]) <= Position(f)
  {
  }

  /** A non-empty list holds its first element. */
  lemma HeadIsMember(a: seq<Flag>)
    ensures |a| > 0 ==> a[0] in a
  {
  }

  /** Two ascending lists of the same flags are the same list: the order
      fixes the list. */
  lemma {:induction false} AscendingUnique(a: seq<Flag>, b: seq<Flag>)
    requires Ascending(a) && Ascending(b)
    requires forall f :: f in a <==> f in b
    ensures a == b
    decreases |a| + |b|
  {
    if |a| == 0 || |b| == 0 {
      HeadIsMember(a);
      HeadIsMember(b);
    } else {
      AscendingHead(a, b[0]);
      AscendingHead(b, a[0]);
      AscendingTail(a);
      AscendingTail(b);
      AscendingUnique(a[1..], b[1..]);
      assert a == [a[0]] + a[1..] && b == [b[0]] + b[1..];
    }
  }

  /** `Display` of a non-empty set is the names of its flags in declaration
      order, joined by `", "`: for any list holding exactly the set's flags
      in increasing bit order, the display is that list's names joined. */
  lemma DisplayInOrder(p: PermissionSet, fs: seq<Flag>)
    requires !IsNone(p) && Ascending(fs)
    requires forall f :: f in fs <==> Has(p, f)
    ensures Display(p) == Join(Names(fs), ", ")
  {
    DeclarationOrderAscending();
    FlagsOfAscending(p, DECLARATION_ORDER);
    AscendingUnique(FlagsOf(p, DECLARATION_ORDER), fs);
  }

  /** A non-empty set has at least one flag, and the joined names start
      with the first name's first letter, which is never `n`. */
  lemma NamesNotNone(p: PermissionSet)
    requires !IsNone(p)
    ensures |FlagsOf(p, DECLARATION_ORDER)| >= 1
    ensures Join(Names(FlagsOf(p, DECLARATION_ORDER)), ", ")[0] != 'n'
  {
    var fs := FlagsOf(p, DECLARATION_ORDER);
    var names := Names(fs);
    var f :| Has(p, f);
    assert f in DECLARATION_ORDER by {
      PositionsCovered();
    }
    assert f in fs;
    NameShape(fs[0]);
    if |names| > 1 {
      assert Join(names, ", ") == names[0] + ", " + Join(names[1..], ", ");
    }
  }

  /** A name with whitespace in front of it normalises to the name. */
  lemma {:induction false} NormalizePaddedName(pad: string, f: Flag)
    requires AllWhitespace(pad)
    ensures Normalize(pad + Name(f)) == Name(f)
  {
    NameShape(f);
    assert pad + Name(f) == pad + Name(f) + "";
    TrimPadded(pad, Name(f), "");
  }

  /** Whitespace in front of a separator-free word adds no separator. */
  lemma {:induction false} PadSeparatorFree(pad: string, w: string)
    requires AllWhitespace(pad) && SeparatorFree(w, SEPARATORS)
    ensures SeparatorFree(pad + w, SEPARATORS)
  {
    var t := pad + w;
    forall i | 0 <= i < |t|
      ensures t[i] !in SEPARATORS
    {
      if i < |pad| {
        assert t[i] == pad[i] && IsWhitespace(pad[i]);
      } else {
        assert t[i] == w[i - |pad|];
      }
    }
  }

  /** A flag name with whitespace in front of it is one piece, and
      normalises back to the name. */
  lemma {:induction false} PaddedToken(pad: string, f: Flag)
    requires AllWhitespace(pad)
    ensures SeparatorFree(pad + Name(f), SEPARATORS)
    ensures Normalize(pad + Name(f)) == Name(f)
  {
    NameShape(f);
    NormalizePaddedName(pad, f);
    PadSeparatorFree(pad, Name(f));
  }

  /** Every name of a list padded with a space after each comma
      normalises back to the name. */
  lemma {:induction false} PaddedTokens(fs: seq<Flag>)
    requires |fs| >= 1
    ensures forall i :: 0 <= i < |fs| ==> SeparatorFree(PadTail(Names(fs), " ")[i], SEPARATORS)
    ensures Tokens(PadTail(Names(fs), " ")) == Names(fs)
  {
    var names := Names(fs);
    var pieces := PadTail(names, " ");
    forall i | 0 <= i < |pieces|
      ensures SeparatorFree(pieces[i], SEPARATORS)
      ensures Normalize(pieces[i]) == names[i]
    {
      if i == 0 {
        PaddedToken("", fs[i]);
        assert "" + names[i] == names[i];
      } else {
        PaddedToken(" ", fs[i]);
      }
    }
  }

  /** Splitting what `Display` prints gives back its names, each with the
      space that follows a comma. */
  lemma DisplaySplits(p: PermissionSet)
    requires !IsNone(p)
    ensures Tokens(Split(Display(p), SEPARATORS)) == Names(FlagsOf(p, DECLARATION_ORDER))
  {
    var fs := FlagsOf(p, DECLARATION_ORDER);
    var names := Names(fs);
    NamesNotNone(p);
    assert [','] + " " == ", ";
    assert Display(p) == Join(names, [','] + " ");
    JoinPadded(names, ',', " ");
    PaddedTokens(fs);
    SplitJoin(PadTail(names, " "), ',', SEPARATORS);
  }

  /** `Display` and the name-list parser are inverse on every non-empty set:
      the printed names, split at the commas and trimmed, name exactly the
      flags of the set. */
  lemma DisplayParseRoundTrip(p: PermissionSet)
    requires !IsNone(p)
    ensures ParsePermissions(Display(p)) == Ok(p)
  {
    var fs := FlagsOf(p, DECLARATION_ORDER);
    DisplaySplits(p);
    ParseNames(fs);
    var q := ParsePermissions(Display(p));
    forall f
      ensures Has(q.value, f) == Has(p, f)
    {
      assert f in DECLARATION_ORDER by {
        PositionsCovered();
      }
    }
    SameFlagsSameSet(q.value, p);
  }

  /** A non-empty name word is one piece and its own normal form. */
  lemma {:induction false} NormalizeWord(s: string)
    requires |s| > 0 && NameWord(s)
    ensures Normalize(s) == s
    ensures SeparatorFree(s, SEPARATORS)
  {
    NameWordShape(s);
    assert "" + s + "" == s;
    TrimPadded("", s, "");
  }

  /** `none` is its own normal form. */
  lemma NormalizeNone()
    ensures Normalize("none") == "none"
    ensures SeparatorFree("none", SEPARATORS)
  {
    assert NameWord("none");
    NormalizeWord("none");
  }

  /** The empty set prints as `"none"`, which the parser does not take
      back: `none` is not a flag name. */
  lemma DisplayEmptyNotParsed()
    ensures Display(Empty()) == "none"
    ensures ParsePermissions(Display(Empty())) == Err(UnknownMessage("none"))
  {
    var s := "none";
    NormalizeNone();
    SplitSinglePiece(s, SEPARATORS);
    assert Tokens([s]) == [s];
    assert FlagNamed(s) == None;
    assert ParseTokens([s]) == Err(UnknownMessage(s));
  }

  /** What the visitor tells serde it expects, quoted in type errors. */
  const EXPECTING: string := "a number or permission string"

  /** A decoding failure: a message of the visitor's own (`E::custom`), or a
      JSON value of a kind the visitor has no method for. */
  datatype DecodeError =
    | Custom(message: string)
    | InvalidType(expected: string)

  const NEGATIVE_MESSAGE: string := "permissions cannot be negative"

  function InvalidBitsMessage(value: nat): string {
    "invalid permission bits: " + Decimal(value)
  }

  /** `visit_u64` as written: the value is cast with `value as u32`, which
      keeps only its low 32 bits, and the result is checked strictly. */
  function VisitU64AsWritten(value: Uint64): (r: Result<PermissionSet, DecodeError>)
    ensures r.Ok? <==> value % TWO_TO_32 < 0x1000
    ensures r.Ok? ==> r.value == value % TWO_TO_32
    ensures r.Err? ==> r.error == Custom(InvalidBitsMessage(value))
  {
    Pow2Values();
    WordFitsIff(TruncateToU32(value), 12, 32);
    match FromBitsChecked(TruncateToU32(value))
    case Some(p) => Ok(p)
    case None => Err(Custom(InvalidBitsMessage(value)))
  }

  /** `visit_u64` as evidently intended: a value that does not fit in 32
      bits is invalid, not wrapped around. */
  function VisitU64(value: Uint64): (r: Result<PermissionSet, DecodeError>)
    ensures r.Ok? <==> value < 0x1000
    ensures r.Ok? ==> r.value == value
    ensures r.Err? ==> r.error == Custom(InvalidBitsMessage(value))
  {
    if value >= TWO_TO_32 then
      Err(Custom(InvalidBitsMessage(value)))
    else
      VisitU64AsWritten(value)
  }

  /** The wrap-around: `2^32 + 1` is not a valid word, yet the cast turns it
      into `1`, which decodes to READ; the intended visitor rejects it. */
  lemma VisitU64WrapsAround()
    ensures VisitU64AsWritten(0x1_0000_0001) == Ok(READ)
    ensures VisitU64(0x1_0000_0001) == Err(Custom(InvalidBitsMessage(0x1_0000_0001)))
  {
  }

  /** The two agree on every value that fits in 32 bits; they differ exactly
      on the larger values whose low 32 bits form a valid word. */
  lemma VisitU64AgreesBelowTwoToThe32(value: Uint64)
    ensures value < TWO_TO_32 ==> VisitU64(value) == VisitU64AsWritten(value)
    ensures VisitU64(value) != VisitU64AsWritten(value) <==> value >= TWO_TO_32 && value % TWO_TO_32 < 0x1000
  {
  }

  /** `visit_i64`: a negative value is refused before any bit is looked at;
      any other is handed to `visit_u64`, which wraps it as written. */
  function VisitI64(value: Int64): (r: Result<PermissionSet, DecodeError>)
    ensures value < 0 ==> r == Err(Custom(NEGATIVE_MESSAGE))
    ensures value >= 0 ==> (r.Ok? <==> value % TWO_TO_32 < 0x1000)
    ensures value >= 0 && r.Ok? ==> r.value == value % TWO_TO_32
  {
    if value < 0 then Err(Custom(NEGATIVE_MESSAGE)) else VisitU64AsWritten(value)
  }

  /** `visit_i64` handing over to the intended `visit_u64`. */
  function VisitI64Intended(value: Int64): (r: Result<PermissionSet, DecodeError>)
    ensures value < 0 ==> r == Err(Custom(NEGATIVE_MESSAGE))
    ensures value >= 0 ==> (r.Ok? <==> value < 0x1000)
    ensures value >= 0 && r.Ok? ==> r.value == value
  {
    if value < 0 then Err(Custom(NEGATIVE_MESSAGE)) else VisitU64(value)
  }

  /** `visit_str`: the name-list parser, its message passed through. */
  function VisitStr(value: string): (r: Result<PermissionSet, DecodeError>)
    ensures r.Ok? <==> ParsePermissions(value).Ok?
    ensures r.Ok? ==> r.value == ParsePermissions(value).value
    ensures r.Err? ==> r.error == Custom(ParsePermissions(value).error)
  {
    match ParsePermissions(value)
    case Ok(p) => Ok(p)
    case Err(m) => Err(Custom(m))
  }

  /** `Deserialize` through `deserialize_any`, as written: an integer goes
      to the visit method serde_json picks for it, a string to `visit_str`,
      and anything else, a fraction or an integer beyond 64 bits included,
      is a type error. A non-negative integer keeps its low 32 bits. */
  function Deserialize(v: Json.Value): (r: Result<PermissionSet, DecodeError>)
    ensures v.Integer? && 0 <= v.n < 0x1_0000_0000_0000_0000 ==> (r.Ok? <==> v.n % TWO_TO_32 < 0x1000)
    ensures v.Integer? && r.Ok? ==> r.value == v.n % TWO_TO_32
    ensures v.Integer? && -0x8000_0000_0000_0000 <= v.n < 0 ==> r == Err(Custom(NEGATIVE_MESSAGE))
    ensures v.Integer? && (v.n < -0x8000_0000_0000_0000 || v.n >= 0x1_0000_0000_0000_0000) ==> r == Err(InvalidType(EXPECTING))
    ensures v.Str? ==> r == VisitStr(v.s)
    ensures !v.Integer? && !v.Str? ==> r == Err(InvalidType(EXPECTING))
  {
    match v
    case Integer(n) =>
      (match Json.Deliver(n)
       case AsU64 => VisitU64AsWritten(n)
       case AsI64 => VisitI64(n)
       case AsF64 => Err(InvalidType(EXPECTING)))
    case Str(s) => VisitStr(s)
    case _ => Err(InvalidType(EXPECTING))
  }

  /** `Deserialize` with the intended visitors: an integer is a set exactly
      when it is below `0x1000`, and then it is that set. */
  function DeserializeIntended(v: Json.Value): (r: Result<PermissionSet, DecodeError>)
    ensures v.Integer? && 0 <= v.n ==> (r.Ok? <==> v.n < 0x1000)
    ensures v.Integer? && r.Ok? ==> r.value == v.n
    ensures v.Integer? && -0x8000_0000_0000_0000 <= v.n < 0 ==> r == Err(Custom(NEGATIVE_MESSAGE))
    ensures v.Str? ==> r == VisitStr(v.s)
    ensures !v.Integer? && !v.Str? ==> r == Err(InvalidType(EXPECTING))
  {
    match v
    case Integer(n) =>
      (match Json.Deliver(n)
       case AsU64 => VisitU64(n)
       case AsI64 => VisitI64Intended(n)
       case AsF64 => Err(InvalidType(EXPECTING)))
    case Str(s) => VisitStr(s)
    case _ => Err(InvalidType(EXPECTING))
  }

  /** The wrap-around reaches JSON: the integer `2^32 + 1` decodes to READ,
      where the intended decoder refuses it. */
  lemma DeserializeWrapsAround()
    ensures Deserialize(Json.Integer(0x1_0000_0001)) == Ok(READ)
    ensures DeserializeIntended(Json.Integer(0x1_0000_0001)).Err?
  {
  }

  /** The two decoders agree on every value but the integers of `2^32` or
      more, and differ on those exactly when their low 32 bits are a set. */
  lemma DeserializeAgreement(v: Json.Value)
    ensures !v.Integer? || v.n < TWO_TO_32 ==> Deserialize(v) == DeserializeIntended(v)
    ensures Deserialize(v) != DeserializeIntended(v) <==>
      v.Integer? && TWO_TO_32 <= v.n < 0x1_0000_0000_0000_0000 && v.n % TWO_TO_32 < 0x1000
  {
    if v.Integer? && 0 <= v.n < 0x1_0000_0000_0000_0000 {
      VisitU64AgreesBelowTwoToThe32(v.n);
    }
  }

  /** `Serialize`: always the word, as a JSON integer. */
  function Serialize(p: PermissionSet): (v: Json.Value)
    ensures v.Integer? && 0 <= v.n < 0x1000
  {
    Json.Integer(AsU32(p))
  }

  /** Every set survives a trip through JSON. */
  lemma SerializeRoundTrip(p: PermissionSet)
    ensures Deserialize(Serialize(p)) == Ok(p)
  {
  }

  /** Decoding examples from the crate's tests: `3` and `"read, write"` and
      `"READ | WRITE"` are READ|WRITE, `""` is the empty set, `-1` and `-42`
      are refused as negative, `4294967295` and `true` are refused. */
  lemma DeserializeExamples()
    ensures Deserialize(Json.Integer(3)) == Ok(EDITOR)
    ensures VisitI64(3) == Ok(EDITOR) && VisitI64(1) == Ok(READ) && VisitI64(0) == Ok(Empty())
    ensures VisitI64(-1) == Err(Custom(NEGATIVE_MESSAGE))
    ensures Deserialize(Json.Integer(-1)) == Err(Custom(NEGATIVE_MESSAGE))
    ensures Deserialize(Json.Integer(-42)) == Err(Custom(NEGATIVE_MESSAGE))
    ensures Deserialize(Json.Integer(4294967295)).Err?
    ensures Deserialize(Json.Bool(true)) == Err(InvalidType(EXPECTING))
  {
    PresetFlags();
  }

  /** A list none of whose flags is in `p` keeps nothing. */
  lemma {:induction false} FlagsOfNone(p: PermissionSet, fs: seq<Flag>)
    requires forall f :: f in fs ==> !Has(p, f)
    ensures FlagsOf(p, fs) == []
    decreases |fs|
  {
    if |fs| > 0 {
      assert fs[0] in fs;
      FlagsOfNone(p, fs[1..]);
    }
  }

  /** Filtering two lists is filtering each, in order. */
  lemma {:induction false} FlagsOfAppend(p: PermissionSet, a: seq<Flag>, b: seq<Flag>)
    ensures FlagsOf(p, a + b) == FlagsOf(p, a) + FlagsOf(p, b)
    decreases |a|
  {
    if |a| > 0 {
      assert (a + b)[1..] == a[1..] + b;
      FlagsOfAppend(p, a[1..], b);
    } else {
      assert a + b == b;
    }
  }

  /** Filtering a list is filtering its two halves, in order. */
  lemma {:induction false} FlagsOfSplitAt(p: PermissionSet, os: seq<Flag>, k: nat)
    requires k <= |os|
    ensures FlagsOf(p, os) == FlagsOf(p, os[..k]) + FlagsOf(p, os[k..])
  {
    assert os == os[..k] + os[k..];
    FlagsOfAppend(p, os[..k], os[k..]);
  }

  /** A one-flag list keeps its flag exactly when `p` has it. */
  lemma FlagsOfOne(p: PermissionSet, x: Flag)
    ensures FlagsOf(p, [x]) == if Has(p, x) then [x] else []
  {
    assert [x][1..] == [];
  }

  /** No flag of `p` occurs in `a`. */
  predicate NoneOf(p: PermissionSet, a: seq<Flag>) {
    forall h :: h in a ==> !Has(p, h)
  }

  /** Between lists none of whose flags is in `p`, a flag of `p` is the
      only one kept. */
  lemma {:induction false} FlagsOfSingle(p: PermissionSet, a: seq<Flag>, f: Flag, b: seq<Flag>)
    requires NoneOf(p, a) && NoneOf(p, b) && Has(p, f)
    ensures FlagsOf(p, a + [f] + b) == [f]
  {
    FlagsOfNone(p, a);
    FlagsOfNone(p, b);
    FlagsOfOne(p, f);
    FlagsOfAppend(p, a, [f]);
    FlagsOfAppend(p, a + [f], b);
  }

  /** A run of the declaration order starting at position `base`: each
      flag sits at its own position, counted from `base`. */
  predicate InPositionOrder(os: seq<Flag>, base: nat) {
    forall j :: 0 <= j < |os| ==> Position(os[j]) == base + j
  }

  /** In such a run, the flags before index `k` are declared before the
      flag at `k`, and those after it are declared after it. */
  lemma {:induction false} Around(os: seq<Flag>, base: nat, k: nat)
    requires k < |os| && InPositionOrder(os, base)
    ensures os == os[..k] + [os[k]] + os[k + 1..]
    ensures forall h :: h in os[..k] ==> base <= Position(h) < base + k
    ensures forall h :: h in os[k + 1..] ==> base + k < Position(h) < base + |os|
  {
    forall h | h in os[..k]
      ensures base <= Position(h) < base + k
    {
      var j :| 0 <= j < k && os[..k][j] == h;
      assert os[j] == h;
    }
    forall h | h in os[k + 1..]
      ensures base + k < Position(h) < base + |os|
    {
      var j :| 0 <= j < |os| - k - 1 && os[k + 1..][j] == h;
      assert os[k + 1 + j] == h;
    }
  }

  /** A set whose only flag within a run's positions is `f` keeps just `f`
      from the run. */
  lemma {:induction false} SingleInPositionOrder(p: PermissionSet, f: Flag, os: seq<Flag>, base: nat)
    requires InPositionOrder(os, base)
    requires base <= Position(f) < base + |os| && os[Position(f) - base] == f
    requires forall h :: base <= Position(h) < base + |os| ==> (Has(p, h) <==> h == f)
    ensures FlagsOf(p, os) == [f]
  {
    var k := Position(f) - base;
    Around(os, base, k);
    FlagsOfSingle(p, os[..k], f, os[k + 1..]);
  }

  /** Before `g`, only `f` is kept. */
  lemma {:induction false} PairPrefix(p: PermissionSet, f: Flag, g: Flag, os: seq<Flag>)
    requires InPositionOrder(os, 0) && Position(f) < Position(g) < |os|
    requires os[Position(f)] == f
    requires forall h :: Position(h) < |os| ==> (Has(p, h) <==> h == f || h == g)
    ensures FlagsOf(p, os[..Position(g)]) == [f]
  {
    SingleInPositionOrder(p, f, os[..Position(g)], 0);
  }

  /** From `g` on, only `g` is kept. */
  lemma {:induction false} PairSuffix(p: PermissionSet, f: Flag, g: Flag, os: seq<Flag>)
    requires InPositionOrder(os, 0) && Position(f) < Position(g) < |os|
    requires os[Position(g)] == g
    requires forall h :: Position(h) < |os| ==> (Has(p, h) <==> h == f || h == g)
    ensures FlagsOf(p, os[Position(g)..]) == [g]
  {
    var k := Position(g);
    assert InPositionOrder(os[k..], k);
    SingleInPositionOrder(p, g, os[k..], k);
  }

  /** A set whose only flags within a run's positions are `f` and `g`, `f`
      declared first, keeps them in that order. */
  lemma {:induction false} PairInPositionOrder(p: PermissionSet, f: Flag, g: Flag, os: seq<Flag>)
    requires InPositionOrder(os, 0) && Position(f) < Position(g) < |os|
    requires os[Position(f)] == f && os[Position(g)] == g
    requires forall h :: Position(h) < |os| ==> (Has(p, h) <==> h == f || h == g)
    ensures FlagsOf(p, os) == [f, g]
  {
    var k := Position(g);
    PairPrefix(p, f, g, os);
    PairSuffix(p, f, g, os);
    FlagsOfSplitAt(p, os, k);
    assert [f] + [g] == [f, g];
  }

  /** The flags of a single flag's constant, in declaration order. */
  lemma SingleInOrder(f: Flag)
    ensures FlagsOf(Bit(f), DECLARATION_ORDER) == [f]
    ensures !IsNone(Bit(f))
  {
    var p := Bit(f);
    forall h
      ensures Has(p, h) <==> h == f
    {
      BitHoldsOnlyItself(f, h);
    }
    PositionsCovered();
    SingleInPositionOrder(p, f, DECLARATION_ORDER, 0);
  }

  /** A set whose only flag is `f` prints as `f`'s name. */
  lemma DisplayOfOne(p: PermissionSet, f: Flag)
    requires !IsNone(p) && FlagsOf(p, DECLARATION_ORDER) == [f]
    ensures Display(p) == Name(f)
  {
  }

  /** A single flag prints as its name. */
  lemma DisplaySingle(f: Flag)
    ensures Display(Bit(f)) == Name(f)
  {
    SingleInOrder(f);
    DisplayOfOne(Bit(f), f);
  }

  /** Two names joined the way `Display` joins them. */
  lemma JoinTwoNames(f: Flag, g: Flag)
    ensures Join(Names([f, g]), ", ") == Name(f) + ", " + Name(g)
  {
    var names := Names([f, g]);
    assert names[1..] == [Name(g)];
  }

  /** The flags of a two-flag union, in declaration order. */
  lemma PairInOrder(f: Flag, g: Flag)
    requires Position(f) < Position(g)
    ensures FlagsOf(Union(Bit(f), Bit(g)), DECLARATION_ORDER) == [f, g]
    ensures !IsNone(Union(Bit(f), Bit(g)))
  {
    PairFlags(f, g);
    PositionsCovered();
    PairInPositionOrder(Union(Bit(f), Bit(g)), f, g, DECLARATION_ORDER);
  }

  /** A set whose flags in declaration order are `f` then `g` prints as
      their two names. */
  lemma DisplayOfTwo(p: PermissionSet, f: Flag, g: Flag)
    requires !IsNone(p) && FlagsOf(p, DECLARATION_ORDER) == [f, g]
    ensures Display(p) == Name(f) + ", " + Name(g)
  {
    JoinTwoNames(f, g);
  }

  /** Two flags print as their names in declaration order, separated by a
      comma and a space. */
  lemma DisplayPair(f: Flag, g: Flag)
    requires Position(f) < Position(g)
    ensures Display(Union(Bit(f), Bit(g))) == Name(f) + ", " + Name(g)
  {
    PairInOrder(f, g);
    DisplayOfTwo(Union(Bit(f), Bit(g)), f, g);
  }

  /** The `Display` form of a two-flag set parses back to the set. */
  lemma ParsePair(f: Flag, g: Flag)
    requires Position(f) < Position(g)
    ensures ParsePermissions(Name(f) + ", " + Name(g)) == Ok(Union(Bit(f), Bit(g)))
  {
    PairInOrder(f, g);
    DisplayPair(f, g);
    DisplayParseRoundTrip(Union(Bit(f), Bit(g)));
  }

  /** The empty string is the empty set: its one piece is empty and
      skipped. */
  lemma ParseEmptyString()
    ensures ParsePermissions("") == Ok(Empty())
  {
    assert Split("", SEPARATORS) == [""];
    assert Trim("") == "";
    assert Tokens([""]) == [""];
  }

  /** An unknown name fails with its normalised spelling. */
  lemma ParseUnknownName()
    ensures ParsePermissions("invalid_perm") == Err(UnknownMessage("invalid_perm"))
  {
    var bad := "invalid_perm";
    InvalidPermIsWord();
    NormalizeWord(bad);
    SplitSinglePiece(bad, SEPARATORS);
    assert Tokens([bad]) == [bad];
    InvalidPermIsNoName();
  }

  lemma InvalidPermIsWord()
    ensures NameWord("invalid_perm")
  {
  }

  lemma InvalidPermIsNoName()
    ensures FlagNamed("invalid_perm") == None
  {
  }

  /** Pieces that each trim and lower-case to a flag name, joined by
      either separator, parse to exactly those flags: case, padding and the
      choice of `,` or `|` do not matter. */
  lemma {:induction false} ParseJoinedPieces(pieces: seq<string>, fs: seq<Flag>, c: char)
    requires |pieces| == |fs| >= 1 && c in SEPARATORS
    requires forall i :: 0 <= i < |pieces| ==> SeparatorFree(pieces[i], SEPARATORS)
    requires forall i :: 0 <= i < |pieces| ==> Normalize(pieces[i]) == Name(fs[i])
    ensures ParsePermissions(Join(pieces, [c])).Ok?
    ensures forall f :: Has(ParsePermissions(Join(pieces, [c])).value, f) <==> f in fs
  {
    SplitJoin(pieces, c, SEPARATORS);
    assert Tokens(pieces) == Names(fs);
    ParseNames(fs);
  }

  /** A name word in upper case is still one piece with no whitespace,
      and lower-casing gives the word back. */
  lemma {:induction false} UpperWord(w: string)
    requires NameWord(w)
    ensures NoWhitespace(ToUpper(w)) && SeparatorFree(ToUpper(w), SEPARATORS)
    ensures ToLower(ToUpper(w)) == w
  {
    var u := ToUpper(w);
    assert forall i :: 0 <= i < |w| ==> NameChar(w[i]);
    assert forall i :: 0 <= i < |w| ==> LowerChar(u[i]) == w[i];
  }

  /** Whitespace around a word with no whitespace and no separator adds
      no separator. */
  lemma {:induction false} PaddedWord(pre: string, u: string, post: string)
    requires AllWhitespace(pre) && AllWhitespace(post)
    requires SeparatorFree(u, SEPARATORS)
    ensures SeparatorFree(pre + u + post, SEPARATORS)
  {
    PadSeparatorFree(pre, u);
    var t := pre + u;
    forall i | 0 <= i < |t + post|
      ensures (t + post)[i] !in SEPARATORS
    {
      if i >= |t| {
        assert (t + post)[i] == post[i - |t|] && IsWhitespace(post[i - |t|]);
      } else {
        assert (t + post)[i] == t[i];
      }
    }
  }

  /** A flag name in upper case, with whitespace around it, is one piece
      that trims and lower-cases back to the name. */
  lemma {:induction false} UpperPaddedName(pre: string, f: Flag, post: string)
    requires AllWhitespace(pre) && AllWhitespace(post)
    ensures SeparatorFree(pre + ToUpper(Name(f)) + post, SEPARATORS)
    ensures Normalize(pre + ToUpper(Name(f)) + post) == Name(f)
  {
    var name := Name(f);
    var upper := ToUpper(name);
    NameShape(f);
    UpperWord(name);
    TrimPadded(pre, upper, post);
    PaddedWord(pre, upper, post);
  }
}
