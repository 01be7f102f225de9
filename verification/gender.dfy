/** A user's gender, its name, and its JSON form. */
module Genders {
  import opened Results
  import Json

  /** `Gender`. */
  datatype Gender = Male | Female

  /** `is_male`: the gender named "male". */
  predicate IsMale(g: Gender)
    ensures IsMale(g) <==> AsStr(g) == "male"
  {
    g == Male
  }

  /** `is_female`: the gender named "female". */
  predicate IsFemale(g: Gender)
    ensures IsFemale(g) <==> AsStr(g) == "female"
  {
    g == Female
  }

  /** `as_str`, which `Display` and the serde form both use. */
  function AsStr(g: Gender): (s: string)
    ensures |s| > 0
  {
    match g
    case Male => "male"
    case Female => "female"
  }

  /** Exactly one of the two predicates holds for every gender. */
  lemma ExactlyOne(g: Gender)
    ensures IsMale(g) != IsFemale(g)
  {
  }

  /** The names are distinct, so a name identifies its gender. */
  lemma AsStrInjective(a: Gender, b: Gender)
    ensures AsStr(a) == AsStr(b) <==> a == b
  {
  }

  /** The serde form: the name as a JSON string. */
  function Encode(g: Gender): (v: Json.Value)
    ensures v.Str? && v.s == AsStr(g)
  {
    Json.Str(AsStr(g))
  }

  /** The other form serde_json accepts for a gender: `{"<name>": null}`. */
  function MapForm(g: Gender): (v: Json.Value)
    ensures v == Json.VariantMap(AsStr(g))
  {
    Json.VariantMap(AsStr(g))
  }

  const NAMES: seq<string> := ["male", "female"]

  /** The derived decoder: a gender's name, as a string or as the key of a
      one-entry map to `null`, is that gender; another string is an unknown
      variant, and a value of another kind is not a gender at all. */
  function Decode(v: Json.Value): (r: Result<Gender, Json.EnumError>)
    ensures r.Ok? <==> exists g :: v == Encode(g) || v == MapForm(g)
    ensures r.Ok? ==> v == Encode(r.value) || v == MapForm(r.value)
    ensures v.Str? && r.Err? ==> r.error == Json.UnknownVariant(v.s)
    ensures v.Null? || v.Bool? || v.Integer? || v.Float? || v.Array? ==> r == Err(Json.NotAnEnum)
  {
    match Json.UnitVariant(v, NAMES)
    case Ok(name) =>
      var g := if name == "male" then Male else Female;
      assert AsStr(g) == name;
      assert v == Encode(g) || v == MapForm(g);
      Ok(g)
    case Err(e) =>
      assert forall g :: AsStr(g) in NAMES;
      Err(e)
  }

  /** Every gender survives a trip through JSON, in either form. */
  lemma RoundTrip(g: Gender)
    ensures Decode(Encode(g)) == Ok(g)
    ensures Decode(MapForm(g)) == Ok(g)
  {
  }

  /** The crate's tests of the names and the serde form: the genders are
      written "male" and "female", and are read back from those strings. */
  lemma SerdeExamples()
    ensures AsStr(Male) == "male" && AsStr(Female) == "female"
    ensures Encode(Male) == Json.Str("male") && Encode(Female) == Json.Str("female")
    ensures Decode(Json.Str("male")) == Ok(Male) && Decode(Json.Str("female")) == Ok(Female)
    ensures Decode(Json.Str("other")) == Err(Json.UnknownVariant("other"))
    ensures Decode(Json.Object([("female", Json.Null)])) == Ok(Female)
  {
  }
}
