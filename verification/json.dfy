/** The part of a JSON document the library's decoders look at, and how
    serde_json hands a number to a visitor. */
module Json {
  import opened Results


  /** A JSON value. A number with a fraction or exponent is `Float`; its
      value never matters here. `UuidText` is the string a UUID is written
      as; its textual form belongs to the uuid crate, so the model keeps the
      UUID it stands for instead. */
  datatype Value =
    | Null
    | Bool(b: bool)
    | Integer(n: int)
    | Float
    | Str(s: string)
    | Array(items: seq<Value>)
    | Object(fields: seq<(string, Value)>)
    | UuidText(id: bv128)

  /** How serde_json passes an integer literal to a visitor: as a `u64` when
      it is non-negative and fits, as an `i64` when it is negative and fits,
      and otherwise as an `f64`. */
  datatype IntegerDelivery = AsU64 | AsI64 | AsF64

  function Deliver(n: int): (d: IntegerDelivery)
    ensures d == AsU64 <==> 0 <= n < 0x1_0000_0000_0000_0000
    ensures d == AsI64 <==> -0x8000_0000_0000_0000 <= n < 0
  {
    if 0 <= n < 0x1_0000_0000_0000_0000 then AsU64
    else if -0x8000_0000_0000_0000 <= n < 0 then AsI64
    else AsF64
  }

  /** The value of the first entry named `key`, if any. */
  function Field(fields: seq<(string, Value)>, key: string): Option<Value>
  {
    if |fields| == 0 then None
    else if fields[0].0 == key then Some(fields[0].1)
    else Field(fields[1..], key)
  }

  /** How many entries are named `key`. */
  function Count(fields: seq<(string, Value)>, key: string): nat
  {
    if |fields| == 0 then 0
    else (if fields[0].0 == key then 1 else 0) + Count(fields[1..], key)
  }

  /** `Field` finds a key exactly when some entry carries it, and then
      returns that entry's value; `Count` is zero exactly when it finds
      nothing. */
  lemma {:induction false} FieldMeaning(fields: seq<(string, Value)>, key: string)
    ensures Field(fields, key).None? <==> forall i :: 0 <= i < |fields| ==> fields[i].0 != key
    ensures Field(fields, key).Some? ==> exists i :: 0 <= i < |fields| && fields[i] == (key, Field(fields, key).value)
    ensures Count(fields, key) == 0 <==> Field(fields, key).None?
    ensures Count(fields, key) <= |fields|
    decreases |fields|
  {
    if |fields| > 0 {
      FieldMeaning(fields[1..], key);
      if fields[0].0 != key {
        var r := Field(fields, key);
        assert r == Field(fields[1..], key);
        assert forall i :: 0 < i < |fields| ==> fields[i] == fields[1..][i - 1];
        if r.Some? {
          var j :| 0 <= j < |fields[1..]| && fields[1..][j] == (key, r.value);
          assert fields[j + 1] == (key, r.value);
        }
      }
    }
  }

  /** Looking a key up in two runs of entries finds it in the first run if
      it is there, and in the second otherwise. */
  lemma {:induction false} FieldAppend(a: seq<(string, Value)>, b: seq<(string, Value)>, key: string)
    ensures Field(a + b, key) == if Field(a, key).Some? then Field(a, key) else Field(b, key)
    ensures Count(a + b, key) == Count(a, key) + Count(b, key)
    decreases |a|
  {
    if |a| == 0 {
      assert a + b == b;
    } else {
      assert (a + b)[0] == a[0];
      assert (a + b)[1..] == a[1..] + b;
      FieldAppend(a[1..], b, key);
    }
  }

  /** Looking a key up in an entry followed by more entries. */
  lemma FieldCons(e: (string, Value), rest: seq<(string, Value)>, key: string)
    ensures Field([e] + rest, key) == if e.0 == key then Some(e.1) else Field(rest, key)
    ensures Count([e] + rest, key) == (if e.0 == key then 1 else 0) + Count(rest, key)
  {
    assert ([e] + rest)[0] == e;
    assert ([e] + rest)[1..] == rest;
  }

  /** Why serde_json refuses a value as a unit-only enum. */
  datatype EnumError =
    | UnknownVariant(name: string)
    | NotAnEnum
    | InvalidEnumMap

  /** The map form of a unit variant: an object whose one key is the
      variant's name and whose value is `null`. */
  function VariantMap(name: string): (v: Value)
    ensures v.Object? && |v.fields| == 1 && v.fields[0] == (name, Null)
  {
    Object([(name, Null)])
  }

  /** How serde_json reads an enum whose variants are all units, given the
      variants' names: either the name as a string, or a one-entry object
      from the name to `null`. In the object form the key is looked up
      before its value is read, so an unknown key is an unknown variant
      whatever follows it; a known key with any value but `null`, or with
      more entries after it, is refused; so is an empty object. Any other
      kind of value is not an enum. */
  function UnitVariant(v: Value, names: seq<string>): (r: Result<string, EnumError>)
    ensures r.Ok? <==> exists name :: name in names && (v == Str(name) || v == VariantMap(name))
    ensures r.Ok? ==> r.value in names && (v == Str(r.value) || v == VariantMap(r.value))
    ensures v.Str? && r.Err? ==> r.error == UnknownVariant(v.s)
    ensures v.Object? && |v.fields| > 0 && v.fields[0].0 !in names ==> r == Err(UnknownVariant(v.fields[0].0))
    ensures v.Object? && r.Err? ==> r.error != NotAnEnum
    ensures v.Null? || v.Bool? || v.Integer? || v.Float? || v.Array? ==> r == Err(NotAnEnum)
  {
    match v
    case Str(s) =>
      if s in names then Ok(s) else Err(UnknownVariant(s))
    case Object(fields) =>
      if |fields| == 0 then Err(InvalidEnumMap)
      else if fields[0].0 !in names then Err(UnknownVariant(fields[0].0))
      else if fields[0].1 != Null || |fields| > 1 then
        assert forall name :: v != VariantMap(name);
        Err(InvalidEnumMap)
      else
        assert v == VariantMap(fields[0].0);
        Ok(fields[0].0)
    case _ => Err(NotAnEnum)
  }
}
