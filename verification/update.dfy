/** The profile update request: every field is optional, and only the
    fields present are changed. */
module UpdateRequests {
  import opened Results
  import Genders

  /** `UpdateProfileRequest`. */
  datatype UpdateProfileRequest = UpdateProfileRequest(
    name: Option<string>,
    gender: Option<Genders.Gender>,
    birthDate: Option<Date>,
    confessionId: Option<Uuid>)

  /** The request that changes nothing. */
  const NO_CHANGES: UpdateProfileRequest := UpdateProfileRequest(None, None, None, None)

  /** `is_empty`: no field is present. */
  predicate IsEmpty(r: UpdateProfileRequest) {
    r.name.None? && r.gender.None? && r.birthDate.None? && r.confessionId.None?
  }

  /** A request is empty exactly when it is the request that changes
      nothing, and setting any one field makes it non-empty. */
  lemma EmptyMeansNoChanges(r: UpdateProfileRequest, n: string, g: Genders.Gender, d: Date, c: Uuid)
    ensures IsEmpty(r) <==> r == NO_CHANGES
    ensures !IsEmpty(r.(name := Some(n)))
    ensures !IsEmpty(r.(gender := Some(g)))
    ensures !IsEmpty(r.(birthDate := Some(d)))
    ensures !IsEmpty(r.(confessionId := Some(c)))
  {
  }

  /** The bounds of `length(min = 2, max = 100)`, counted in characters. */
  const MIN_NAME: nat := 2
  const MAX_NAME: nat := 100

  /** `validate().is_ok()`: a present name has two to a hundred characters;
      the other fields carry no rule. */
  function Valid(r: UpdateProfileRequest): (ok: bool)
    ensures ok <==> r.name.None? || 2 <= |r.name.value| <= 100
  {
    match r.name
    case None => true
    case Some(n) => MIN_NAME <= |n| <= MAX_NAME
  }

  /** Emptiness and validity are independent: the empty request is valid,
      and a request whose only field is a one-character name is neither
      empty nor valid. */
  lemma EmptyIsValid(c: char)
    ensures Valid(NO_CHANGES) && IsEmpty(NO_CHANGES)
    ensures var r := NO_CHANGES.(name := Some([c])); !Valid(r) && !IsEmpty(r)
  {
  }

  /** Only the name decides validity: changing any other field never turns
      a valid request invalid or an invalid one valid. */
  lemma OnlyNameMatters(r: UpdateProfileRequest, g: Option<Genders.Gender>, d: Option<Date>, c: Option<Uuid>)
    ensures Valid(r.(gender := g, birthDate := d, confessionId := c)) == Valid(r)
  {
  }

  /** The crate's tests: `"J"` and `"A"` are too short. */
  lemma Examples()
    ensures !Valid(NO_CHANGES.(name := Some("J"))) && !Valid(NO_CHANGES.(name := Some("A")))
    ensures Valid(NO_CHANGES.(name := Some("John")))
  {
  }
}
