/** The request that creates a user from one contact: a Telegram id, an
    e-mail address or a phone number. */
module CreateRequests {
  import opened Results
  import BindRequests

  /** `CreateUserRequest`. The id defaults to a fresh time-ordered UUID in
      the crate; here the caller supplies it. */
  datatype CreateUserRequest = CreateUserRequest(
    id: Uuid,
    telegramId: Option<Int64>,
    email: Option<string>,
    phone: Option<string>)

  /** `telegram`: only the Telegram id is set. */
  function Telegram(id: Uuid, telegramId: Int64): (r: CreateUserRequest)
    ensures r.id == id && r.telegramId == Some(telegramId)
    ensures r.email == None && r.phone == None
  {
    CreateUserRequest(id, Some(telegramId), None, None)
  }

  /** `email`: only the e-mail address is set. */
  function Email(id: Uuid, email: string): (r: CreateUserRequest)
    ensures r.id == id && r.email == Some(email)
    ensures r.telegramId == None && r.phone == None
  {
    CreateUserRequest(id, None, Some(email), None)
  }

  /** `phone`: only the phone number is set. */
  function Phone(id: Uuid, phone: string): (r: CreateUserRequest)
    ensures r.id == id && r.phone == Some(phone)
    ensures r.telegramId == None && r.email == None
  {
    CreateUserRequest(id, None, None, Some(phone))
  }

  /** How many contact fields a request carries. */
  function Contacts(r: CreateUserRequest): nat {
    (if r.telegramId.Some? then 1 else 0) + (if r.email.Some? then 1 else 0) + (if r.phone.Some? then 1 else 0)
  }

  /** Each constructor builds a request with exactly one contact, and the
      three constructors never build the same request. */
  lemma OneContactEach(id: Uuid, t: Int64, e: string, p: string)
    ensures Contacts(Telegram(id, t)) == 1 && Contacts(Email(id, e)) == 1 && Contacts(Phone(id, p)) == 1
    ensures Telegram(id, t) != Email(id, e) && Email(id, e) != Phone(id, p) && Phone(id, p) != Telegram(id, t)
  {
  }

  /** The fields that carry a validation rule. */
  datatype RuledField = TelegramIdField | EmailField

  /** The fields whose rule fails: a present Telegram id below one, a
      present e-mail address the e-mail rule refuses. Absent fields pass,
      and the phone carries no rule at all. */
  function Violations(r: CreateUserRequest, isEmail: string -> bool): (v: set<RuledField>)
    ensures TelegramIdField in v <==> r.telegramId.Some? && r.telegramId.value < 1
    ensures EmailField in v <==> r.email.Some? && !isEmail(r.email.value)
  {
    (if r.telegramId.Some? && !BindRequests.ValidTelegram(BindRequests.BindTelegram(r.telegramId.value)) then {TelegramIdField} else {}) +
    (if r.email.Some? && !isEmail(r.email.value) then {EmailField} else {})
  }

  /** `validate().is_ok()`. */
  predicate Valid(r: CreateUserRequest, isEmail: string -> bool) {
    Violations(r, isEmail) == {}
  }

  /** The Telegram rule here is the one the bind request uses. */
  lemma TelegramRuleMatchesBind(id: Uuid, t: Int64, isEmail: string -> bool)
    ensures Valid(Telegram(id, t), isEmail) <==> BindRequests.ValidTelegram(BindRequests.BindTelegram(t))
  {
    assert TelegramIdField in Violations(Telegram(id, t), isEmail) <==> t < 1;
  }

  /** The phone number is stored but never checked: a request made from
      any string passes, while the same string in a bind request must match
      the E.164 pattern. */
  lemma PhoneIsNotValidated(id: Uuid, p: string, isEmail: string -> bool)
    ensures Valid(Phone(id, p), isEmail)
  {
  }

  /** The crate's tests: an id of `0` fails, `telegram(1)` passes, and
      `telegram(123)` carries no e-mail address. */
  lemma Examples(id: Uuid, isEmail: string -> bool)
    ensures !Valid(CreateUserRequest(id, Some(0), None, None), isEmail)
    ensures Valid(Telegram(id, 1), isEmail)
    ensures Telegram(id, 123).telegramId == Some(123) && Telegram(id, 123).email.None?
  {
    assert TelegramIdField in Violations(CreateUserRequest(id, Some(0), None, None), isEmail);
  }
}
