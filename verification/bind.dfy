/** Requests that link a Telegram account, an e-mail address or a phone
    number to an existing profile, and the field rules they are validated
    against. */
module BindRequests {
  import opened Results
  import PhoneNumbers
  import Notifications

  /** `BindTelegram`. */
  datatype BindTelegram = BindTelegram(telegramId: Int64)

  /** `BindEmail`. */
  datatype BindEmail = BindEmail(email: string)

  /** `BindPhone`. */
  datatype BindPhone = BindPhone(phone: string)

  /** The lower bound of `range(min = 1)`. */
  const MIN_TELEGRAM_ID: int := 1

  /** The Telegram rule: the id is at least one. */
  function ValidTelegram(b: BindTelegram): (ok: bool)
    ensures ok <==> b.telegramId > 0
  {
    b.telegramId >= MIN_TELEGRAM_ID
  }

  /** An id that passes the rule is a private chat a notification can be
      sent to, and an id that fails is not one. */
  lemma ValidTelegramIsUserChat(b: BindTelegram)
    ensures ValidTelegram(b) <==> Notifications.IsUser(Notifications.New(b.telegramId))
  {
  }

  /** The crate's tests: `1` and `123456789` pass, `0` and `-1` fail. */
  lemma TelegramExamples()
    ensures ValidTelegram(BindTelegram(1)) && ValidTelegram(BindTelegram(123456789))
    ensures !ValidTelegram(BindTelegram(0)) && !ValidTelegram(BindTelegram(-1))
  {
  }

  /** The e-mail rule is the validator crate's; it is a parameter here. */
  predicate ValidEmail(b: BindEmail, isEmail: string -> bool) {
    isEmail(b.email)
  }

  /** The phone rule: the whole string matches the E.164 pattern. */
  predicate ValidPhone(b: BindPhone) {
    PhoneNumbers.IsE164(b.phone)
  }

  /** The validator, run as the matcher runs: it agrees with the rule. */
  method ValidatePhone(b: BindPhone) returns (ok: bool)
    ensures ok <==> PhoneNumbers.IsE164(b.phone)
    ensures ok ==> 11 <= |b.phone| <= 16
  {
    ok := PhoneNumbers.Matches(b.phone);
    if ok {
      PhoneNumbers.AcceptedShape(b.phone);
    }
  }

  /** The crate's tests: three numbers pass; a missing plus sign, a
      short number and a leading zero fail. */
  lemma PhoneExamples()
    ensures ValidPhone(BindPhone("+14155551234")) && ValidPhone(BindPhone("+79991234567"))
    ensures ValidPhone(BindPhone("+442071234567"))
    ensures !ValidPhone(BindPhone("14155551234")) && !ValidPhone(BindPhone("+1234"))
    ensures !ValidPhone(BindPhone("+0123456789"))
  {
    PhoneNumbers.AcceptedExamples();
    PhoneNumbers.RefusedExamples();
  }
}
