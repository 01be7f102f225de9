/** Where a Telegram notification goes: a chat id whose sign says whether it
    is a private chat with a user or a group. */
module Notifications {
  import opened Results
  import Json

  /** `TelegramRecipient`. */
  datatype TelegramRecipient = TelegramRecipient(chatId: Int64)

  /** `new`. */
  function New(chatId: Int64): (r: TelegramRecipient)
    ensures r.chatId == chatId
  {
    TelegramRecipient(chatId)
  }

  /** `From<i64>`: the same as `new`. */
  function FromI64(chatId: Int64): (r: TelegramRecipient)
    ensures r == New(chatId)
  {
    New(chatId)
  }

  /** `is_user`: private chats have positive ids. */
  predicate IsUser(r: TelegramRecipient) {
    r.chatId > 0
  }

  /** `is_group`: groups and channels have negative ids. */
  predicate IsGroup(r: TelegramRecipient) {
    r.chatId < 0
  }

  /** A recipient is never both a user and a group; it is neither exactly
      when its id is zero; and the sign of the id decides which. */
  lemma Classification(r: TelegramRecipient)
    ensures !(IsUser(r) && IsGroup(r))
    ensures !IsUser(r) && !IsGroup(r) <==> r.chatId == 0
    ensures IsUser(r) <==> r.chatId > 0
    ensures IsGroup(r) <==> r.chatId < 0
  {
  }

  /** The crate's tests: `123456789` is a user, `-1001234567890` a
      group. */
  lemma Examples()
    ensures IsUser(New(123456789)) && !IsGroup(New(123456789))
    ensures IsGroup(New(-1001234567890)) && !IsUser(New(-1001234567890))
    ensures FromI64(123456789).chatId == 123456789
  {
  }

  /** The derived encoder: an object with the one field `chat_id`. */
  function Encode(r: TelegramRecipient): (v: Json.Value)
    ensures v.Object? && Json.Field(v.fields, "chat_id") == Some(Json.Integer(r.chatId))
  {
    Json.FieldCons(("chat_id", Json.Integer(r.chatId)), [], "chat_id");
    assert [("chat_id", Json.Integer(r.chatId))] == [("chat_id", Json.Integer(r.chatId))] + [];
    Json.Object([("chat_id", Json.Integer(r.chatId))])
  }

  /** Why a JSON value is not a recipient. */
  datatype RecipientDecodeError =
    | NotAStruct
    | InvalidLength(length: nat)
    | MissingChatId
    | DuplicateChatId
    | InvalidChatId

  /** A chat id as serde_json delivers it to an `i64`: an integer that fits
      in 64 signed bits. */
  function DecodeChatId(v: Json.Value): Result<TelegramRecipient, RecipientDecodeError> {
    match v
    case Integer(n) =>
      if -0x8000_0000_0000_0000 <= n < 0x8000_0000_0000_0000 then Ok(TelegramRecipient(n))
      else Err(InvalidChatId)
    case _ => Err(InvalidChatId)
  }

  /** The derived decoder. As an object, `chat_id` must be present once and
      be an integer that fits in an `i64`; other keys are ignored. As an
      array, it must hold exactly that one integer. Any other value is
      refused. serde reads each value as soon as it meets its key or
      position, so a bad first `chat_id` (or first element) is reported
      before a second `chat_id` key (or a second element) is noticed. */
  function Decode(v: Json.Value): (r: Result<TelegramRecipient, RecipientDecodeError>)
    ensures !v.Object? && !v.Array? ==> r == Err(NotAStruct)
    ensures v.Object? && Json.Count(v.fields, "chat_id") > 1 ==> r.Err?
    ensures (v.Object? && Json.Count(v.fields, "chat_id") > 1 && Json.Field(v.fields, "chat_id").Some? &&
             DecodeChatId(Json.Field(v.fields, "chat_id").value).Ok?) ==> r == Err(DuplicateChatId)
    ensures (v.Object? && Json.Field(v.fields, "chat_id").Some? &&
             DecodeChatId(Json.Field(v.fields, "chat_id").value).Err?) ==> r == Err(InvalidChatId)
    ensures v.Object? && Json.Count(v.fields, "chat_id") == 0 ==> r == Err(MissingChatId)
    ensures v.Object? && r.Ok? ==> Json.Field(v.fields, "chat_id") == Some(Json.Integer(r.value.chatId))
    ensures v.Object? && Json.Count(v.fields, "chat_id") == 1 ==>
      (r.Ok? <==> exists n: Int64 :: Json.Field(v.fields, "chat_id") == Some(Json.Integer(n)))
    ensures v.Array? ==> (r.Ok? <==> exists n: Int64 :: v.items == [Json.Integer(n)])
    ensures v.Array? && r.Ok? ==> v.items == [Json.Integer(r.value.chatId)]
    ensures v.Array? && |v.items| != 1 ==> r.Err?
    ensures v.Array? && |v.items| != 1 && (|v.items| == 0 || DecodeChatId(v.items[0]).Ok?) ==>
      r == Err(InvalidLength(|v.items|))
    ensures v.Array? && |v.items| > 0 && DecodeChatId(v.items[0]).Err? ==> r == Err(InvalidChatId)
  {
    match v
    case Object(fields) =>
      Json.FieldMeaning(fields, "chat_id");
      (match Json.Field(fields, "chat_id")
       case None => Err(MissingChatId)
       case Some(x) =>
         (match DecodeChatId(x)
          case Err(e) => Err(e)
          case Ok(recipient) =>
            if Json.Count(fields, "chat_id") > 1 then Err(DuplicateChatId) else Ok(recipient)))
    case Array(items) =>
      if |items| == 0 then Err(InvalidLength(0))
      else
        (match DecodeChatId(items[0])
         case Err(e) => Err(e)
         case Ok(recipient) =>
           if |items| != 1 then Err(InvalidLength(|items|)) else Ok(recipient))
    case _ => Err(NotAStruct)
  }

  /** Which error serde meets first: a badly typed first `chat_id` or first
      element is reported before the doubled key or the extra element that
      follows it, while a good first value lets the later fault be seen. */
  lemma ErrorOrderExamples()
    ensures Decode(Json.Object([("chat_id", Json.Str("x")), ("chat_id", Json.Integer(1))])) == Err(InvalidChatId)
    ensures Decode(Json.Object([("chat_id", Json.Integer(1)), ("chat_id", Json.Str("x"))])) == Err(DuplicateChatId)
    ensures Decode(Json.Array([Json.Str("x"), Json.Integer(2)])) == Err(InvalidChatId)
    ensures Decode(Json.Array([Json.Integer(1), Json.Str("x")])) == Err(InvalidLength(2))
  {
  }

  /** The sequence form: `[-100123]` is the group chat -100123; an empty
      array, or one with a second value, is refused. */
  lemma ArrayFormExamples()
    ensures Decode(Json.Array([Json.Integer(-100123)])) == Ok(New(-100123))
    ensures Decode(Json.Array([])) == Err(InvalidLength(0))
    ensures Decode(Json.Array([Json.Integer(1), Json.Integer(2)])) == Err(InvalidLength(2))
    ensures Decode(Json.Array([Json.Str("1")])) == Err(InvalidChatId)
  {
  }

  /** Every recipient survives a trip through JSON. */
  lemma RoundTrip(r: TelegramRecipient)
    ensures Decode(Encode(r)) == Ok(r)
  {
    var e := ("chat_id", Json.Integer(r.chatId));
    Json.FieldCons(e, [], "chat_id");
    assert [e] == [e] + [];
  }
}
