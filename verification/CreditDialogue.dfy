/** The administrator's credit dialogue: target, amount, reason, confirmation. */
module CreditDialogue {
  import opened Prelude
  import opened PythonText
  import opened SessionStore
  import opened Amounts

  // -- the records ----------------------------------------------------------

  /** What the prompt waits for, with what was said so far. */
  datatype Pending =
    | AwaitTarget
    | AwaitAmount(user: Uuid, currency: string)
    | AwaitReason(user: Uuid, currency: string, amount: int)

  datatype Confirmation = Confirmation(user: Uuid, currency: string, amount: int, reason: string)

  function PendingRecord(p: Pending): Record {
    match p
    case AwaitTarget => map["step" := JStr("target")]
    case AwaitAmount(user, currency) =>
      map["step" := JStr("amount"), "user_id" := JStr(user), "currency" := JStr(currency)]
    case AwaitReason(user, currency, amount) =>
      map["step" := JStr("reason"), "user_id" := JStr(user), "currency" := JStr(currency), "amount" := JInt(amount)]
  }

  /** The record of the last step with the reason added. */
  function ConfirmationRecord(c: Confirmation): Record {
    PendingRecord(AwaitReason(c.user, c.currency, c.amount))["reason" := JStr(c.reason)]
  }

  predicate IsUuid(v: Json) {
    v.JStr? && |v.s| == 36 && ':' !in v.s
  }

  /** How the code reads a prompt back: by its step. */
  function ReadPending(r: Record): Option<Pending> {
    var step, user, currency, amount := Field(r, "step"), Field(r, "user_id"), Field(r, "currency"), Field(r, "amount");
    if step == JStr("target") then Some(AwaitTarget)
    else if step == JStr("amount") && IsUuid(user) && currency.JStr? then Some(AwaitAmount(user.s, currency.s))
    else if step == JStr("reason") && IsUuid(user) && currency.JStr? && amount.JInt?
    then Some(AwaitReason(user.s, currency.s, amount.i))
    else None
  }

  function ReadConfirmation(r: Record): Option<Confirmation> {
    var user, currency, amount, reason := Field(r, "user_id"), Field(r, "currency"), Field(r, "amount"),
                                          Field(r, "reason");
    if IsUuid(user) && currency.JStr? && amount.JInt? && reason.JStr?
    then Some(Confirmation(user.s, currency.s, amount.i, reason.s)) else None
  }

  lemma RecordsReadBack(p: Pending, c: Confirmation)
    ensures ReadPending(PendingRecord(p)) == Some(p)
    ensures ReadConfirmation(ConfirmationRecord(c)) == Some(c)
  {
    assert |"step"| == 4 && |"user_id"| == 7 && |"currency"| == 8 && |"amount"| == 6 && |"reason"| == 6;
    assert "amount"[0] != "reason"[0];
    assert |"target"| == 6 && "target"[0] != "amount"[0] && "target"[0] != "reason"[0];
  }

  // -- one message ----------------------------------------------------------

  /** What the users and the wallets port answer for a target. */
  datatype View = View(id: Uuid, isAdmin: bool, wallet: Option<string>)

  /** `text.strip().translate(_DIGITS)`. */
  function Cleaned(text: string): string {
    Translated(Strip(text, Space))
  }

  lemma DigitsAreCleaned(text: string)
    requires text != "" && Digits(text)
    ensures Cleaned(text) == text
  {
    assert !Space(text[0]) && !Space(text[|text| - 1]);
    assert Strip(text, Space) == text;
    assert Translated(text) == text;
  }

  /** Whom the typed text asks the users port for. */
  datatype Lookup = ByTelegram(id: int) | ById(text: string)

  function LookupOf(text: string): Lookup {
    var value := Cleaned(text);
    if Number(value) && 0 < Num(value) <= MAX_MINOR then ByTelegram(Num(value)) else ById(value)
  }

  /** A target that may be credited by this administrator. */
  predicate Creditable(admin: Uuid, view: Option<View>) {
    view.Some? && !view.value.isAdmin && view.value.id != admin
  }

  datatype Reaction =
    | Ask(next: Pending)
    | Freeze(confirmation: Confirmation)
    | Refuse

  /** `handle_text` for a prompt that was found; an unaudited currency raises and changes nothing. */
  function React(admin: Uuid, pending: Pending, text: string, view: Option<View>): Reaction {
    match pending
    case AwaitTarget =>
      if Creditable(admin, view) && view.value.wallet.Some?
      then Ask(AwaitAmount(view.value.id, view.value.wallet.value)) else Refuse
    case AwaitAmount(user, currency) =>
      (match AdminMinor(Cleaned(text), currency)
       case Ok(minor) => Ask(AwaitReason(user, currency, minor))
       case Err(_) => Refuse)
    case AwaitReason(user, currency, amount) =>
      if Cleaned(text) == "" || |Cleaned(text)| > 500 then Refuse
      else Freeze(Confirmation(user, currency, amount, Strip(text, Space)))
  }

  /** What each prompt makes of a message, in terms of the answer and the text. */
  lemma ReactsTo(admin: Uuid, text: string, view: Option<View>, user: Uuid, currency: string, amount: int)
    ensures forall next :: React(admin, AwaitTarget, text, view) == Ask(next) <==>
              exists v, c :: view == Some(v) && !v.isAdmin && v.id != admin && v.wallet == Some(c) &&
                             next == AwaitAmount(v.id, c)
    ensures forall next :: React(admin, AwaitAmount(user, currency), text, view) == Ask(next) <==>
              exists m :: AdminMinor(Cleaned(text), currency) == Ok(m) && next == AwaitReason(user, currency, m)
    ensures React(admin, AwaitTarget, text, view).Freeze? == React(admin, AwaitAmount(user, currency), text,
                                                                   view).Freeze?
            == false
    ensures React(admin, AwaitReason(user, currency, amount), text, view) ==
              if 1 <= |Cleaned(text)| <= 500 then Freeze(Confirmation(user, currency, amount, Strip(text, Space)))
              else Refuse
  {
  }

  lemma KeysAre(admin: Uuid, nonce: string)
    ensures PromptKey(admin) == Key("admin-credit", admin)
    ensures ConfirmKey(admin, nonce) == Key("admin-credit-confirm", admin + ":" + nonce)
  {
  }

  function PromptKey(admin: Uuid): Key {
    Key("admin-credit", admin)
  }

  function ConfirmKey(admin: Uuid, nonce: string): Key {
    Key("admin-credit-confirm", Join(admin, nonce))
  }

  lemma KeysAreApart(admin: Uuid, nonce: string, other: Uuid, n: string)
    ensures PromptKey(other) != ConfirmKey(admin, nonce)
    ensures ConfirmKey(admin, nonce) == ConfirmKey(other, n) ==> admin == other && nonce == n
  {
    assert |"admin-credit"| != |"admin-credit-confirm"|;
    if ConfirmKey(admin, nonce) == ConfirmKey(other, n) {
      JoinInjective(admin, nonce, other, n);
    }
  }

  /** What a message does to the store. */
  function Reacted(s: Store, admin: Uuid, reaction: Reaction, nonce: string, ttl: int): Store {
    match reaction
    case Ask(next) => s.Put(PromptKey(admin), PendingRecord(next), ttl)
    case Freeze(c) => s.Put(ConfirmKey(admin, nonce), ConfirmationRecord(c), ttl)
    case Refuse => s
  }
}
