/** The administrator's screens over the store and the wallets. */
module AdminBot {
  import opened Prelude
  import opened SessionStore
  import opened CreditDialogue
  import opened CreditRuns

  datatype Callback =
    | Menu
    | Gateways
    | CreditScreen
    | CancelPrompt
    | CancelConfirmation(nonce: string)
    | Apply(nonce: string)
    | Unknown

  datatype Screen = MenuScreen | GatewayScreen | TargetPrompt | Expired | InvalidTarget | CreditFailed | CreditDone
                  | Asking(next: Pending) | Refused(again: Pending) | Confirming(confirmation: Confirmation)

  /** What an undisturbed message leaves in the store. */
  function TextResult(before: Store, admin: Uuid, text: string, world: Lookup -> Option<View>, nonce: string,
                      ttl: int): Store {
    var pending := before.Get(PromptKey(admin));
    if pending.None? || ReadPending(pending.value).None? then before
    else
      var reaction := React(admin, ReadPending(pending.value).value, text, world(LookupOf(text)));
      var after := Reacted(before, admin, reaction, nonce, ttl);
      if reaction.Freeze? then after.Delete(PromptKey(admin)) else after
  }

  /** And what an undisturbed press of apply leaves in the book. */
  function ApplyResult(before: Store, book: Book, admin: Uuid, nonce: string, world: Lookup -> Option<View>,
                       accepts: bool): Book {
    var record := before.Get(ConfirmKey(admin, nonce));
    if record.None? || ReadConfirmation(record.value).None? then book
    else
      var c := ReadConfirmation(record.value).value;
      Applied(book, (admin, nonce), c, world(ById(c.user)), accepts)
  }

  /** The handlers run undisturbed are runs of the machine: load, commit and, after a reason, the
      prompt's removal; load and commit of a press. */
  lemma MessageIsSteps(s: System, id: nat, admin: Uuid, text: string, world: Lookup -> Option<View>, nonce: string,
                       ttl: int)
    requires id !in s.texts && (admin, nonce) !in s.frozen
    requires s.store.Get(PromptKey(admin)).Some?
    ensures var loaded := After(s, TextLoad(id, admin), ttl);
            && Enabled(loaded, TextCommit(id, text, world, nonce))
            && var committed := After(loaded, TextCommit(id, text, world, nonce), ttl);
            TextResult(s.store, admin, text, world, nonce, ttl) ==
            if committed.frozen == s.frozen then committed.store else After(committed, Clear(admin), ttl).store
  {
  }

  lemma PressIsSteps(s: System, id: nat, admin: Uuid, nonce: string, world: Lookup -> Option<View>, accepts: bool,
                     ttl: int)
    requires id !in s.applies && s.store.Get(ConfirmKey(admin, nonce)).Some?
    ensures var loaded := After(s, ApplyLoad(id, admin, nonce), ttl);
            && Enabled(loaded, ApplyCommit(id, world, accepts))
            && After(loaded, ApplyCommit(id, world, accepts), ttl).book ==
              ApplyResult(s.store, s.book, admin, nonce, world, accepts)
  {
  }

  class Wallets {
    var book: Book

    constructor ()
      ensures book == Book([], map[], map[])
    {
      book := Book([], map[], map[]);
    }

    /** The port: idempotent by key, and free to refuse. */
    method AdjustBalance(pair: Pair, key: string, c: Confirmation, accepts: bool) returns (ok: bool)
      modifies this
      ensures book == Adjusted(old(book), pair, key, c, accepts)
      ensures ok <==> accepts || key in old(book).ledger
    {
      if key in book.ledger {
        return true;
      }
      if accepts {
        var balance := BalanceOf(book, c.user);
        book := Book(book.applied + [pair], book.ledger[key := CreditOf(c)],
                     book.balances[c.user := balance + c.amount]);
      }
      ok := accepts;
    }
  }

  class Bot {
    const store: InMemoryStore
    const wallets: Wallets
    const ttl: int

    constructor (store: InMemoryStore, wallets: Wallets, ttl: int)
      ensures this.store == store && this.wallets == wallets && this.ttl == ttl
    {
      this.store, this.wallets, this.ttl := store, wallets, ttl;
    }

    /** `handle_text`: None when no prompt is waiting. */
    method HandleText(text: string, admin: Uuid, world: Lookup -> Option<View>, nonce: string)
      returns (screen: Option<Screen>)
      requires ttl > 0
      modifies store
      ensures store.Contents() == TextResult(old(store.Contents()), admin, text, world, nonce, ttl)
      ensures var pending := old(store.Contents()).Get(PromptKey(admin));
              screen ==
              if pending.None? || ReadPending(pending.value).None? then None
              else Some(match React(admin, ReadPending(pending.value).value, text, world(LookupOf(text)))
                        case Ask(next) => Asking(next)
                        case Freeze(c) => Confirming(c)
                        case Refuse => Refused(ReadPending(pending.value).value))
    {
      var record := store.Get("admin-credit", admin);
      if record.None? {
        return None;
      }
      var pending := ReadPending(record.value);
      if pending.None? {
        return None;
      }
      match React(admin, pending.value, text, world(LookupOf(text)))
      case Ask(next) =>
        var _ := store.Put("admin-credit", admin, PendingRecord(next), ttl);
        screen := Some(Asking(next));
      case Freeze(c) =>
        var _ := store.Put("admin-credit-confirm", Join(admin, nonce), ConfirmationRecord(c), ttl);
        store.Delete("admin-credit", admin);
        screen := Some(Confirming(c));
      case Refuse =>
        screen := Some(Refused(pending.value));
    }

    /** The apply screen: the frozen record is kept, so that a second press replays. */
    method ApplyCredit(admin: Uuid, nonce: string, world: Lookup -> Option<View>, accepts: bool)
      returns (screen: Screen)
      modifies store, wallets
      ensures screen in {Expired, InvalidTarget, CreditFailed, CreditDone}
      ensures store.Contents() == old(store.Contents())
      ensures wallets.book == ApplyResult(old(store.Contents()), old(wallets.book), admin, nonce, world, accepts)
      ensures var record := old(store.Contents()).Get(ConfirmKey(admin, nonce));
              screen.CreditDone? <==>
                && record.Some? && ReadConfirmation(record.value).Some?
                && MayApply(admin, ReadConfirmation(record.value).value,
                            world(ById(ReadConfirmation(record.value).value.user)))
                && (accepts || LedgerKey((admin, nonce)) in old(wallets.book).ledger)
    {
      var record := store.Get("admin-credit-confirm", Join(admin, nonce));
      if record.None? {
        return Expired;
      }
      var c := ReadConfirmation(record.value);
      if c.None? {
        return Expired;
      }
      var target := world(ById(c.value.user));
      if !Creditable(admin, target) {
        return InvalidTarget;
      }
      if target.value.wallet != Some(c.value.currency) {
        return CreditFailed;
      }
      var ok := wallets.AdjustBalance((admin, nonce), LedgerKey((admin, nonce)), c.value, accepts);
      screen := if ok then CreditDone else CreditFailed;
    }

    /** `handle`. */
    method Handle(callback: Callback, admin: Uuid, world: Lookup -> Option<View>, accepts: bool)
      returns (screen: Screen)
      requires ttl > 0
      modifies store, wallets
      ensures store.Contents() ==
              match callback
              case Menu => old(store.Contents()).Delete(PromptKey(admin))
              case Gateways => old(store.Contents()).Delete(PromptKey(admin))
              case CreditScreen => old(store.Contents()).Put(PromptKey(admin), PendingRecord(AwaitTarget), ttl)
              case CancelPrompt => old(store.Contents()).Delete(PromptKey(admin))
              case CancelConfirmation(nonce) => old(store.Contents()).Delete(ConfirmKey(admin, nonce))
              case Apply(_) => old(store.Contents())
              case Unknown => old(store.Contents())
      ensures wallets.book ==
              if callback.Apply?
              then ApplyResult(old(store.Contents()), old(wallets.book), admin, callback.nonce, world, accepts)
              else old(wallets.book)
      ensures callback.Gateways? <==> screen.GatewayScreen?
      ensures callback.CreditScreen? <==> screen.TargetPrompt?
      ensures callback.Apply? <==> screen in {Expired, InvalidTarget, CreditFailed, CreditDone}
    {
      match callback
      case Menu =>
        store.Delete("admin-credit", admin);
        screen := MenuScreen;
      case Gateways =>
        store.Delete("admin-credit", admin);
        screen := GatewayScreen;
      case CreditScreen =>
        var _ := store.Put("admin-credit", admin, PendingRecord(AwaitTarget), ttl);
        screen := TargetPrompt;
      case CancelPrompt =>
        store.Delete("admin-credit", admin);
        screen := MenuScreen;
      case CancelConfirmation(nonce) =>
        store.Delete("admin-credit-confirm", Join(admin, nonce));
        screen := MenuScreen;
      case Apply(nonce) =>
        screen := ApplyCredit(admin, nonce, world, accepts);
      case Unknown =>
        screen := MenuScreen;
    }
  }
}
