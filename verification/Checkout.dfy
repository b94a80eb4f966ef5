/** Owner-bound purchase confirmations, and the orders their buttons lead to. */
module Checkout {
  import opened Prelude
  import opened SessionStore

  const NS_CHECKOUT := "checkout"
  const MONTHLY := "prepaid_monthly_fixed"
  const HOURLY := "hourly"
  const REF_LENGTH := 8

  datatype Selection = Selection(
    user: Uuid, offer: Uuid, model: string, price: int, currency: string,
    imageId: Option<string>, imageLabel: Option<string>, osName: Option<string>, panelName: Option<string>)

  function OptionalText(t: Option<string>): Json {
    if t.Some? then JStr(t.value) else JNull
  }

  function ToRecord(s: Selection): Record {
    map["user_id" := JStr(s.user), "offer_id" := JStr(s.offer), "billing_model" := JStr(s.model),
        "selling_price_minor" := JInt(s.price), "currency" := JStr(s.currency),
        "image_id" := OptionalText(s.imageId), "image_label" := OptionalText(s.imageLabel),
        "os_name" := OptionalText(s.osName), "panel_name" := OptionalText(s.panelName)]
  }

  /** `UUID(...)`: which texts it reads, and as what. It reads several spellings of each. */
  type ReadUuid = string -> Option<Uuid>

  ghost predicate ReadsCanonical(parse: ReadUuid) {
    forall id: Uuid :: parse(id) == Some(id)
  }

  function UuidIn(j: Json, parse: ReadUuid): Option<Uuid> {
    if j.JStr? then parse(j.s) else None
  }

  predicate TextOrNull(j: Json) {
    j.JNull? || j.JStr?
  }

  /** Absent, None or the empty text. */
  predicate Missing(j: Json) {
    j == JNull || j == JStr("")
  }

  function Text(j: Json): Option<string> {
    if j.JStr? then Some(j.s) else None
  }

  function FromRecord(r: Record, parse: ReadUuid): Option<Selection> {
    var user, offer := UuidIn(Field(r, "user_id"), parse), UuidIn(Field(r, "offer_id"), parse);
    var price, currency, model := Field(r, "selling_price_minor"), Field(r, "currency"), Field(r, "billing_model");
    var image, imageLabel := Field(r, "image_id"), Field(r, "image_label");
    var os, panel := Field(r, "os_name"), Field(r, "panel_name");
    if user.None? || offer.None? then None
    else if !price.JInt? || price.i <= 0 || !currency.JStr? || currency.s == "" ||
            (model != JStr(MONTHLY) && model != JStr(HOURLY)) then None
    else if !TextOrNull(image) || !TextOrNull(imageLabel) || !TextOrNull(os) || !TextOrNull(panel) then None
    else if model == JStr(HOURLY) && (Missing(image) || Missing(imageLabel)) then None
    else if model == JStr(HOURLY) && (os != JNull || panel != JNull) then None
    else if model != JStr(HOURLY) && (Missing(os) || image != JNull || imageLabel != JNull) then None
    else Some(Selection(user.value, offer.value, model.s, price.i, currency.s,
                        Text(image), Text(imageLabel), Text(os), Text(panel)))
  }

  predicate Present(t: Option<string>) {
    t.Some? && t.value != ""
  }

  /** A price to pay, and exactly the facts its billing model shows. */
  predicate Valid(s: Selection) {
    && s.price > 0 && s.currency != ""
    && ((s.model == HOURLY && Present(s.imageId) && Present(s.imageLabel) && s.osName.None? && s.panelName.None?)
        || (s.model == MONTHLY && Present(s.osName) && s.imageId.None? && s.imageLabel.None?))
  }

  lemma RecordFields(s: Selection)
    ensures var r := ToRecord(s);
            && Field(r, "user_id") == JStr(s.user) && Field(r, "offer_id") == JStr(s.offer)
            && Field(r, "billing_model") == JStr(s.model) && Field(r, "selling_price_minor") == JInt(s.price)
            && Field(r, "currency") == JStr(s.currency) && Field(r, "image_id") == OptionalText(s.imageId)
            && Field(r, "image_label") == OptionalText(s.imageLabel) && Field(r, "os_name") == OptionalText(s.osName)
            && Field(r, "panel_name") == OptionalText(s.panelName)
  {
  }

  /** The stored record gives the selection back exactly when it is a valid one, and nothing otherwise. */
  lemma RecordRoundTripIff(s: Selection, parse: ReadUuid)
    requires ReadsCanonical(parse)
    ensures FromRecord(ToRecord(s), parse) == if Valid(s) then Some(s) else None
  {
    RecordFields(s);
    assert |MONTHLY| != |HOURLY|;
  }

  /** Whatever a record holds, what is read from it is valid. */
  lemma ReadSelectionsAreValid(r: Record, parse: ReadUuid)
    requires FromRecord(r, parse).Some?
    ensures Valid(FromRecord(r, parse).value)
    ensures UuidIn(Field(r, "user_id"), parse) == Some(FromRecord(r, parse).value.user)
    ensures UuidIn(Field(r, "offer_id"), parse) == Some(FromRecord(r, parse).value.offer)
    ensures Field(r, "selling_price_minor") == JInt(FromRecord(r, parse).value.price)
    ensures Field(r, "currency") == JStr(FromRecord(r, parse).value.currency)
  {
  }

  // -- remembering and resolving --------------------------------------------

  function CheckoutKey(nonce: string): Key { Key(NS_CHECKOUT, nonce) }

  predicate RefChar(c: char) {
    'a' <= c <= 'z' || 'A' <= c <= 'Z' || '0' <= c <= '9' || c == '_' || c == '-'
  }

  predicate IsNonce(n: string) {
    |n| == REF_LENGTH && forall i :: 0 <= i < |n| ==> RefChar(n[i])
  }

  /** Eight characters of the URL-safe alphabet: letters, digits, dash and underscore, by code. */
  lemma NonceIff(n: string)
    ensures IsNonce(n) <==>
              |n| == 8 &&
              forall i :: 0 <= i < |n| ==>
                var code := n[i] as int;
                48 <= code <= 57 || 65 <= code <= 90 || 97 <= code <= 122 || code == 45 || code == 95
  {
  }

  /** The first of the minted nonces nobody holds. */
  function Winner(s: Store, nonces: seq<string>): Option<string> {
    if nonces == [] then None
    else if CheckoutKey(nonces[0]) !in s.entries then Some(nonces[0])
    else Winner(s, nonces[1..])
  }

  function Resolve(s: Store, user: Uuid, nonce: string, parse: ReadUuid): Option<Selection> {
    if !IsNonce(nonce) then None
    else
      var record := s.Get(CheckoutKey(nonce));
      var selection := if record.Some? then FromRecord(record.value, parse) else None;
      if selection.Some? && selection.value.user == user then selection else None
  }

  datatype RememberError = InvalidSelection | Collision

  class CheckoutSessions {
    const store: InMemoryStore
    const referenceTtl: int
    const parse: ReadUuid

    constructor (store: InMemoryStore, referenceTtl: int, parse: ReadUuid)
      requires referenceTtl >= 30
      ensures this.store == store && this.referenceTtl == referenceTtl && this.parse == parse
    {
      this.store, this.referenceTtl, this.parse := store, referenceTtl, parse;
    }

    method Remember(selection: Selection, nonces: seq<string>) returns (r: Result<string, RememberError>)
      requires referenceTtl >= 30 && |nonces| == 6 && ReadsCanonical(parse)
      modifies store`values
      ensures r == Err(InvalidSelection) <==> !Valid(selection)
      ensures Valid(selection) ==>
                var won := Winner(old(store.Contents()), nonces);
                r == if won.Some? then Ok(won.value) else Err(Collision)
      ensures store.Contents() ==
                if r.Ok? then old(store.Contents()).Put(CheckoutKey(r.value), ToRecord(selection), referenceTtl)
                else old(store.Contents())
    {
      RecordRoundTripIff(selection, parse);
      if FromRecord(ToRecord(selection), parse).None? {
        return Err(InvalidSelection);
      }
      for i := 0 to 6
        invariant store.Contents() == old(store.Contents())
        invariant Winner(old(store.Contents()), nonces) == Winner(old(store.Contents()), nonces[i..])
      {
        var won := store.Claim(NS_CHECKOUT, nonces[i], ToRecord(selection), referenceTtl);
        if won == Ok(true) {
          return Ok(nonces[i]);
        }
        assert nonces[i..][1..] == nonces[i + 1..];
      }
      return Err(Collision);
    }

    method ResolveNonce(user: Uuid, nonce: string) returns (selection: Option<Selection>)
      modifies store`values
      ensures store.Contents() == old(store.Contents())
      ensures selection == Resolve(store.Contents(), user, nonce, parse)
    {
      if !IsNonce(nonce) {
        return None;
      }
      var record := store.Get(NS_CHECKOUT, nonce);
      selection := if record.Some? then FromRecord(record.value, parse) else None;
      if selection.Some? && selection.value.user != user {
        selection := None;
      }
    }
  }

  // -- from confirmation to order -------------------------------------------

  /** The application command a buy button submits, with its idempotency key. */
  datatype Command =
    | Monthly(user: Uuid, offer: Uuid, os: string, panel: Option<string>, price: int, currency: string, key: string)
    | Hourly(user: Uuid, offer: Uuid, image: Option<string>, imageLabel: Option<string>, price: int, currency: string,
             key: string)

  datatype Screen = Buy | CloudBuy

  function KeyPrefix(screen: Screen): string {
    if screen == Buy then "bot-monthly:" else "bot-hourly:"
  }

  /** What a press by `user` on a button of that screen submits, if the selection behind it fits. */
  function CommandFor(screen: Screen, user: Uuid, selection: Selection, nonce: string): Option<Command> {
    var key := KeyPrefix(screen) + nonce;
    match screen
    case Buy =>
      if selection.model != MONTHLY || !Present(selection.osName) then None
      else Some(Monthly(user, selection.offer, selection.osName.value, selection.panelName,
                        selection.price, selection.currency, key))
    case CloudBuy =>
      if selection.model != HOURLY then None
      else Some(Hourly(user, selection.offer, selection.imageId, selection.imageLabel,
                       selection.price, selection.currency, key))
  }

  /** `shown` remembers what each nonce confirmed; `flights` are resolved presses not yet
      submitted; `orders` is the order book by idempotency key. */
  datatype System = System(store: Store, shown: map<string, Selection>, flights: map<nat, Command>,
                           submitted: seq<Command>, orders: map<string, Command>)

  datatype Event =
    | Confirm(selection: Selection, nonces: seq<string>)
    | Press(id: nat, user: Uuid, screen: Screen, nonce: string)
    | Submit(id: nat, accepted: bool)
    | Pass(d: nat)

  /** Nonces never repeat; deliveries have their own names. */
  ghost predicate Enabled(s: System, e: Event) {
    match e
    case Confirm(_, nonces) => forall n :: n in nonces ==> n !in s.shown
    case Press(id, _, _, _) => id !in s.flights
    case Submit(id, _) => id in s.flights
    case Pass(_) => true
  }

  function After(s: System, e: Event, ttl: int, parse: ReadUuid): System
    requires Enabled(s, e)
  {
    match e
    case Confirm(selection, nonces) =>
      var won := Winner(s.store, nonces);
      if !Valid(selection) || won.None? then s
      else s.(store := s.store.Put(CheckoutKey(won.value), ToRecord(selection), ttl),
              shown := s.shown[won.value := selection])
    case Press(id, user, screen, nonce) =>
      var selection := Resolve(s.store, user, nonce, parse);
      if selection.None? || CommandFor(screen, user, selection.value, nonce).None? then s
      else s.(flights := s.flights[id := CommandFor(screen, user, selection.value, nonce).value])
    case Submit(id, accepted) =>
      var command := s.flights[id];
      var t := s.(flights := s.flights - {id}, submitted := s.submitted + [command]);
      // a known key replays the order it made; a new one is ordered or refused
      if command.key in s.orders || !accepted then t
      else t.(orders := s.orders[command.key := command])
    case Pass(d) => s.(store := s.store.Tick(d))
  }

  const START := System(EMPTY, map[], map[], [], map[])

  ghost predicate Run(states: seq<System>, events: seq<Event>, ttl: int, parse: ReadUuid) {
    && ReadsCanonical(parse)
    && |states| == |events| + 1 && states[0] == START
    && forall i :: 0 <= i < |events| ==>
         Enabled(states[i], events[i]) && states[i + 1] == After(states[i], events[i], ttl, parse)
  }

  /** The command is exactly what the confirmation under that nonce showed, for its own customer. */
  ghost predicate AsShown(s: System, command: Command, nonce: string, screen: Screen) {
    nonce in s.shown && CommandFor(screen, s.shown[nonce].user, s.shown[nonce], nonce) == Some(command)
  }

  ghost predicate Honest(s: System, command: Command) {
    exists nonce, screen :: AsShown(s, command, nonce, screen)
  }

  ghost predicate StoreShown(store: Store, shown: map<string, Selection>) {
    forall n :: store.Get(CheckoutKey(n)).Some? ==> n in shown && store.Get(CheckoutKey(n)).value == ToRecord(shown[n])
  }

  ghost predicate AllHonest(s: System) {
    && (forall id :: id in s.flights ==> Honest(s, s.flights[id]))
    && (forall i :: 0 <= i < |s.submitted| ==> Honest(s, s.submitted[i]))
    && (forall k :: k in s.orders ==> s.orders[k].key == k && Honest(s, s.orders[k]))
  }

  ghost predicate Inv(s: System) {
    && StoreShown(s.store, s.shown)
    && (forall n :: n in s.shown ==> Valid(s.shown[n]))
    && AllHonest(s)
  }

  lemma HonestKept(s: System, t: System)
    requires forall n :: n in s.shown ==> n in t.shown && t.shown[n] == s.shown[n]
    ensures forall command :: Honest(s, command) ==> Honest(t, command)
  {
    forall command | Honest(s, command) ensures Honest(t, command) {
      var nonce, screen :| AsShown(s, command, nonce, screen);
      assert AsShown(t, command, nonce, screen);
    }
  }

  lemma {:induction false} WinnerIsListed(s: Store, nonces: seq<string>)
    requires Winner(s, nonces).Some?
    ensures Winner(s, nonces).value in nonces
  {
    if CheckoutKey(nonces[0]) in s.entries {
      WinnerIsListed(s, nonces[1..]);
    }
  }

  lemma ConfirmStored(store: Store, shown: map<string, Selection>, nonce: string, selection: Selection, ttl: int)
    requires StoreShown(store, shown)
    ensures StoreShown(store.Put(CheckoutKey(nonce), ToRecord(selection), ttl), shown[nonce := selection])
  {
  }

  lemma ConfirmKeeps(s: System, e: Event, ttl: int, parse: ReadUuid)
    requires Inv(s) && Enabled(s, e) && e.Confirm?
    ensures Inv(After(s, e, ttl, parse))
  {
    var won := Winner(s.store, e.nonces);
    if won.Some? {
      WinnerIsListed(s.store, e.nonces);
      ConfirmStored(s.store, s.shown, won.value, e.selection, ttl);
    }
    HonestKept(s, After(s, e, ttl, parse));
  }

  lemma PressedIsHonest(s: System, user: Uuid, screen: Screen, nonce: string, parse: ReadUuid)
    requires StoreShown(s.store, s.shown) && ReadsCanonical(parse)
    ensures var selection := Resolve(s.store, user, nonce, parse);
            selection.Some? && CommandFor(screen, user, selection.value, nonce).Some? ==>
              Honest(s, CommandFor(screen, user, selection.value, nonce).value)
  {
    var selection := Resolve(s.store, user, nonce, parse);
    if selection.Some? && CommandFor(screen, user, selection.value, nonce).Some? {
      RecordRoundTripIff(s.shown[nonce], parse);
      assert AsShown(s, CommandFor(screen, user, selection.value, nonce).value, nonce, screen);
    }
  }

  lemma PressKeeps(s: System, e: Event, ttl: int, parse: ReadUuid)
    requires Inv(s) && Enabled(s, e) && e.Press? && ReadsCanonical(parse)
    ensures Inv(After(s, e, ttl, parse))
  {
    PressedIsHonest(s, e.user, e.screen, e.nonce, parse);
    HonestKept(s, After(s, e, ttl, parse));
  }

  /** A submission takes the command of one flight, and may enter it as an order. */
  lemma SubmittedIsHonest(s: System, t: System, id: nat)
    requires AllHonest(s) && id in s.flights && t.shown == s.shown && t.flights == s.flights - {id}
    requires t.submitted == s.submitted + [s.flights[id]]
    requires t.orders == s.orders || t.orders == s.orders[s.flights[id].key := s.flights[id]]
    ensures AllHonest(t)
  {
    HonestKept(s, t);
    assert Honest(t, s.flights[id]);
    forall i | 0 <= i < |t.submitted| ensures Honest(t, t.submitted[i]) {
      if i < |s.submitted| { assert Honest(s, s.submitted[i]); }
    }
  }

  lemma SubmitKeeps(s: System, e: Event, ttl: int, parse: ReadUuid)
    requires Inv(s) && Enabled(s, e) && e.Submit?
    ensures Inv(After(s, e, ttl, parse))
  {
    SubmittedIsHonest(s, After(s, e, ttl, parse), e.id);
  }

  lemma PassKeeps(s: System, d: nat, ttl: int, parse: ReadUuid)
    requires Inv(s)
    ensures Inv(After(s, Pass(d), ttl, parse))
  {
    var t := After(s, Pass(d), ttl, parse);
    forall n | t.store.Get(CheckoutKey(n)).Some?
      ensures n in t.shown && t.store.Get(CheckoutKey(n)).value == ToRecord(t.shown[n])
    {
      assert s.store.Get(CheckoutKey(n)) == t.store.Get(CheckoutKey(n));
    }
    HonestKept(s, t);
  }

  lemma {:induction false} ReachableInv(states: seq<System>, events: seq<Event>, ttl: int, parse: ReadUuid, k: nat)
    requires Run(states, events, ttl, parse) && k < |states|
    ensures Inv(states[k])
  {
    if k > 0 {
      ReachableInv(states, events, ttl, parse, k - 1);
      match events[k - 1]
      case Confirm(_, _) => ConfirmKeeps(states[k - 1], events[k - 1], ttl, parse);
      case Press(_, _, _, _) => PressKeeps(states[k - 1], events[k - 1], ttl, parse);
      case Submit(_, _) => SubmitKeeps(states[k - 1], events[k - 1], ttl, parse);
      case Pass(d) => PassKeeps(states[k - 1], d, ttl, parse);
    }
  }

  lemma KeysNameTheirNonce(a: Screen, x: string, b: Screen, y: string)
    requires KeyPrefix(a) + x == KeyPrefix(b) + y
    ensures a == b && x == y
  {
    var ka, kb := KeyPrefix(a) + x, KeyPrefix(b) + y;
    assert ka[4] == KeyPrefix(a)[4] && kb[4] == KeyPrefix(b)[4];
    assert x == ka[|KeyPrefix(a)|..] && y == kb[|KeyPrefix(b)|..];
  }

  /** Two commands under one key are one and the same command. */
  lemma SameKeySameCommand(s: System, a: Command, b: Command)
    requires Honest(s, a) && Honest(s, b) && a.key == b.key
    ensures a == b
  {
    var x, sx :| AsShown(s, a, x, sx);
    var y, sy :| AsShown(s, b, y, sy);
    KeysNameTheirNonce(sx, x, sy, y);
  }

  /** The command says, fact by fact, what that confirmation showed: its owner, offer, price and
      currency, the OS and panel or the image, under the key of its kind and nonce. */
  predicate Carries(command: Command, shown: Selection, nonce: string) {
    match command
    case Monthly(user, offer, os, panel, price, currency, key) =>
      && shown.model == "prepaid_monthly_fixed"
      && user == shown.user && offer == shown.offer && price == shown.price && currency == shown.currency
      && Some(os) == shown.osName && panel == shown.panelName
      && key == "bot-monthly:" + nonce
    case Hourly(user, offer, image, imageLabel, price, currency, key) =>
      && shown.model == "hourly"
      && user == shown.user && offer == shown.offer && price == shown.price && currency == shown.currency
      && image == shown.imageId && imageLabel == shown.imageLabel
      && key == "bot-hourly:" + nonce
  }

  ghost predicate CarriesShown(s: System, command: Command) {
    exists nonce :: nonce in s.shown && Carries(command, s.shown[nonce], nonce)
  }

  lemma HonestCarries(s: System, command: Command)
    requires Honest(s, command)
    ensures CarriesShown(s, command)
  {
    var nonce, screen :| AsShown(s, command, nonce, screen);
    assert Carries(command, s.shown[nonce], nonce);
  }

  /** A press submits what was shown exactly when its nonce is still remembered, its user is the
      owner, and the button is that of the selection's kind; any other press does nothing. */
  lemma PressIff(states: seq<System>, events: seq<Event>, ttl: int, parse: ReadUuid, k: nat)
    requires Run(states, events, ttl, parse) && k < |events| && events[k].Press?
    ensures var s, e, t := states[k], events[k], states[k + 1];
            if IsNonce(e.nonce) && s.store.Get(CheckoutKey(e.nonce)).Some? && e.nonce in s.shown &&
               s.shown[e.nonce].user == e.user &&
               s.shown[e.nonce].model == (if e.screen == Buy then "prepaid_monthly_fixed" else "hourly")
            then t.flights.Keys == s.flights.Keys + {e.id} && Carries(t.flights[e.id], s.shown[e.nonce], e.nonce)
            else t == s
  {
    ReachableInv(states, events, ttl, parse, k);
    var s, e := states[k], events[k];
    if s.store.Get(CheckoutKey(e.nonce)).Some? {
      assert e.nonce in s.shown && Valid(s.shown[e.nonce]);
      RecordRoundTripIff(s.shown[e.nonce], parse);
    }
    assert |MONTHLY| != |HOURLY|;
  }

  /** A confirmation of valid facts with a free nonce is remembered; nothing else is. */
  lemma ConfirmIff(states: seq<System>, events: seq<Event>, ttl: int, parse: ReadUuid, k: nat)
    requires Run(states, events, ttl, parse) && k < |events| && events[k].Confirm?
    ensures var s, e, t := states[k], events[k], states[k + 1];
            if Valid(e.selection) && exists n :: n in e.nonces && CheckoutKey(n) !in s.store.entries
            then exists n :: n in e.nonces && t.shown == s.shown[n := e.selection] &&
                             t.store.Get(CheckoutKey(n)) == Some(ToRecord(e.selection))
            else t == s
  {
    WinnerIff(states[k].store, events[k].nonces);
  }

  lemma {:induction false} WinnerIff(s: Store, nonces: seq<string>)
    ensures Winner(s, nonces).Some? <==> exists n :: n in nonces && CheckoutKey(n) !in s.entries
    ensures Winner(s, nonces).Some? ==>
              Winner(s, nonces).value in nonces && CheckoutKey(Winner(s, nonces).value) !in s.entries
  {
    if nonces != [] {
      WinnerIff(s, nonces[1..]);
      assert forall n :: n in nonces <==> n == nonces[0] || n in nonces[1..];
    }
  }

  /** An order is entered exactly by a submission that is accepted or whose key is known, and is
      then the command submitted, or the one the key was first used for. */
  lemma SubmitIff(states: seq<System>, events: seq<Event>, ttl: int, parse: ReadUuid, k: nat)
    requires Run(states, events, ttl, parse) && k < |events| && events[k].Submit?
    ensures var s, e, t := states[k], events[k], states[k + 1];
            var command := s.flights[e.id];
            && t.submitted == s.submitted + [command] && e.id !in t.flights
            && (command.key in t.orders <==> e.accepted || command.key in s.orders)
            && (command.key in t.orders ==> t.orders[command.key] == command)
            && forall key :: key != command.key ==>
                 (key in t.orders <==> key in s.orders) && (key in s.orders ==> t.orders[key] == s.orders[key])
  {
    ReachableInv(states, events, ttl, parse, k);
    var s, command := states[k], states[k].flights[events[k].id];
    if command.key in s.orders {
      SameKeySameCommand(s, command, s.orders[command.key]);
    }
  }

  /** Every submission is exactly what some confirmation showed to its owner, and a replayed key
      finds its own order: same owner, offer, OS or image, panel, price and currency. */
  lemma SubmissionsAreAsShown(states: seq<System>, events: seq<Event>, ttl: int, parse: ReadUuid, k: nat, i: nat)
    requires Run(states, events, ttl, parse) && k < |states| && i < |states[k].submitted|
    ensures Honest(states[k], states[k].submitted[i]) && CarriesShown(states[k], states[k].submitted[i])
    ensures states[k].submitted[i].key in states[k].orders ==>
              states[k].orders[states[k].submitted[i].key] == states[k].submitted[i]
  {
    ReachableInv(states, events, ttl, parse, k);
    var s, command := states[k], states[k].submitted[i];
    HonestCarries(s, command);
    if command.key in s.orders {
      SameKeySameCommand(s, command, s.orders[command.key]);
    }
  }

  /** And so is every order in the book. */
  lemma OrdersAreAsShown(states: seq<System>, events: seq<Event>, ttl: int, parse: ReadUuid, k: nat, key: string)
    requires Run(states, events, ttl, parse) && k < |states| && key in states[k].orders
    ensures states[k].orders[key].key == key && CarriesShown(states[k], states[k].orders[key])
  {
    ReachableInv(states, events, ttl, parse, k);
    HonestCarries(states[k], states[k].orders[key]);
  }

  /** Each confirmation leads to at most one order, whatever is pressed how often and where. */
  lemma OneOrderPerNonce(states: seq<System>, events: seq<Event>, ttl: int, parse: ReadUuid, k: nat, a: string,
                         b: string,
                         nonce: string, sa: Screen, sb: Screen)
    requires Run(states, events, ttl, parse) && k < |states|
    requires a in states[k].orders && AsShown(states[k], states[k].orders[a], nonce, sa)
    requires b in states[k].orders && AsShown(states[k], states[k].orders[b], nonce, sb)
    ensures a == b
  {
    ReachableInv(states, events, ttl, parse, k);
    assert |MONTHLY| != |HOURLY|;
  }

  /** Orders are never undone or rewritten by later events. */
  lemma {:induction false} OrdersStay(states: seq<System>, events: seq<Event>, ttl: int, parse: ReadUuid, j: nat,
                                      k: nat, key: string)
    requires Run(states, events, ttl, parse) && j <= k < |states| && key in states[j].orders
    ensures key in states[k].orders && states[k].orders[key] == states[j].orders[key]
    decreases k
  {
    if j < k {
      OrdersStay(states, events, ttl, parse, j, k - 1, key);
    }
  }
}
