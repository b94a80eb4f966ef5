/** The store-backed session object: references, selections and pending actions of My Servers. */
module Sessions {
  import opened Prelude
  import opened SessionStore
  import opened ServerRefs
  import PendingActions
  import Selections

  class ServerSessions {
    const store: InMemoryStore
    const referenceTtl: Ttl
    const promptTtl: Ttl

    constructor (store: InMemoryStore, referenceTtl: Ttl, promptTtl: Ttl)
      ensures this.store == store && this.referenceTtl == referenceTtl && this.promptTtl == promptTtl
    {
      this.store, this.referenceTtl, this.promptTtl := store, referenceTtl, promptTtl;
    }

    /** Refuses a lifetime below 30 seconds. */
    static method Open(store: InMemoryStore, referenceTtl: int, promptTtl: int) returns (r: Option<ServerSessions>)
      ensures r.Some? <==> referenceTtl >= 30 && promptTtl >= 30
      ensures r.Some? ==>
                r.value.store == store && r.value.referenceTtl == referenceTtl && r.value.promptTtl == promptTtl
    {
      if referenceTtl < 30 {
        return None;
      }
      if promptTtl < 30 {
        return None;
      }
      var sessions := new ServerSessions(store, referenceTtl, promptTtl);
      return Some(sessions);
    }

    method MintUniqueRef(customer: Uuid, tokens: seq<string>, fallback: string) returns (ref: string)
      requires |tokens| == 6
      modifies store`values
      ensures store.Contents() == old(store.Contents())
      ensures ref == Minted(store.Contents(), customer, tokens, fallback)
    {
      for i := 0 to 6
        invariant store.Contents() == old(store.Contents())
        invariant Minted(store.Contents(), customer, tokens, fallback) ==
                    Minted(store.Contents(), customer, tokens[i..], fallback)
      {
        var taken := store.Exists(NS_SERVER, Join(customer, tokens[i]));
        if !taken {
          return tokens[i];
        }
        assert tokens[i..][1..] == tokens[i + 1..];
      }
      return fallback;
    }

    method RefForServer(customer: Uuid, server: Uuid, tokens: seq<string>, fallback: string) returns (ref: string)
      requires |tokens| == 6
      modifies store`values
      ensures ref == RefFor(old(store.Contents()), customer, server, tokens, fallback)
      ensures store.Contents() == Issue(old(store.Contents()), customer, server, ref, referenceTtl)
    {
      var existing := store.Get(NS_REFERENCE, Join(customer, server));
      if RefOf(existing).Some? {
        ref := RefOf(existing).value;
      } else {
        ref := MintUniqueRef(customer, tokens, fallback);
      }
      var _ := store.Put(NS_REFERENCE, Join(customer, server), RefRecord(ref), referenceTtl);
      var _ := store.Put(NS_SERVER, Join(customer, ref), ServerRecord(server), referenceTtl);
    }

    method ResolveServer(customer: Uuid, ref: string) returns (server: Option<Uuid>)
      modifies store`values
      ensures store.Contents() == old(store.Contents())
      ensures server == ServerId(store.Contents(), customer, ref)
    {
      if ref == "" || ':' in ref {
        return None;
      }
      var record := store.Get(NS_SERVER, Join(customer, ref));
      return ServerOf(record);
    }

    method Remember(customer: Uuid, ref: string, name: string, items: seq<Selections.PyValue>)
      modifies store`values
      ensures store.Contents() == old(store.Contents()).Put(Selections.SelectionKey(customer, ref, name),
                                                            Selections.RememberRecord(items), referenceTtl)
    {
      var _ := store.Put(Selections.NS_SELECTION, Join(customer, ref + ":" + name), Selections.RememberRecord(items),
                         referenceTtl);
    }

    /** The item behind a pressed button. */
    method PressedSelection(customer: Uuid, ref: string, name: string, index: string)
      returns (item: Option<Selections.PyValue>)
      modifies store`values
      ensures store.Contents() == old(store.Contents())
      ensures item == Selections.Pressed(
                        Selections.SelectionOf(store.Contents().Get(Selections.SelectionKey(customer, ref, name))),
                          index)
    {
      var record := store.Get(Selections.NS_SELECTION, Join(customer, ref + ":" + name));
      return Selections.Pressed(Selections.SelectionOf(record), index);
    }

    method StashAction(slot: PendingActions.Slot, action: PendingActions.Action)
      modifies store`values
      ensures store.Contents() == old(store.Contents()).Put(PendingActions.SlotKey(slot),
                                                            PendingActions.ToRecord(action), referenceTtl)
    {
      var _ := store.Put(PendingActions.NS_ACTION, Join(slot.customer, slot.ref + ":" + slot.nonce),
                         PendingActions.ToRecord(action), referenceTtl);
    }

    /** Consumes the slot, usable or not. */
    method TakeAction(slot: PendingActions.Slot, show: Json -> string) returns (action: Option<PendingActions.Action>)
      modifies store`values
      ensures store.Contents() == old(store.Contents()).Delete(PendingActions.SlotKey(slot))
      ensures var record := old(store.Contents()).Get(PendingActions.SlotKey(slot));
              action == if record.None? then None else PendingActions.FromRecord(record.value, show)
    {
      var record := store.Take(PendingActions.NS_ACTION, Join(slot.customer, slot.ref + ":" + slot.nonce));
      return if record.None? then None else PendingActions.FromRecord(record.value, show);
    }
  }
}
