/**
 Reference-counted packets (radio2/src/packet.c).  The store holds the packets that are
 allocated; freeing the last reference removes a packet from it.
 */
module Packet {
  import Node

  datatype Counted = Counted(packet: Node.Packet, refcount: nat)

  type Store = map<nat, Counted>

  /** packet_new: an id not used before, with one reference. */
  function New(store: Store, id: nat, p: Node.Packet): Store {
    store[id := Counted(p, 1)]
  }

  /** packet_clone: the source asserts that the packet is live. */
  function Clone(store: Store, id: nat): Store
    requires id in store
  {
    store[id := store[id].(refcount := store[id].refcount + 1)]
  }

  /** packet_free: the source asserts that a reference is left; the last one frees the packet. */
  function Free(store: Store, id: nat): Store
    requires id in store && store[id].refcount > 0
  {
    if store[id].refcount == 1 then store - {id}
    else store[id := store[id].(refcount := store[id].refcount - 1)]
  }

  // ---------- Counting references ----------

  /** Each live packet has as many references as there are holders of it, and at least one. */
  ghost predicate Balanced(store: Store, holders: multiset<nat>) {
    && (forall id :: id in holders ==> id in store)
    && (forall id :: id in store ==> store[id].refcount == holders[id] > 0)
  }

  lemma NewBalanced(store: Store, holders: multiset<nat>, id: nat, p: Node.Packet)
    requires Balanced(store, holders) && id !in store
    ensures Balanced(New(store, id, p), holders + multiset{id})
  {
  }

  lemma CloneBalanced(store: Store, holders: multiset<nat>, id: nat)
    requires Balanced(store, holders) && id in holders
    ensures Balanced(Clone(store, id), holders + multiset{id})
  {
  }

  /** Giving back one held reference keeps the balance; the packet goes exactly when that was the last. */
  lemma FreeBalanced(store: Store, holders: multiset<nat>, id: nat)
    requires Balanced(store, holders) && id in holders
    ensures Balanced(Free(store, id), holders - multiset{id})
    ensures id in Free(store, id) <==> id in holders - multiset{id}
  {
  }

  /** With no holder left nothing is allocated. */
  lemma NothingHeld(store: Store)
    requires Balanced(store, multiset{})
    ensures store == map[]
  {
  }
}
