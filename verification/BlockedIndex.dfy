/**
 * Clients blocked on keys, as values: the two-way index between clients and keys, the counters and
 * the queues, with the lemmas about how each part changes. (src/blocked.c)
 */
module BlockedIndex {
  import opened Common

  type Key = nat
  type ClientId = nat
  type Node = nat
  type Value = nat

  datatype BlockType = NotBlocked | OnList | OnZset | OnStream | OnReplicas | OnModule | Paused

  // keys maps each key waited for to the client's node in that key's waiter list.
  datatype Client = Client(blocked: bool, queued: bool, btype: BlockType, keys: map<Key, Node>,
                           pausedNode: Option<Node>, target: Option<Key>, fromHead: bool, toHead: bool)

  // A node of a waiter list.
  datatype Waiter = Waiter(client: ClientId, node: Node)

  datatype Object = ListObject(items: seq<Value>) | ZsetObject | StreamObject | ModuleObject | OtherObject

  type Clients = map<ClientId, Client>
  type Waiters = map<Key, seq<Waiter>>

  // ---- The index --------------------------------------------------------------------------------

  // The waiter list of a key; a key without waiters has no list.
  function At(blocking: Waiters, k: Key): seq<Waiter> { if k in blocking then blocking[k] else [] }

  ghost predicate Distinct(s: seq<Waiter>) {
    forall i, j | 0 <= i < j < |s| :: s[i].client != s[j].client && s[i].node != s[j].node
  }

  ghost predicate ListsOk(blocking: Waiters, next: Node) {
    (forall k | k in blocking :: blocking[k] != [] && Distinct(blocking[k])) &&
    forall k, w | k in blocking && w in blocking[k] :: w.node < next
  }

  // A client is in a key's waiter list if and only if the key is in the client's table, with the
  // node of that list.
  ghost predicate IndexOk(clients: Clients, blocking: Waiters) {
    (forall k, w | k in blocking && w in blocking[k] ::
      w.client in clients && k in clients[w.client].keys && clients[w.client].keys[k] == w.node) &&
    forall c, k | c in clients && k in clients[c].keys ::
      k in blocking && Waiter(c, clients[c].keys[k]) in blocking[k]
  }

  predicate WaitsForData(t: BlockType) { t == OnList || t == OnZset || t == OnStream }

  ghost predicate TypesOk(clients: Clients) {
    forall c | c in clients :: ClientOk(clients[c])
  }

  ghost predicate ClientOk(c: Client) {
    (c.blocked <==> c.btype != NotBlocked) &&
    (WaitsForData(c.btype) ==> c.keys != map[]) &&
    (c.keys != map[] ==> WaitsForData(c.btype) || c.btype == OnModule) &&
    (c.pausedNode.Some? <==> c.btype == Paused)
  }

  // ---- Counters and queues ------------------------------------------------------------------------

  ghost function OfType(clients: Clients, t: BlockType): set<ClientId> {
    set c | c in clients && clients[c].btype == t
  }

  ghost function AllBlocked(clients: Clients): set<ClientId> {
    set c | c in clients && clients[c].blocked
  }

  ghost predicate CountersOk(clients: Clients, total: nat, byType: map<BlockType, nat>) {
    total == |AllBlocked(clients)| &&
    forall t: BlockType | t != NotBlocked :: t in byType && byType[t] == |OfType(clients, t)|
  }

  ghost predicate NoRepeats<T>(s: seq<T>) { forall i, j | 0 <= i < j < |s| :: s[i] != s[j] }

  ghost predicate QueueOk(clients: Clients, queue: seq<ClientId>) {
    NoRepeats(queue) && forall c :: c in queue <==> c in clients && clients[c].queued
  }

  ghost predicate PausedOk(clients: Clients, paused: seq<Waiter>, next: Node) {
    Distinct(paused) && (forall w | w in paused :: w.node < next) &&
    forall w :: w in paused <==> w.client in clients && clients[w.client].pausedNode == Some(w.node)
  }

  ghost predicate ReadyOk(ready: seq<Key>, readySet: set<Key>) {
    NoRepeats(ready) && forall k :: k in ready <==> k in readySet
  }

  // ---- The key space ------------------------------------------------------------------------------

  ghost predicate NoEmptyLists(db: map<Key, Object>, except: Option<Key>) {
    forall k | k in db && db[k].ListObject? && Some(k) != except :: db[k].items != []
  }

  // Client c waits for a list at k, and there is one.
  ghost predicate Servable(clients: Clients, db: map<Key, Object>, c: ClientId, k: Key) {
    c in clients && clients[c].btype == OnList && k in clients[c].keys && k in db && db[k].ListObject?
  }

  // Whoever could be served waits on a key that is going to be looked at.
  ghost predicate NobodyForgotten(clients: Clients, db: map<Key, Object>, pending: set<Key>) {
    forall c, k | Servable(clients, db, c, k) :: k in pending
  }

  // ---- Removing a client --------------------------------------------------------------------------

  function Without(s: seq<Waiter>, c: ClientId): seq<Waiter> {
    if s == [] then [] else
      Without(s[..|s| - 1], c) + if s[|s| - 1].client == c then [] else [s[|s| - 1]]
  }

  lemma {:induction false} WithoutKeeps(s: seq<Waiter>, c: ClientId)
    ensures forall w :: w in Without(s, c) <==> w in s && w.client != c
  {
    if s != [] { WithoutKeeps(s[..|s| - 1], c); }
  }

  lemma {:induction false} WithoutNone(s: seq<Waiter>, c: ClientId)
    requires forall w | w in s :: w.client != c
    ensures Without(s, c) == s
  {
    if s != [] { WithoutNone(s[..|s| - 1], c); }
  }

  lemma {:induction false} WithoutAppend(s: seq<Waiter>, t: seq<Waiter>, c: ClientId)
    ensures Without(s + t, c) == Without(s, c) + Without(t, c)
  {
    if t == [] {
      assert s + t == s;
    } else {
      assert (s + t)[..|s + t| - 1] == s + t[..|t| - 1];
      WithoutAppend(s, t[..|t| - 1], c);
    }
  }

  // The list without the node at position i, which is the only one of its client.
  lemma {:induction false} WithoutOne(s: seq<Waiter>, i: nat)
    requires i < |s| && Distinct(s)
    ensures Without(s, s[i].client) == s[..i] + s[i + 1..]
  {
    hide Without;
    OthersDiffer(s, i);
    assert s == s[..i] + [s[i]] + s[i + 1..];
    WithoutMiddle(s[..i], s[i], s[i + 1..]);
  }

  lemma {:induction false} WithoutMiddle(before: seq<Waiter>, w: Waiter, after: seq<Waiter>)
    requires forall v | v in before :: v.client != w.client
    requires forall v | v in after :: v.client != w.client
    ensures Without(before + [w] + after, w.client) == before + after
  {
    hide Without;
    WithoutNone(before, w.client);
    WithoutNone(after, w.client);
    WithoutSelf(w);
    WithoutAppend(before + [w], after, w.client);
    WithoutAppend(before, [w], w.client);
  }

  lemma OthersDiffer(s: seq<Waiter>, i: nat)
    requires i < |s| && Distinct(s)
    ensures forall w | w in s[..i] :: w.client != s[i].client
    ensures forall w | w in s[i + 1..] :: w.client != s[i].client
  {}

  lemma WithoutSelf(w: Waiter)
    ensures Without([w], w.client) == []
  {}

  lemma WithoutDistinct(s: seq<Waiter>, i: nat)
    requires i < |s| && Distinct(s)
    ensures Distinct(s[..i] + s[i + 1..])
  {}

  // ---- How the index changes ------------------------------------------------------------------------

  // c's node is taken out of the list of k, and k out of c's table.
  lemma IndexRemove(clients: Clients, blocking: Waiters, c: ClientId, k: Key, clients': Clients, blocking': Waiters)
    requires IndexOk(clients, blocking) && c in clients && k in clients[c].keys
    requires clients' == clients[c := clients[c].(keys := clients[c].keys - {k})]
    requires forall j :: At(blocking', j) == if j == k then Without(At(blocking, k), c) else At(blocking, j)
    ensures IndexOk(clients', blocking')
  {
    WithoutKeeps(At(blocking, k), c);
    forall j, w | j in blocking' && w in blocking'[j]
      ensures w.client in clients' && j in clients'[w.client].keys && clients'[w.client].keys[j] == w.node
    {
      assert w in At(blocking', j);
      assert j in blocking && w in blocking[j];
    }
    forall d, j | d in clients' && j in clients'[d].keys
      ensures j in blocking' && Waiter(d, clients'[d].keys[j]) in blocking'[j]
    {
      var w := Waiter(d, clients[d].keys[j]);
      assert w in At(blocking, j);
      assert w in At(blocking', j);
    }
  }

  // c is appended to the list of k with a new node.
  lemma IndexAdd(clients: Clients, blocking: Waiters, c: ClientId, k: Key, n: Node, clients': Clients, blocking': Waiters)
    requires IndexOk(clients, blocking) && c in clients && k !in clients[c].keys
    requires clients' == clients[c := clients[c].(keys := clients[c].keys[k := n])]
    requires blocking' == blocking[k := At(blocking, k) + [Waiter(c, n)]]
    ensures IndexOk(clients', blocking')
  {
    forall j, w | j in blocking' && w in blocking'[j]
      ensures w.client in clients' && j in clients'[w.client].keys && clients'[w.client].keys[j] == w.node
    {
      if j in blocking && w in blocking[j] {
        assert w.client in clients && j in clients[w.client].keys && clients[w.client].keys[j] == w.node;
      }
    }
  }

  lemma ListsAdd(clients: Clients, blocking: Waiters, c: ClientId, k: Key, n: Node, blocking': Waiters)
    requires IndexOk(clients, blocking) && ListsOk(blocking, n) && c in clients && k !in clients[c].keys
    requires blocking' == blocking[k := At(blocking, k) + [Waiter(c, n)]]
    ensures ListsOk(blocking', n + 1)
  {
    var s := At(blocking, k);
    assert forall i | 0 <= i < |s| :: s[i] in s;
    assert Distinct(s + [Waiter(c, n)]);
  }

  lemma ListsRemove(blocking: Waiters, next: Node, k: Key, i: nat, blocking': Waiters)
    requires ListsOk(blocking, next) && k in blocking && i < |blocking[k]|
    requires var rest := blocking[k][..i] + blocking[k][i + 1..];
             blocking' == if rest == [] then blocking - {k} else blocking[k := rest]
    ensures ListsOk(blocking', next)
    ensures forall j :: At(blocking', j) == if j == k then Without(At(blocking, k), blocking[k][i].client) else At(blocking, j)
  {
    WithoutOne(blocking[k], i);
    WithoutDistinct(blocking[k], i);
  }

  // Any part of a client that is not its key table can change.
  lemma IndexKeeps(clients: Clients, blocking: Waiters, c: ClientId, d: Client)
    requires IndexOk(clients, blocking) && c in clients && d.keys == clients[c].keys
    ensures IndexOk(clients[c := d], blocking)
  {}

  // ---- How the counters and queues change -------------------------------------------------------------

  lemma CountersUnblock(clients: Clients, total: nat, byType: map<BlockType, nat>, c: ClientId, d: Client)
    requires CountersOk(clients, total, byType) && c in clients && clients[c].blocked
    requires clients[c].btype != NotBlocked && d.btype == NotBlocked && !d.blocked
    ensures total > 0 && byType[clients[c].btype] > 0
    ensures CountersOk(clients[c := d], total - 1, byType[clients[c].btype := byType[clients[c].btype] - 1])
  {
    var after, t := clients[c := d], clients[c].btype;
    assert AllBlocked(after) == AllBlocked(clients) - {c};
    assert c in AllBlocked(clients) && c in OfType(clients, t);
    assert OfType(after, t) == OfType(clients, t) - {c};
    OthersKeep(clients, c, d, t);
  }

  lemma CountersBlock(clients: Clients, total: nat, byType: map<BlockType, nat>, c: ClientId, d: Client)
    requires CountersOk(clients, total, byType) && c in clients && !clients[c].blocked
    requires clients[c].btype == NotBlocked && d.btype != NotBlocked && d.blocked
    ensures CountersOk(clients[c := d], total + 1, byType[d.btype := byType[d.btype] + 1])
  {
    var after, t := clients[c := d], d.btype;
    assert AllBlocked(after) == AllBlocked(clients) + {c};
    assert c !in OfType(clients, t);
    assert OfType(after, t) == OfType(clients, t) + {c};
    OthersKeep(clients, c, d, t);
  }

  lemma OthersKeep(clients: Clients, c: ClientId, d: Client, t: BlockType)
    requires c in clients && (clients[c].btype == t || clients[c].btype == NotBlocked)
    requires d.btype == t || d.btype == NotBlocked
    ensures forall u: BlockType | u != t && u != NotBlocked :: OfType(clients[c := d], u) == OfType(clients, u)
  {}

  lemma CountersKeep(clients: Clients, total: nat, byType: map<BlockType, nat>, c: ClientId, d: Client)
    requires CountersOk(clients, total, byType) && c in clients
    requires d.btype == clients[c].btype && d.blocked == clients[c].blocked
    ensures CountersOk(clients[c := d], total, byType)
  {
    assert AllBlocked(clients[c := d]) == AllBlocked(clients);
    assert forall t :: OfType(clients[c := d], t) == OfType(clients, t);
  }

  lemma QueueKeeps(clients: Clients, queue: seq<ClientId>, c: ClientId, d: Client)
    requires QueueOk(clients, queue) && c in clients && d.queued == clients[c].queued
    ensures QueueOk(clients[c := d], queue)
  {}

  lemma PausedKeeps(clients: Clients, paused: seq<Waiter>, next: Node, c: ClientId, d: Client)
    requires PausedOk(clients, paused, next) && c in clients && d.pausedNode == clients[c].pausedNode
    ensures PausedOk(clients[c := d], paused, next)
  {}

  // Unless d waits for more lists than c did, nobody new can be forgotten.
  lemma ForgottenKeeps(clients: Clients, db: map<Key, Object>, pending: set<Key>, c: ClientId, d: Client)
    requires NobodyForgotten(clients, db, pending) && c in clients
    requires d.btype == OnList ==> forall k | k in d.keys && k in db && db[k].ListObject? :: k in pending
    ensures NobodyForgotten(clients[c := d], db, pending)
  {
    var after := clients[c := d];
    forall e, k | Servable(after, db, e, k) ensures k in pending {
      if e != c { assert Servable(clients, db, e, k); }
    }
  }
}
