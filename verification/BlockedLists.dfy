/**
 * Lists as the blocked clients see them: what a pop takes, where a moved value goes, and the account
 * of everything that was handed out. (src/blocked.c, src/t_list.c)
 */
module BlockedLists {
  import opened Common
  import opened BlockedIndex
  import opened BlockedClients

  function ItemsAt(db: map<Key, Object>, k: Key): seq<Value> {
    if k in db && db[k].ListObject? then db[k].items else []
  }

  function Pushed(items: seq<Value>, v: Value, toHead: bool): seq<Value> { if toHead then [v] + items else items + [v] }

  function End(items: seq<Value>, fromHead: bool): Value
    requires items != []
  {
    if fromHead then items[0] else items[|items| - 1]
  }

  function Shortened(items: seq<Value>, fromHead: bool): seq<Value>
    requires items != []
  {
    if fromHead then items[1..] else items[..|items| - 1]
  }

  lemma PutBack(items: seq<Value>, fromHead: bool)
    requires items != []
    ensures Pushed(Shortened(items, fromHead), End(items, fromHead), fromHead) == items
  {}

  function WithPush(db: map<Key, Object>, t: Key, v: Value, toHead: bool): map<Key, Object> {
    db[t := ListObject(Pushed(ItemsAt(db, t), v, toHead))]
  }

  // What a reply says about the key space before and after it, for a waiter c of k.
  ghost predicate Delivers(c: Client, db: map<Key, Object>, db': map<Key, Object>, k: Key, r: Reply)
    requires ItemsAt(db, k) != []
  {
    var v := End(ItemsAt(db, k), c.fromHead);
    var popped := db[k := ListObject(Shortened(ItemsAt(db, k), c.fromHead))];
    match r
    case WrongType(_) => c.target.Some? && c.target.value in db && !db[c.target.value].ListObject? && db' == db
    case Popped(_, key, x) => c.target.None? && key == k && x == v && db' == popped
    case Moved(_, x) =>
      && c.target.Some? && (c.target.value in db ==> db[c.target.value].ListObject?)
      && x == v && db' == WithPush(popped, c.target.value, v, c.toHead)
  }

  // ---- The account --------------------------------------------------------------------------------

  // The key space without empty lists, which exist only while a command runs.
  function Nonempty(db: map<Key, Object>): map<Key, Object> {
    map k | k in db && db[k] != ListObject([]) :: db[k]
  }

  // Reply r to a client that waits for k: the value at the end it asked for goes to itself, or to the
  // end it asked for of the list it named; if what it named is no list, everything stays.
  ghost predicate Gives(clients: Clients, db: map<Key, Object>, db': map<Key, Object>, k: Key, r: Reply) {
    && r.client in clients
    && var c, items := clients[r.client], ItemsAt(db, k);
    && c.btype == OnList && k in c.keys && items != []
    && var v := if c.fromHead then items[0] else items[|items| - 1];
       var popped := db[k := ListObject(if c.fromHead then items[1..] else items[..|items| - 1])];
       match r
       case Popped(_, key, x) => key == k && x == v && c.target.None? && db' == Nonempty(popped)
       case Moved(_, x) =>
         && x == v && c.target.Some? && (c.target.value in db ==> db[c.target.value].ListObject?)
         && var there := ItemsAt(popped, c.target.value);
            db' == Nonempty(popped[c.target.value := ListObject(if c.toHead then [v] + there else there + [v])])
       case WrongType(_) => c.target.Some? && c.target.value in db && !db[c.target.value].ListObject? && db' == db
  }

  lemma ItemsNonempty(db: map<Key, Object>, k: Key)
    ensures ItemsAt(Nonempty(db), k) == ItemsAt(db, k)
  {}

  lemma NonemptyUpdate(db: map<Key, Object>, k: Key, items: seq<Value>)
    ensures Nonempty(Nonempty(db)[k := ListObject(items)]) == Nonempty(db[k := ListObject(items)])
  {}

  lemma NonemptyTwice(db: map<Key, Object>, k: Key, items: seq<Value>, t: Key, items': seq<Value>)
    ensures Nonempty(Nonempty(db)[k := ListObject(items)][t := ListObject(items')])
         == Nonempty(db[k := ListObject(items)][t := ListObject(items')])
  {}

  lemma NonemptyOnly(db: map<Key, Object>)
    requires NoEmptyLists(db, None)
    ensures Nonempty(db) == db
  {}

  lemma NonemptyDelete(db: map<Key, Object>, k: Key)
    requires k in db && db[k] == ListObject([])
    ensures Nonempty(db - {k}) == Nonempty(db)
  {}

  lemma DeliversGives(clients: Clients, db: map<Key, Object>, db': map<Key, Object>, k: Key, r: Reply)
    requires r.client in clients && clients[r.client].btype == OnList && k in clients[r.client].keys
    requires ItemsAt(db, k) != [] && Delivers(clients[r.client], db, db', k, r)
    ensures Gives(clients, Nonempty(db), Nonempty(db'), k, r)
  {
    hide Nonempty;
    var c, items := clients[r.client], ItemsAt(db, k);
    var left := Shortened(items, c.fromHead);
    ItemsNonempty(db, k);
    NonemptyUpdate(db, k, left);
    if c.target.Some? {
      var t := c.target.value;
      NonemptyHas(db, t);
      var there := ItemsAt(db[k := ListObject(left)], t);
      ItemsNonempty(db, t);
      NonemptyTwice(db, k, left, t, Pushed(there, End(items, c.fromHead), c.toHead));
    }
  }

  lemma NonemptyHas(db: map<Key, Object>, t: Key)
    ensures t in Nonempty(db) <==> t in db && db[t] != ListObject([])
    ensures t in Nonempty(db) ==> Nonempty(db)[t] == db[t]
  {}

  function Recipients(replies: seq<Reply>): seq<ClientId> {
    seq(|replies|, i requires 0 <= i < |replies| => replies[i].client)
  }

  // For each reply the key it was served from, and the key space before, between and after the replies.
  datatype Trail = Trail(keys: seq<Key>, dbs: seq<map<Key, Object>>)

  ghost predicate TrailOk(first: Clients, replies: seq<Reply>, a: Trail) {
    && |a.keys| == |replies| && |a.dbs| == |replies| + 1
    && forall i | 0 <= i < |replies| :: Gives(first, a.dbs[i], a.dbs[i + 1], a.keys[i], replies[i])
  }

  // The replies since `start`, when the clients were `first`: each client got at most one, which
  // unblocked it, and nobody else changed.
  ghost predicate Accounted(
    first: Clients, start: seq<Reply>, clients: Clients, db: map<Key, Object>, sent: seq<Reply>, a: Trail)
  {
    && start <= sent && TrailOk(first, sent[|start|..], a) && a.dbs[|a.keys|] == Nonempty(db)
    && NoRepeats(Recipients(sent[|start|..])) && clients.Keys == first.Keys
    && forall c | c in first ::
         clients[c] == if c in Recipients(sent[|start|..]) then Unblocked(first[c]) else first[c]
  }

  lemma AccountStart(clients: Clients, db: map<Key, Object>, sent: seq<Reply>)
    ensures Accounted(clients, sent, clients, db, sent, Trail([], [Nonempty(db)]))
  {
    hide Nonempty, Gives, Unblocked;
    assert sent[|sent|..] == [];
  }

  lemma AccountSame(
    first: Clients, start: seq<Reply>, clients: Clients, db: map<Key, Object>, db': map<Key, Object>, sent: seq<Reply>, a: Trail)
    requires Accounted(first, start, clients, db, sent, a) && Nonempty(db') == Nonempty(db)
    ensures Accounted(first, start, clients, db', sent, a)
  {}

  lemma AccountEnd(first: Clients, start: seq<Reply>, clients: Clients, db: map<Key, Object>, sent: seq<Reply>, a: Trail)
    requires Accounted(first, start, clients, db, sent, a)
    ensures a.dbs != [] && a.dbs[|a.dbs| - 1] == Nonempty(db)
  {}

  lemma TrailNext(first: Clients, replies: seq<Reply>, a: Trail, k: Key, r: Reply, db': map<Key, Object>)
    requires TrailOk(first, replies, a) && Gives(first, a.dbs[|a.keys|], db', k, r)
    ensures TrailOk(first, replies + [r], Trail(a.keys + [k], a.dbs + [db']))
  {
    hide Gives;
  }

  lemma RecipientsNext(replies: seq<Reply>, r: Reply)
    ensures Recipients(replies + [r]) == Recipients(replies) + [r.client]
  {}

  // One more reply.
  lemma AccountNext(
    first: Clients, start: seq<Reply>, clients: Clients, db: map<Key, Object>, sent: seq<Reply>, a: Trail,
    k: Key, r: Reply, db': map<Key, Object>)
    requires Accounted(first, start, clients, db, sent, a)
    requires r.client in clients && clients[r.client].btype == OnList && k in clients[r.client].keys
    requires ItemsAt(db, k) != [] && Delivers(clients[r.client], db, db', k, r)
    ensures Accounted(first, start, clients[r.client := Unblocked(clients[r.client])], db', sent + [r],
                      Trail(a.keys + [k], a.dbs + [Nonempty(db')]))
  {
    hide Nonempty, Gives, Delivers, TrailOk, Recipients;
    var replies := sent[|start|..];
    assert (sent + [r])[|start|..] == replies + [r];
    assert r.client !in Recipients(replies);
    DeliversGives(clients, db, db', k, r);
    GivesFirst(clients, first, Nonempty(db), Nonempty(db'), k, r);
    TrailNext(first, replies, a, k, r, Nonempty(db'));
    TrailLength(first, replies, a);
    RecipientsNext(replies, r);
  }

  lemma TrailLength(first: Clients, replies: seq<Reply>, a: Trail)
    requires TrailOk(first, replies, a)
    ensures |a.keys| == |replies| && |a.dbs| == |replies| + 1
  {}

  lemma GivesFirst(clients: Clients, first: Clients, db: map<Key, Object>, db': map<Key, Object>, k: Key, r: Reply)
    requires Gives(clients, db, db', k, r) && r.client in first && first[r.client] == clients[r.client]
    ensures Gives(first, db, db', k, r)
  {
    hide Nonempty;
  }
}
