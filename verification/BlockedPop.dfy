/**
 * A blocking pop from beginning to end: the client blocks, a list is pushed, the client is served.
 * (src/blocked.c, src/t_list.c)
 */
module BlockedPop {
  import opened Common
  import opened BlockedIndex
  import opened BlockedClients
  import opened BlockedLists
  import opened BlockedServing

  // RPUSH of several values.
  method PushAll(server: Server, k: Key, values: seq<Value>)
    requires server.Valid() && k !in server.db
    modifies server`ready, server`readySet, server`db
    ensures server.Valid()
    ensures server.db == if values == [] then old(server.db) else old(server.db)[k := ListObject(values)]
  {
    for i := 0 to |values|
      invariant server.Valid()
      invariant server.db == if i == 0 then old(server.db) else old(server.db)[k := ListObject(values[..i])]
    {
      Push(server, k, values[i], false);
      assert values[..i + 1] == values[..i] + [values[i]];
    }
    assert values[..|values|] == values;
  }

  // Only c waits for a list, and only for the one at k.
  ghost predicate OnlyWaiter(clients: Clients, c: ClientId, k: Key) {
    && c in clients && clients[c].btype == OnList && clients[c].keys.Keys == {k}
    && forall d | d in clients && d != c :: clients[d].btype != OnList
  }

  lemma OnlyOne(was: Clients, clients: Clients, c: ClientId, k: Key)
    requires c in clients && clients[c].btype == OnList && clients.Keys == was.Keys
    requires forall j :: j in clients[c].keys <==> j in [k]
    requires forall d | d in was && d != c :: d in clients && clients[d] == was[d] && was[d].btype != OnList
    ensures OnlyWaiter(clients, c, k)
  {}

  lemma AtMostOne(s: seq<ClientId>, c: ClientId)
    requires NoRepeats(s)
    ensures |s| <= 1 || exists i | 0 <= i < |s| :: s[i] != c
  {
    if |s| > 1 {
      assert s[0] != s[1];
    }
  }

  // Then exactly one reply is sent, or the client still waits although there is a list.
  lemma OneReply(first: Clients, start: seq<Reply>, clients: Clients, db: map<Key, Object>, db': map<Key, Object>,
                 sent: seq<Reply>, a: Trail, c: ClientId, k: Key)
    requires Accounted(first, start, clients, db', sent, a) && OnlyWaiter(first, c, k)
    requires a.dbs != [] && a.dbs[0] == db && a.dbs[|a.dbs| - 1] == db'
    requires k in db && db[k].ListObject?
    ensures || Servable(clients, db', c, k)
            || (&& |sent| == |start| + 1 && start == sent[..|start|] && sent[|start|].client == c
                && Gives(first, db, db', k, sent[|start|]))
  {
    hide Gives, Nonempty;
    var replies := sent[|start|..];
    TrailLength(first, replies, a);
    forall i | 0 <= i < |replies| ensures replies[i].client == c && a.keys[i] == k {
      assert Gives(first, a.dbs[i], a.dbs[i + 1], a.keys[i], replies[i]);
      GivesTo(first, a.dbs[i], a.dbs[i + 1], a.keys[i], replies[i]);
    }
    AtMostOne(Recipients(replies), c);
    if |replies| == 1 {
      assert Gives(first, a.dbs[0], a.dbs[1], a.keys[0], replies[0]);
    }
  }

  lemma GivesTo(clients: Clients, db: map<Key, Object>, db': map<Key, Object>, k: Key, r: Reply)
    requires Gives(clients, db, db', k, r)
    ensures r.client in clients && clients[r.client].btype == OnList && k in clients[r.client].keys
  {}

  /** BLPOP, BRPOP and BLMOVE by the only client that waits, then one push of any number of values: the
      client gets the value at the end it asked for and is unblocked, the rest stays in the list in
      order, and with a destination the value ends up at the end of it that was asked for. A
      destination that is no list is reported, and the list keeps all values. */
  method BlockPushServe(server: Server, c: ClientId, k: Key, target: Option<Key>, ends: Ends, values: seq<Value>)
    requires server.Valid() && c in server.clients && !server.clients[c].blocked
    requires forall d | d in server.clients :: server.clients[d].btype != OnList
    requires k !in server.db && values != [] && target != Some(k)
    modifies server
    ensures server.Valid() && c in server.clients && !server.clients[c].blocked
    ensures |server.sent| == |old(server.sent)| + 1 && old(server.sent) == server.sent[..|old(server.sent)|]
    ensures var v := if ends.fromHead then values[0] else values[|values| - 1];
            var left := if ends.fromHead then values[1..] else values[..|values| - 1];
            var reply, items := server.sent[|old(server.sent)|], ItemsAt(server.db, k);
            if target.None? then reply == Popped(c, k, v) && items == left
            else if target.value in old(server.db) && !old(server.db[target.value]).ListObject? then
              reply == WrongType(c) && items == values
            else
              var there := old(ItemsAt(server.db, target.value));
              && reply == Moved(c, v) && items == left
              && ItemsAt(server.db, target.value) == if ends.toHead then [v] + there else there + [v]
  {
    hide IndexOk, ListsOk, CountersOk, QueueOk, PausedOk, ReadyOk, TypesOk, NoEmptyLists, NobodyForgotten, Accounted,
         Gives, OnlyWaiter, Servable, At;
    ghost var was := server.clients;
    server.BlockForKeys(c, OnList, [k], target, Some(ends));
    ghost var first, start := server.clients, server.sent;
    OnlyOne(was, first, c, k);
    PushAll(server, k, values);
    ghost var pushed := server.db;
    ghost var a := HandleClientsBlockedOnKeys(server);
    OneReply(first, start, server.clients, pushed, server.db, server.sent, a, c, k);
    ServedClient(first, start, server.clients, server.db, server.sent, a);
    Outcome(first[c], pushed, server.db, k, server.sent[|start|], values, first);
  }

  lemma ServedClient(first: Clients, start: seq<Reply>, clients: Clients, db: map<Key, Object>, sent: seq<Reply>, a: Trail)
    requires Accounted(first, start, clients, db, sent, a) && |sent| == |start| + 1
    requires sent[|start|].client in first
    ensures sent[|start|].client in clients && !clients[sent[|start|].client].blocked
  {
    assert Recipients(sent[|start|..])[0] == sent[|start|].client;
  }

  lemma Outcome(w: Client, db: map<Key, Object>, db': map<Key, Object>, k: Key, r: Reply, values: seq<Value>, first: Clients)
    requires Gives(first, db, db', k, r) && r.client in first && first[r.client] == w
    requires k in db && db[k] == ListObject(values) && values != [] && w.target != Some(k)
    ensures var v := if w.fromHead then values[0] else values[|values| - 1];
            var left := if w.fromHead then values[1..] else values[..|values| - 1];
            if w.target.None? then r == Popped(r.client, k, v) && ItemsAt(db', k) == left
            else if w.target.value in db && !db[w.target.value].ListObject? then
              r == WrongType(r.client) && ItemsAt(db', k) == values
            else
              var there := ItemsAt(db, w.target.value);
              && r == Moved(r.client, v) && ItemsAt(db', k) == left
              && ItemsAt(db', w.target.value) == if w.toHead then [v] + there else there + [v]
  {}
}
