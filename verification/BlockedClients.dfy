/**
 * Blocking and unblocking clients, signalling keys and serving the clients blocked on lists, on
 * fields updated in place. (src/blocked.c, src/t_list.c, src/db.c)
 */
module BlockedClients {
  import opened Common
  import opened BlockedIndex

  datatype Reply = Popped(client: ClientId, key: Key, value: Value) | Moved(client: ClientId, value: Value) | WrongType(client: ClientId)

  ghost predicate BlockingOk(clients: Clients, blocking: Waiters, next: Node, total: nat, byType: map<BlockType, nat>,
                             queue: seq<ClientId>, paused: seq<Waiter>, c: ClientId)
  {
    ListsOk(blocking, next) && IndexOk(clients, blocking) && TypesExcept(clients, c) &&
    CountersOk(clients, total, byType) && QueueOk(clients, queue) && PausedOk(clients, paused, next)
  }

  ghost predicate TypesExcept(clients: Clients, c: ClientId) {
    forall d | d in clients && d != c :: ClientOk(clients[d])
  }

  // The end a value is taken from and the end of the target it goes to.
  datatype Ends = Ends(fromHead: bool, toHead: bool)

  function WithTarget(c: Client, target: Option<Key>, ends: Option<Ends>): Client {
    c.(target := target,
       fromHead := if ends.Some? then ends.value.fromHead else c.fromHead,
       toHead := if ends.Some? then ends.value.toHead else c.toHead)
  }

  // A client after unblockClient.
  function Unblocked(c: Client): Client {
    c.(blocked := false, queued := true, btype := NotBlocked, keys := map[], pausedNode := None,
       target := if c.keys == map[] then c.target else None)
  }

  function IndexOfNode(s: seq<Waiter>, n: Node): (i: nat)
    requires exists w :: w in s && w.node == n
    ensures i < |s| && s[i].node == n
  {
    if s[0].node == n then 0 else
      assert s == [s[0]] + s[1..];
      1 + IndexOfNode(s[1..], n)
  }

  class Server {
    var clients: Clients
    var blocking: Waiters
    var next: Node
    var total: nat
    var byType: map<BlockType, nat>
    var queue: seq<ClientId>
    var paused: seq<Waiter>
    var ready: seq<Key>
    var readySet: set<Key>
    var db: map<Key, Object>
    var sent: seq<Reply>

    ghost predicate Core()
      reads this
    {
      ListsOk(blocking, next) && IndexOk(clients, blocking) && TypesOk(clients) &&
      CountersOk(clients, total, byType) && QueueOk(clients, queue) && PausedOk(clients, paused, next)
    }

    ghost predicate Valid()
      reads this
    {
      Core() && ReadyOk(ready, readySet) && NoEmptyLists(db, None) && NobodyForgotten(clients, db, readySet)
    }

    constructor (ids: set<ClientId>)
      ensures Valid() && clients.Keys == ids
    {
      var free := Client(false, false, NotBlocked, map[], None, None, false, false);
      clients := map c | c in ids :: free;
      blocking, next, total, queue, paused, ready, readySet, db, sent := map[], 0, 0, [], [], [], {}, map[], [];
      byType := map[OnList := 0, OnZset := 0, OnStream := 0, OnReplicas := 0, OnModule := 0, Paused := 0];
      new;
      assert AllBlocked(clients) == {};
      assert forall t | t != NotBlocked :: OfType(clients, t) == {};
    }

    // ---- Blocking -------------------------------------------------------------------------------

    method BlockClient(c: ClientId, btype: BlockType)
      requires ListsOk(blocking, next) && IndexOk(clients, blocking) && TypesExcept(clients, c)
      requires CountersOk(clients, total, byType) && QueueOk(clients, queue) && PausedOk(clients, paused, next)
      requires c in clients && !clients[c].blocked && clients[c].btype == NotBlocked && clients[c].pausedNode == None
      requires btype != NotBlocked
      requires WaitsForData(btype) ==> clients[c].keys != map[]
      requires clients[c].keys != map[] ==> WaitsForData(btype) || btype == OnModule
      modifies `clients, `total, `byType, `paused, `next
      ensures Core()
      ensures total == old(total) + 1
      ensures clients == old(clients)[c := old(clients)[c].(blocked := true, btype := btype,
                pausedNode := if btype == Paused then Some(old(next)) else None)]
      ensures paused == old(paused) + if btype == Paused then [Waiter(c, old(next))] else []
      ensures btype != OnList && old(NobodyForgotten(clients, db, readySet)) ==> NobodyForgotten(clients, db, readySet)
    {
      hide IndexOk, ListsOk, TypesOk, TypesExcept, CountersOk, QueueOk, PausedOk, NobodyForgotten;
      var d := clients[c].(blocked := true, btype := btype, pausedNode := if btype == Paused then Some(next) else None);
      BlockKeeps(clients, blocking, total, byType, queue, c, d);
      PausedBlocks(clients, blocking, paused, next, c, d);
      ForgottenBlocks(clients, db, readySet, c, d);
      if btype == Paused {
        paused := paused + [Waiter(c, next)];
        next := next + 1;
      }
      total := total + 1;
      byType := byType[btype := byType[btype] + 1];
      clients := clients[c := d];
    }

    // Everything but the type of c, which is on its way to being blocked.
    ghost predicate Blocking(c: ClientId)
      reads this
    {
      BlockingOk(clients, blocking, next, total, byType, queue, paused, c)
    }

    // Which ends of the lists are meant is said for lists only.
    method BlockForKeys(c: ClientId, btype: BlockType, keys: seq<Key>, target: Option<Key>, ends: Option<Ends>)
      requires Valid() && c in clients && !clients[c].blocked
      requires (WaitsForData(btype) || btype == OnModule) && keys != []
      requires btype == OnList ==> forall k | k in keys :: k !in db || !db[k].ListObject?
      modifies `clients, `blocking, `next, `total, `byType, `paused
      ensures Valid()
      ensures c in clients && clients[c].btype == btype && clients[c].blocked && clients[c].target == target
      ensures ends.Some? ==> clients[c].fromHead == ends.value.fromHead && clients[c].toHead == ends.value.toHead
      ensures ends.None? ==> clients[c].fromHead == old(clients[c].fromHead) && clients[c].toHead == old(clients[c].toHead)
      ensures clients[c].queued == old(clients[c].queued) && clients[c].pausedNode == None
      ensures clients.Keys == old(clients.Keys) && total == old(total) + 1
      ensures forall k :: k in clients[c].keys <==> k in keys
      ensures forall d | d in old(clients) && d != c :: d in clients && clients[d] == old(clients[d])
      ensures forall k :: At(blocking, k) == old(At(blocking, k)) + Entry(c, clients[c].keys, k, keys)
    {
      hide IndexOk, ListsOk, CountersOk, QueueOk, PausedOk, ClientOk, NobodyForgotten, At, ReadyOk, NoEmptyLists;
      FreeClient(clients[c]);
      SetTarget(c, target, ends);
      AddKeys(c, keys);
      assert keys[0] in clients[c].keys;
      BlockClient(c, btype);
      assert clients == old(clients)[c := clients[c]];
      ForgottenKeeps(old(clients), db, readySet, c, clients[c]);
    }

    method AddKeys(c: ClientId, keys: seq<Key>)
      requires Blocking(c) && c in clients && clients[c].keys == map[]
      modifies `clients, `blocking, `next
      ensures Blocking(c) && c in clients && OnlyKeys(old(clients), clients, c)
      ensures forall k :: k in clients[c].keys <==> k in keys
      ensures forall k :: At(blocking, k) == old(At(blocking, k)) + Entry(c, clients[c].keys, k, keys)
    {
      hide BlockingOk, At, OnlyKeys;
      OnlyKeysSame(clients, c);
      for j := 0 to |keys|
        invariant Blocking(c) && c in clients && OnlyKeys(old(clients), clients, c)
        invariant forall k :: k in clients[c].keys <==> k in keys[..j]
        invariant forall k :: At(blocking, k) == old(At(blocking, k)) + Entry(c, clients[c].keys, k, keys[..j])
      {
        assert keys[..j + 1] == keys[..j] + [keys[j]];
        ghost var before := clients;
        AddKey(c, keys[j]);
        OnlyKeysTwice(old(clients), before, clients, c);
      }
      assert keys[..|keys|] == keys;
    }

    method SetTarget(c: ClientId, target: Option<Key>, ends: Option<Ends>)
      requires Core() && c in clients
      modifies `clients
      ensures IndexOk(clients, blocking) && TypesExcept(clients, c)
      ensures CountersOk(clients, total, byType) && QueueOk(clients, queue) && PausedOk(clients, paused, next)
      ensures clients == old(clients)[c := WithTarget(old(clients)[c], target, ends)]
    {
      hide IndexOk, CountersOk, QueueOk, PausedOk, ClientOk;
      var d := clients[c].(target := target);
      if ends.Some? {
        d := d.(fromHead := ends.value.fromHead, toHead := ends.value.toHead);
      }
      IndexKeeps(clients, blocking, c, d);
      CountersKeep(clients, total, byType, c, d);
      QueueKeeps(clients, queue, c, d);
      PausedKeeps(clients, paused, next, c, d);
      clients := clients[c := d];
    }

    // One key of blockForKeys; a key already in the client's table is ignored.
    method AddKey(c: ClientId, k: Key)
      requires Blocking(c) && c in clients
      modifies `clients, `blocking, `next
      ensures Blocking(c)
      ensures c in clients && OnlyKeys(old(clients), clients, c)
      ensures k in old(clients[c].keys) ==> clients[c].keys == old(clients[c].keys) && blocking == old(blocking)
      ensures k !in old(clients[c].keys) ==> clients[c].keys == old(clients[c].keys)[k := old(next)]
      ensures k !in old(clients[c].keys) ==> At(blocking, k) == old(At(blocking, k)) + [Waiter(c, old(next))]
      ensures forall j | j != k :: At(blocking, j) == old(At(blocking, j))
    {
      if k in clients[c].keys { return; }
      hide BlockingOk;
      AddKeyKeeps(clients, blocking, next, total, byType, queue, paused, c, k);
      var d := clients[c].(keys := clients[c].keys[k := next]);
      blocking := blocking[k := At(blocking, k) + [Waiter(c, next)]];
      clients, next := clients[c := d], next + 1;
    }

    // ---- Unblocking -----------------------------------------------------------------------------

    // Takes the client out of the waiter list of every key in its table.
    method UnblockClientWaitingData(c: ClientId)
      requires ListsOk(blocking, next) && IndexOk(clients, blocking) && c in clients && clients[c].keys != map[]
      modifies `clients, `blocking
      ensures ListsOk(blocking, next) && IndexOk(clients, blocking)
      ensures clients == old(clients)[c := old(clients)[c].(keys := map[], target := None)]
      ensures forall k :: At(blocking, k) == Without(old(At(blocking, k)), c)
    {
      hide IndexOk, ListsOk, At, Without, View, TakenOut;
      var todo := clients[c].keys.Keys;
      ghost var all := todo;
      ViewAll(clients, c);
      NoneTaken(blocking, c);
      while todo != {}
        invariant clients == old(clients) && all == clients[c].keys.Keys && todo <= all
        invariant ListsOk(blocking, next) && IndexOk(View(clients, c, todo), blocking)
        invariant TakenOut(old(blocking), blocking, c, all - todo)
      {
        var k :| k in todo;
        ghost var before := blocking;
        ViewOne(clients, c, todo, k);
        ListedAt(View(clients, c, todo), blocking, c, k);
        RemoveNode(k, clients[c].keys[k], c);
        IndexRemove(View(clients, c, todo), before, c, k, View(clients, c, todo - {k}), blocking);
        OneTaken(old(blocking), before, blocking, c, all - todo, k);
        assert all - todo + {k} == all - (todo - {k});
        todo := todo - {k};
      }
      ViewNone(clients, c);
      AllTaken(clients, old(blocking), blocking, c, all - todo);
      clients := clients[c := clients[c].(keys := map[], target := None)];
    }

    // Deletes a node from the waiter list of k, and the list with its last node.
    method RemoveNode(k: Key, n: Node, ghost c: ClientId)
      requires ListsOk(blocking, next) && k in blocking && Waiter(c, n) in blocking[k]
      modifies `blocking
      ensures ListsOk(blocking, next)
      ensures forall j :: At(blocking, j) == if j == k then Without(old(At(blocking, k)), c) else old(At(blocking, j))
    {
      hide At, Without;
      var l := blocking[k];
      var i := IndexOfNode(l, n);
      SameNode(l, i, Waiter(c, n));
      var rest := l[..i] + l[i + 1..];
      ListsRemove(blocking, next, k, i, if rest == [] then blocking - {k} else blocking[k := rest]);
      AtOf(blocking, k);
      blocking := blocking[k := rest];
      if |rest| == 0 { blocking := blocking - {k}; }
      assert blocking == if rest == [] then old(blocking) - {k} else old(blocking)[k := rest];
    }

    /** Takes the client out of every queue of its kind of blocking and schedules it for reprocessing. */
    method UnblockClient(c: ClientId)
      requires Core() && c in clients && clients[c].blocked
      modifies `clients, `blocking, `total, `byType, `paused, `queue
      ensures Core() && total == old(total) - 1
      ensures clients == old(clients)[c := Unblocked(old(clients)[c])]
      ensures !clients[c].blocked && clients[c].btype == NotBlocked && clients[c].keys == map[] && clients[c].queued
      ensures forall k :: At(blocking, k) == Without(old(At(blocking, k)), c)
      ensures queue == old(queue) + if old(clients[c].queued) then [] else [c]
      ensures old(Valid()) ==> Valid()
    {
      hide IndexOk, ListsOk, TypesOk, CountersOk, QueueOk, PausedOk, At, Without, Unblocked, NobodyForgotten, ReadyOk, NoEmptyLists;
      Unblocks(clients, total, byType, queue, c);
      var t := clients[c].btype;
      LeaveQueues(c);
      total := total - 1;
      byType := byType[t := byType[t] - 1];
      clients := clients[c := clients[c].(blocked := false, btype := NotBlocked)];
      assert clients == old(clients)[c := clients[c]];
      QueueClientForReprocessing(c);
      Finished(old(clients), clients, c);
      UnblockedFields(old(clients)[c]);
      ForgottenBlocks(old(clients), db, readySet, c, clients[c]);
    }

    method QueueClientForReprocessing(c: ClientId)
      requires c in clients
      modifies `clients, `queue
      ensures clients == old(clients)[c := old(clients)[c].(queued := true)]
      ensures queue == old(queue) + if old(clients[c].queued) then [] else [c]
    {
      if !clients[c].queued {
        clients := clients[c := clients[c].(queued := true)];
        queue := queue + [c];
      }
    }

    // The part of unblockClient that depends on what the client is blocked for.
    method LeaveQueues(c: ClientId)
      requires Core() && c in clients && clients[c].blocked
      modifies `clients, `blocking, `paused
      ensures c in clients && ListsOk(blocking, next) && IndexOk(old(clients)[c := Unblocked(old(clients)[c])], blocking)
      ensures clients == old(clients)[c := Unblocked(old(clients)[c]).(blocked := true, btype := old(clients)[c].btype, queued := old(clients)[c].queued)]
      ensures PausedOk(old(clients)[c := Unblocked(old(clients)[c])], paused, next)
      ensures forall k :: At(blocking, k) == Without(old(At(blocking, k)), c)
    {
      hide IndexOk, ListsOk, CountersOk, QueueOk, PausedOk, At, Without;
      ghost var d := Unblocked(clients[c]);
      if WaitsForData(clients[c].btype) || (clients[c].btype == OnModule && clients[c].keys != map[]) {
        PausedKeeps(clients, paused, next, c, d);
        UnblockClientWaitingData(c);
      } else {
        forall k ensures At(blocking, k) == Without(At(blocking, k), c) { NotListed(clients, blocking, c, k); }
        if clients[c].btype == Paused {
          LeavePaused(c);
        } else {
          PausedKeeps(clients, paused, next, c, d);
        }
      }
      IndexKeeps(clients, blocking, c, d);
      assert clients[c := d] == old(clients)[c := d];
    }

    method LeavePaused(c: ClientId)
      requires Core() && c in clients && clients[c].btype == Paused
      modifies `clients, `paused
      ensures clients == old(clients)[c := old(clients)[c].(pausedNode := None)]
      ensures PausedOk(old(clients)[c := Unblocked(old(clients)[c])], paused, next) && IndexOk(clients, blocking)
    {
      hide IndexOk, ListsOk, CountersOk, QueueOk, PausedOk;
      var n := clients[c].pausedNode.value;
      PausedListed(clients, paused, next, c);
      var i := IndexOfNode(paused, n);
      PausedRemove(clients, paused, next, c, Unblocked(clients[c]), i);
      paused := paused[..i] + paused[i + 1..];
      var d := clients[c].(pausedNode := None);
      IndexKeeps(clients, blocking, c, d);
      clients := clients[c := d];
    }

    /** Empties the queue of unblocked clients, in order; the work done for each is not modelled. */
    method ProcessUnblockedClients() returns (processed: seq<ClientId>)
      requires Core()
      modifies `clients, `queue
      ensures Core() && queue == [] && processed == old(queue)
      ensures forall c | c in old(clients) :: c in clients && clients[c] == old(clients[c]).(queued := false)
      ensures old(NobodyForgotten(clients, db, readySet)) ==> NobodyForgotten(clients, db, readySet)
    {
      hide IndexOk, CountersOk, PausedOk, ListsOk, TypesOk, NobodyForgotten;
      processed := [];
      while queue != []
        invariant Core() && processed + queue == old(queue) && clients.Keys == old(clients.Keys)
        invariant forall c | c in old(clients) :: clients[c] == old(clients[c]).(queued := clients[c].queued)
        invariant old(NobodyForgotten(clients, db, readySet)) ==> NobodyForgotten(clients, db, readySet)
        decreases |queue|
      {
        var c := TakeUnblocked();
        processed := processed + [c];
      }
    }

    method TakeUnblocked() returns (c: ClientId)
      requires Core() && queue != []
      modifies `clients, `queue
      ensures Core() && c == old(queue)[0] && queue == old(queue)[1..]
      ensures c in old(clients) && clients == old(clients)[c := old(clients)[c].(queued := false)]
      ensures old(NobodyForgotten(clients, db, readySet)) ==> NobodyForgotten(clients, db, readySet)
    {
      hide IndexOk, CountersOk, PausedOk, ListsOk, ClientOk, NobodyForgotten;
      c := queue[0];
      assert c in queue;
      var d := clients[c].(queued := false);
      IndexKeeps(clients, blocking, c, d);
      CountersKeep(clients, total, byType, c, d);
      PausedKeeps(clients, paused, next, c, d);
      KindKeeps(clients[c], d);
      QueueLeaves(clients, queue, d);
      if NobodyForgotten(clients, db, readySet) { QueuedAside(clients, db, readySet, c, d); }
      queue := queue[1..];
      clients := clients[c := d];
    }
  }

  lemma Unblocks(clients: Clients, total: nat, byType: map<BlockType, nat>, queue: seq<ClientId>, c: ClientId)
    requires TypesOk(clients) && CountersOk(clients, total, byType) && QueueOk(clients, queue) && c in clients && clients[c].blocked
    ensures var d, t := Unblocked(clients[c]), clients[c].btype;
            t in byType && total > 0 && byType[t] > 0 && TypesOk(clients[c := d]) &&
            CountersOk(clients[c := d], total - 1, byType[t := byType[t] - 1]) &&
            QueueOk(clients[c := d], queue + if clients[c].queued then [] else [c])
  {
    hide CountersOk, QueueOk;
    var d := Unblocked(clients[c]);
    UnblockedIsOk(clients, c);
    CountersUnblock(clients, total, byType, c, d);
    QueueEnters(clients, queue, c, d);
    TypeCounted(clients, total, byType, clients[c].btype);
  }

  lemma Finished(was: Clients, clients: Clients, c: ClientId)
    requires c in was && c in clients && clients == was[c := clients[c]]
    requires clients[c] == Unblocked(was[c]).(blocked := false, btype := NotBlocked, queued := true)
    ensures clients == was[c := Unblocked(was[c])]
  {}

  lemma UnblockedFields(c: Client)
    ensures var d := Unblocked(c); !d.blocked && d.btype == NotBlocked && d.keys == map[] && d.queued
  {}

  lemma QueuedAside(clients: Clients, db: map<Key, Object>, readySet: set<Key>, c: ClientId, d: Client)
    requires NobodyForgotten(clients, db, readySet) && c in clients && d == clients[c].(queued := d.queued)
    ensures NobodyForgotten(clients[c := d], db, readySet)
  {
    var after := clients[c := d];
    forall e, k | Servable(after, db, e, k) ensures k in readySet { assert Servable(clients, db, e, k); }
  }

  lemma KindKeeps(c: Client, d: Client)
    requires ClientOk(c) && d == c.(queued := d.queued)
    ensures ClientOk(d)
  {}

  lemma UnblockedIsOk(clients: Clients, c: ClientId)
    requires TypesOk(clients) && c in clients
    ensures TypesOk(clients[c := Unblocked(clients[c])]) && ClientOk(clients[c])
  {}

  lemma QueueEnters(clients: Clients, queue: seq<ClientId>, c: ClientId, d: Client)
    requires QueueOk(clients, queue) && c in clients && d.queued
    ensures QueueOk(clients[c := d], queue + if clients[c].queued then [] else [c])
  {
    assert forall i | 0 <= i < |queue| :: queue[i] in queue;
  }

  lemma QueueLeaves(clients: Clients, queue: seq<ClientId>, d: Client)
    requires QueueOk(clients, queue) && queue != [] && queue[0] in clients && !d.queued
    ensures QueueOk(clients[queue[0] := d], queue[1..])
  {
    assert queue == [queue[0]] + queue[1..];
    assert forall i | 0 <= i < |queue| - 1 :: queue[1..][i] == queue[i + 1];
  }

  lemma PausedListed(clients: Clients, paused: seq<Waiter>, next: Node, c: ClientId)
    requires PausedOk(clients, paused, next) && c in clients && clients[c].pausedNode.Some?
    ensures Waiter(c, clients[c].pausedNode.value) in paused
  {}

  lemma PausedRemove(clients: Clients, paused: seq<Waiter>, next: Node, c: ClientId, d: Client, i: nat)
    requires PausedOk(clients, paused, next) && c in clients && clients[c].pausedNode.Some? && d.pausedNode == None
    requires i < |paused| && paused[i].node == clients[c].pausedNode.value
    ensures PausedOk(clients[c := d], paused[..i] + paused[i + 1..], next)
  {
    PausedListed(clients, paused, next, c);
    SameNode(paused, i, Waiter(c, clients[c].pausedNode.value));
    WithoutOne(paused, i);
    WithoutDistinct(paused, i);
    WithoutKeeps(paused, c);
  }

  lemma AtOf(blocking: Waiters, k: Key)
    requires k in blocking
    ensures At(blocking, k) == blocking[k]
  {}

  lemma SameNode(s: seq<Waiter>, i: nat, w: Waiter)
    requires Distinct(s) && i < |s| && w in s && s[i].node == w.node
    ensures s[i] == w
  {
    var j :| 0 <= j < |s| && s[j] == w;
  }

  // The clients, with the key table of c cut down to some keys.
  ghost function View(clients: Clients, c: ClientId, todo: set<Key>): Clients
    requires c in clients
  {
    clients[c := clients[c].(keys := map k | k in clients[c].keys && k in todo :: clients[c].keys[k])]
  }

  lemma ViewAll(clients: Clients, c: ClientId)
    requires c in clients
    ensures View(clients, c, clients[c].keys.Keys) == clients
  {
    var d := clients[c];
    var keys := map k | k in d.keys && k in d.keys.Keys :: d.keys[k];
    assert keys == d.keys;
    assert d.(keys := keys) == d;
  }

  lemma ViewOne(clients: Clients, c: ClientId, todo: set<Key>, k: Key)
    requires c in clients && k in todo && k in clients[c].keys
    ensures var v := View(clients, c, todo); c in v && k in v[c].keys && v[c].keys[k] == clients[c].keys[k]
    ensures var v := View(clients, c, todo); View(clients, c, todo - {k}) == v[c := v[c].(keys := v[c].keys - {k})]
  {
    var v := View(clients, c, todo);
    assert View(clients, c, todo - {k})[c].keys == v[c].keys - {k};
  }

  lemma ViewNone(clients: Clients, c: ClientId)
    requires c in clients
    ensures forall blocking | IndexOk(View(clients, c, {}), blocking) ::
      IndexOk(clients[c := clients[c].(keys := map[], target := None)], blocking)
  {
    hide IndexOk;
    var v, d := View(clients, c, {}), clients[c].(keys := map[], target := None);
    assert v[c].keys == map[];
    assert v[c := d] == clients[c := d];
    forall blocking | IndexOk(v, blocking) ensures IndexOk(clients[c := d], blocking) {
      IndexKeeps(v, blocking, c, d);
    }
  }

  // c has been taken out of the lists of the given keys.
  ghost predicate TakenOut(was: Waiters, blocking: Waiters, c: ClientId, keys: set<Key>) {
    forall k :: At(blocking, k) == if k in keys then Without(At(was, k), c) else At(was, k)
  }

  lemma NoneTaken(blocking: Waiters, c: ClientId)
    ensures forall keys: set<Key> | keys == {} :: TakenOut(blocking, blocking, c, keys)
  {}

  lemma OneTaken(was: Waiters, before: Waiters, blocking: Waiters, c: ClientId, keys: set<Key>, k: Key)
    requires TakenOut(was, before, c, keys) && k !in keys
    requires forall j :: At(blocking, j) == if j == k then Without(At(before, k), c) else At(before, j)
    ensures TakenOut(was, blocking, c, keys + {k})
  {
    hide At, Without;
  }

  lemma AllTaken(clients: Clients, was: Waiters, blocking: Waiters, c: ClientId, keys: set<Key>)
    requires IndexOk(clients, was) && c in clients && keys == clients[c].keys.Keys && TakenOut(was, blocking, c, keys)
    ensures forall k :: At(blocking, k) == Without(At(was, k), c)
  {
    hide At, Without, IndexOk;
    forall k ensures At(blocking, k) == Without(At(was, k), c) {
      if k !in keys { NotListed(clients, was, c, k); }
    }
  }

  lemma ListedAt(clients: Clients, blocking: Waiters, c: ClientId, k: Key)
    requires IndexOk(clients, blocking) && c in clients && k in clients[c].keys
    ensures k in blocking && Waiter(c, clients[c].keys[k]) in blocking[k]
  {}

  lemma NotListed(clients: Clients, blocking: Waiters, c: ClientId, k: Key)
    requires IndexOk(clients, blocking) && (c in clients ==> k !in clients[c].keys)
    ensures Without(At(blocking, k), c) == At(blocking, k)
  {
    WithoutNone(At(blocking, k), c);
  }

  lemma AddKeyKeeps(clients: Clients, blocking: Waiters, next: Node, total: nat, byType: map<BlockType, nat>,
                    queue: seq<ClientId>, paused: seq<Waiter>, c: ClientId, k: Key)
    requires BlockingOk(clients, blocking, next, total, byType, queue, paused, c) && c in clients && k !in clients[c].keys
    ensures BlockingOk(clients[c := clients[c].(keys := clients[c].keys[k := next])],
                       blocking[k := At(blocking, k) + [Waiter(c, next)]], next + 1, total, byType, queue, paused, c)
  {
    hide IndexOk, ListsOk, CountersOk, QueueOk, PausedOk, ClientOk, At;
    var d := clients[c].(keys := clients[c].keys[k := next]);
    var after := blocking[k := At(blocking, k) + [Waiter(c, next)]];
    IndexAdd(clients, blocking, c, k, next, clients[c := d], after);
    ListsAdd(clients, blocking, c, k, next, after);
    CountersKeep(clients, total, byType, c, d);
    QueueKeeps(clients, queue, c, d);
    PausedKeeps(clients, paused, next, c, d);
    PausedNext(clients[c := d], paused, next);
  }

  // The two differ at most in the key table of c.
  ghost predicate OnlyKeys(was: Clients, clients: Clients, c: ClientId) {
    c in was && c in clients && clients == was[c := was[c].(keys := clients[c].keys)]
  }

  lemma OnlyKeysSame(clients: Clients, c: ClientId)
    requires c in clients
    ensures OnlyKeys(clients, clients, c)
  {}

  lemma OnlyKeysTwice(x: Clients, y: Clients, z: Clients, c: ClientId)
    requires OnlyKeys(x, y, c) && OnlyKeys(y, z, c)
    ensures OnlyKeys(x, z, c)
  {}

  // The node of c in the list of k, when k is one of the keys.
  ghost function Entry(c: ClientId, table: map<Key, Node>, k: Key, keys: seq<Key>): seq<Waiter> {
    if k in keys && k in table then [Waiter(c, table[k])] else []
  }

  lemma FreeClient(c: Client)
    requires ClientOk(c) && !c.blocked
    ensures c.btype == NotBlocked && c.keys == map[] && c.pausedNode == None
  {}

  lemma BlockedIsOk(clients: Clients, c: ClientId, d: Client)
    requires TypesExcept(clients, c) && d.blocked && d.btype != NotBlocked
    requires d.pausedNode.Some? <==> d.btype == Paused
    requires WaitsForData(d.btype) ==> d.keys != map[]
    requires d.keys != map[] ==> WaitsForData(d.btype) || d.btype == OnModule
    ensures TypesOk(clients[c := d])
  {}

  lemma PausedBlocks(clients: Clients, blocking: Waiters, paused: seq<Waiter>, next: Node, c: ClientId, d: Client)
    requires PausedOk(clients, paused, next) && ListsOk(blocking, next) && c in clients && clients[c].pausedNode == None
    requires d.pausedNode == if d.btype == Paused then Some(next) else None
    ensures d.btype == Paused ==> PausedOk(clients[c := d], paused + [Waiter(c, next)], next + 1) && ListsOk(blocking, next + 1)
    ensures d.btype != Paused ==> PausedOk(clients[c := d], paused, next)
  {
    hide PausedOk, ListsOk;
    if d.btype == Paused {
      PausedAdd(clients, paused, next, c, d);
      NextGrows(blocking, next);
    } else {
      PausedKeeps(clients, paused, next, c, d);
    }
  }

  lemma ForgottenBlocks(clients: Clients, db: map<Key, Object>, readySet: set<Key>, c: ClientId, d: Client)
    requires c in clients
    ensures d.btype != OnList && NobodyForgotten(clients, db, readySet) ==> NobodyForgotten(clients[c := d], db, readySet)
  {
    hide NobodyForgotten;
    if d.btype != OnList && NobodyForgotten(clients, db, readySet) { ForgottenKeeps(clients, db, readySet, c, d); }
  }

  lemma BlockKeeps(clients: Clients, blocking: Waiters, total: nat, byType: map<BlockType, nat>, queue: seq<ClientId>, c: ClientId, d: Client)
    requires IndexOk(clients, blocking) && TypesExcept(clients, c) && CountersOk(clients, total, byType) && QueueOk(clients, queue)
    requires c in clients && !clients[c].blocked && clients[c].btype == NotBlocked
    requires d == clients[c].(blocked := true, btype := d.btype, pausedNode := d.pausedNode) && d.btype != NotBlocked
    requires d.pausedNode.Some? <==> d.btype == Paused
    requires WaitsForData(d.btype) ==> d.keys != map[]
    requires d.keys != map[] ==> WaitsForData(d.btype) || d.btype == OnModule
    ensures IndexOk(clients[c := d], blocking) && TypesOk(clients[c := d]) && QueueOk(clients[c := d], queue)
    ensures d.btype in byType && CountersOk(clients[c := d], total + 1, byType[d.btype := byType[d.btype] + 1])
  {
    hide IndexOk, CountersOk, QueueOk, TypesOk, TypesExcept;
    IndexKeeps(clients, blocking, c, d);
    CountersBlock(clients, total, byType, c, d);
    TypeCounted(clients, total, byType, d.btype);
    QueueKeeps(clients, queue, c, d);
    BlockedIsOk(clients, c, d);
  }

  lemma TypeCounted(clients: Clients, total: nat, byType: map<BlockType, nat>, t: BlockType)
    requires CountersOk(clients, total, byType) && t != NotBlocked
    ensures t in byType && byType[t] == |OfType(clients, t)|
  {}

  lemma PausedAdd(clients: Clients, paused: seq<Waiter>, next: Node, c: ClientId, d: Client)
    requires PausedOk(clients, paused, next) && c in clients && clients[c].pausedNode == None && d.pausedNode == Some(next)
    ensures PausedOk(clients[c := d], paused + [Waiter(c, next)], next + 1)
  {
    assert forall i | 0 <= i < |paused| :: paused[i] in paused;
  }

  lemma PausedNext(clients: Clients, paused: seq<Waiter>, next: Node)
    requires PausedOk(clients, paused, next)
    ensures PausedOk(clients, paused, next + 1)
  {}

  lemma NextGrows(blocking: Waiters, next: Node)
    requires ListsOk(blocking, next)
    ensures ListsOk(blocking, next + 1)
  {}
}
