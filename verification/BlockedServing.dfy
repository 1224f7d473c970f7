/**
 * Serving the clients blocked on lists once a command has run: keys that were written are queued,
 * and the waiters of each are served in the order they came, until nobody who could be served is
 * left. (src/blocked.c, src/t_list.c, src/db.c)
 */
module BlockedServing {
  import opened Common
  import opened BlockedIndex
  import opened BlockedClients
  import opened BlockedLists

  // ---- Signalling -------------------------------------------------------------------------------

  function BlockedTypeOf(o: Object): BlockType {
    match o
    case ListObject(_) => OnList
    case ZsetObject => OnZset
    case ModuleObject => OnModule
    case StreamObject => OnStream
    case OtherObject => NotBlocked
  }

  function CountOf(byType: map<BlockType, nat>, t: BlockType): nat { if t in byType then byType[t] else 0 }

  predicate Wanted(blocking: Waiters, byType: map<BlockType, nat>, readySet: set<Key>, k: Key, t: BlockType) {
    t != NotBlocked && (CountOf(byType, t) > 0 || CountOf(byType, OnModule) > 0) && k in blocking && k !in readySet
  }

  method SignalKeyAsReady(server: Server, k: Key, o: Object)
    modifies server`ready, server`readySet
    ensures var wanted := old(Wanted(server.blocking, server.byType, server.readySet, k, BlockedTypeOf(o)));
            server.ready == old(server.ready) + (if wanted then [k] else []) &&
            server.readySet == old(server.readySet) + (if wanted then {k} else {})
    ensures o.OtherObject? || k !in server.blocking || k in old(server.readySet) ==>
              server.ready == old(server.ready) && server.readySet == old(server.readySet)
  {
    var btype := BlockedTypeOf(o);
    if btype == NotBlocked { return; }
    if CountOf(server.byType, btype) == 0 && CountOf(server.byType, OnModule) == 0 { return; }
    if k !in server.blocking { return; }
    if k in server.readySet { return; }
    server.ready := server.ready + [k];
    server.readySet := server.readySet + {k};
  }

  // What a client can wait for; a module may wait for anything that can be waited for.
  predicate Awaits(t: BlockType, o: Object) {
    match t
    case OnList => o.ListObject?
    case OnZset => o.ZsetObject?
    case OnStream => o.StreamObject?
    case OnModule => !o.OtherObject?
    case _ => false
  }

  /** The early returns of signalKeyAsReady lose no waiter, whatever it waits for. */
  lemma SignalCovers(clients: Clients, blocking: Waiters, total: nat, byType: map<BlockType, nat>, readySet: set<Key>, c: ClientId, k: Key, o: Object)
    requires CountersOk(clients, total, byType) && IndexOk(clients, blocking)
    requires c in clients && Awaits(clients[c].btype, o) && k in clients[c].keys && k !in readySet
    ensures Wanted(blocking, byType, readySet, k, BlockedTypeOf(o))
  {
    assert c in OfType(clients, clients[c].btype);
  }

  lemma ReadyAdd(all: seq<Key>, readySet: set<Key>, k: Key)
    requires ReadyOk(all, readySet) && k !in readySet
    ensures ReadyOk(all + [k], readySet + {k})
  {
    assert forall i | 0 <= i < |all| :: all[i] in all;
  }

  // ---- Lists --------------------------------------------------------------------------------------

  // The keys that hold lists are the same, so the same clients can be served.
  lemma ForgottenSameLists(clients: Clients, db: map<Key, Object>, db': map<Key, Object>, pending: set<Key>)
    requires NobodyForgotten(clients, db, pending)
    requires forall k | k in db' && db'[k].ListObject? :: k in db && db[k].ListObject?
    ensures NobodyForgotten(clients, db', pending)
  {
    forall c, k | Servable(clients, db', c, k) ensures k in pending {
      assert Servable(clients, db, c, k);
    }
  }

  // A new list: whoever waits for it can be served now.
  lemma ForgottenNewList(clients: Clients, blocking: Waiters, total: nat, byType: map<BlockType, nat>,
                         db: map<Key, Object>, readySet: set<Key>, k: Key, pending: set<Key>, pending': set<Key>)
    requires CountersOk(clients, total, byType) && IndexOk(clients, blocking) && NobodyForgotten(clients, db, pending)
    requires pending <= pending' && readySet <= pending
    requires Wanted(blocking, byType, readySet, k, OnList) ==> k in pending'
    ensures NobodyForgotten(clients, db[k := ListObject([])], pending')
  {
    var after := db[k := ListObject([])];
    forall c, j | Servable(clients, after, c, j) ensures j in pending' {
      if j != k {
        assert Servable(clients, db, c, j);
      } else if k !in readySet {
        SignalCovers(clients, blocking, total, byType, readySet, c, k, ListObject([]));
      }
    }
  }

  // ---- One client -----------------------------------------------------------------------------------

  // Between two steps of serving key k, with the keys of rest still to be served.
  ghost predicate Serving(server: Server, k: Key, rest: seq<Key>)
    reads server
  {
    server.Core() && ReadyOk(rest + server.ready, server.readySet) && NoEmptyLists(server.db, Some(k)) &&
    NobodyForgotten(server.clients, server.db, server.readySet + {k}) && k in server.db && server.db[k].ListObject?
  }

  method LmoveHandlePush(server: Server, dst: Key, value: Value, toHead: bool, ghost k: Key, ghost rest: seq<Key>)
    requires Serving(server, k, rest) && (dst !in server.db || server.db[dst].ListObject?)
    modifies server`ready, server`readySet, server`db
    ensures Serving(server, k, rest)
    ensures server.db == old(server.db)[dst := ListObject(Pushed(old(ItemsAt(server.db, dst)), value, toHead))]
  {
    hide IndexOk, ListsOk, TypesOk, CountersOk, QueueOk, PausedOk, NobodyForgotten, ReadyOk;
    if dst !in server.db {
      DbAdd(server, dst, {k}, rest);
    }
    ghost var before := server.db;
    server.db := server.db[dst := ListObject(Pushed(server.db[dst].items, value, toHead))];
    ForgottenSameLists(server.clients, before, server.db, server.readySet + {k});
  }

  // Adds an empty list, which is about to be filled.
  method DbAdd(server: Server, dst: Key, ghost extra: set<Key>, ghost rest: seq<Key>)
    requires server.Core() && ReadyOk(rest + server.ready, server.readySet) && dst !in server.db
    requires NobodyForgotten(server.clients, server.db, server.readySet + extra)
    modifies server`ready, server`readySet, server`db
    ensures server.db == old(server.db)[dst := ListObject([])]
    ensures ReadyOk(rest + server.ready, server.readySet)
    ensures NobodyForgotten(server.clients, server.db, server.readySet + extra)
  {
    hide IndexOk, ListsOk, TypesOk, CountersOk, QueueOk, PausedOk, NobodyForgotten, ReadyOk, NoEmptyLists;
    ghost var db, ready, readySet := server.db, server.ready, server.readySet;
    server.db := server.db[dst := ListObject([])];
    SignalKeyAsReady(server, dst, ListObject([]));
    if Wanted(server.blocking, server.byType, readySet, dst, OnList) {
      ReadyAdd(rest + ready, readySet, dst);
      assert rest + (ready + [dst]) == rest + ready + [dst];
    } else {
      assert server.ready == ready && server.readySet == readySet;
    }
    ForgottenNewList(server.clients, server.blocking, server.total, server.byType, db, readySet, dst,
                     readySet + extra, server.readySet + extra);
  }

  /** A push: the first value of a new list makes the key ready. */
  method Push(server: Server, k: Key, value: Value, toHead: bool)
    requires server.Valid() && (k in server.db ==> server.db[k].ListObject?)
    modifies server`ready, server`readySet, server`db
    ensures server.Valid()
    ensures server.db == old(server.db)[k := ListObject(Pushed(old(ItemsAt(server.db, k)), value, toHead))]
  {
    hide IndexOk, ListsOk, TypesOk, CountersOk, QueueOk, PausedOk, NobodyForgotten, ReadyOk;
    assert server.readySet + {} == server.readySet && [] + server.ready == server.ready;
    if k !in server.db {
      DbAdd(server, k, {}, []);
      assert server.readySet + {} == server.readySet && [] + server.ready == server.ready;
    }
    ghost var before := server.db;
    server.db := server.db[k := ListObject(Pushed(server.db[k].items, value, toHead))];
    ForgottenSameLists(server.clients, before, server.db, server.readySet);
  }

  /** The popped value goes to the receiver, or to the list at dst unless something else is there. */
  method ServeClientBlockedOnList(server: Server, receiver: ClientId, k: Key, dst: Option<Key>, value: Value, toHead: bool, ghost rest: seq<Key>)
    returns (ok: bool)
    requires Serving(server, k, rest)
    modifies server`ready, server`readySet, server`db, server`sent
    ensures Serving(server, k, rest)
    ensures ok <==> !(dst.Some? && dst.value in old(server.db) && !old(server.db)[dst.value].ListObject?)
    ensures server.db == if ok && dst.Some? then old(server.db)[dst.value := ListObject(Pushed(old(ItemsAt(server.db, dst.value)), value, toHead))]
                         else old(server.db)
    ensures server.sent == old(server.sent) +
      [if !ok then WrongType(receiver) else if dst.Some? then Moved(receiver, value) else Popped(receiver, k, value)]
    ensures !ok || dst.None? ==> server.ready == old(server.ready)
  {
    hide IndexOk, ListsOk, TypesOk, CountersOk, QueueOk, PausedOk, NobodyForgotten, ReadyOk, NoEmptyLists;
    ok := true;
    if dst.None? {
      server.sent := server.sent + [Popped(receiver, k, value)];
    } else if !(dst.value in server.db && !server.db[dst.value].ListObject?) {
      LmoveHandlePush(server, dst.value, value, toHead, k, rest);
      server.sent := server.sent + [Moved(receiver, value)];
    } else {
      server.sent := server.sent + [WrongType(receiver)];
      ok := false;
    }
  }

  // The first waiter of k is moved to the end of the list.
  method RotateHeadToTail(server: Server, k: Key, ghost rest: seq<Key>)
    requires Serving(server, k, rest) && k in server.blocking
    modifies server`blocking
    ensures Serving(server, k, rest)
    ensures server.blocking == old(server.blocking)[k := old(server.blocking)[k][1..] + [old(server.blocking)[k][0]]]
  {
    hide TypesOk, CountersOk, QueueOk, PausedOk, NobodyForgotten, ReadyOk, NoEmptyLists;
    var l := server.blocking[k];
    RotateKeeps(server.clients, server.blocking, server.next, k);
    server.blocking := server.blocking[k := l[1..] + [l[0]]];
  }

  lemma RotateKeeps(clients: Clients, blocking: Waiters, next: Node, k: Key)
    requires IndexOk(clients, blocking) && ListsOk(blocking, next) && k in blocking
    ensures blocking[k] != []
    ensures var after := blocking[k := blocking[k][1..] + [blocking[k][0]]]; IndexOk(clients, after) && ListsOk(after, next)
  {
    hide Distinct;
    var l := blocking[k];
    RotatedSame(l);
  }

  lemma RotatedSame(l: seq<Waiter>)
    requires Distinct(l) && l != []
    ensures Distinct(l[1..] + [l[0]]) && forall w :: w in l[1..] + [l[0]] <==> w in l
  {
    assert l == [l[0]] + l[1..];
  }

  // Pops a value for the first waiter of k, who is unblocked and gets it.
  method ServeFirst(server: Server, k: Key, ghost rest: seq<Key>)
    requires Serving(server, k, rest) && k in server.blocking && server.blocking[k] != []
    requires var c := server.blocking[k][0].client; c in server.clients && server.clients[c].btype == OnList
    requires ItemsAt(server.db, k) != []
    modifies server
    ensures Serving(server, k, rest) && server.total == old(server.total) - 1
    ensures var c := old(server.blocking)[k][0].client;
            server.clients == old(server.clients)[c := Unblocked(old(server.clients)[c])] &&
            |server.sent| == |old(server.sent)| + 1 && old(server.sent) <= server.sent &&
            server.sent[|old(server.sent)|].client == c &&
            Delivers(old(server.clients)[c], old(server.db), server.db, k, server.sent[|old(server.sent)|])
    ensures At(server.blocking, k) == old(server.blocking)[k][1..]
  {
    hide IndexOk, ListsOk, CountersOk, QueueOk, PausedOk, NobodyForgotten, ReadyOk, NoEmptyLists, ClientOk, Without;
    var c := server.blocking[k][0].client;
    var dst, fromHead, toHead := server.clients[c].target, server.clients[c].fromHead, server.clients[c].toHead;
    var items := server.db[k].items;
    var value := End(items, fromHead);
    ghost var db, clients := server.db, server.clients;
    PopKeeps(server.clients, server.db, k, Shortened(items, fromHead), server.readySet + {k});
    server.db := server.db[k := ListObject(Shortened(items, fromHead))];
    BlockedIsBlocked(server.clients, c);
    FirstOut(server.blocking, server.next, k);
    server.UnblockClient(c);
    ForgottenKeeps(clients, server.db, server.readySet + {k}, c, server.clients[c]);
    var ok := ServeClientBlockedOnList(server, c, k, dst, value, toHead, rest);
    if !ok {
      PutBack(items, fromHead);
      PopKeeps(server.clients, server.db, k, Pushed(server.db[k].items, value, fromHead), server.readySet + {k});
      server.db := server.db[k := ListObject(Pushed(server.db[k].items, value, fromHead))];
    }
  }

  lemma PopKeeps(clients: Clients, db: map<Key, Object>, k: Key, items: seq<Value>, pending: set<Key>)
    requires NobodyForgotten(clients, db, pending) && NoEmptyLists(db, Some(k)) && k in db && db[k].ListObject?
    ensures NobodyForgotten(clients, db[k := ListObject(items)], pending) && NoEmptyLists(db[k := ListObject(items)], Some(k))
  {
    ForgottenSameLists(clients, db, db[k := ListObject(items)], pending);
  }

  lemma BlockedIsBlocked(clients: Clients, c: ClientId)
    requires TypesOk(clients) && c in clients && clients[c].btype != NotBlocked
    ensures clients[c].blocked
  {}

  lemma FirstOut(blocking: Waiters, next: Node, k: Key)
    requires ListsOk(blocking, next) && k in blocking && blocking[k] != []
    ensures Without(At(blocking, k), blocking[k][0].client) == blocking[k][1..]
  {
    WithoutOne(blocking[k], 0);
  }

  // ---- One key --------------------------------------------------------------------------------------

  predicate ForList(clients: Clients, w: Waiter) { w.client in clients && clients[w.client].btype == OnList }

  // The clients of a waiter list that wait for a list, in order, and the nodes of the others.
  function Receivers(clients: Clients, s: seq<Waiter>): seq<ClientId> {
    if s == [] then [] else
      Receivers(clients, s[..|s| - 1]) + if ForList(clients, s[|s| - 1]) then [s[|s| - 1].client] else []
  }

  function Others(clients: Clients, s: seq<Waiter>): seq<Waiter> {
    if s == [] then [] else
      Others(clients, s[..|s| - 1]) + if ForList(clients, s[|s| - 1]) then [] else [s[|s| - 1]]
  }

  lemma NextWaiter(clients: Clients, s: seq<Waiter>, i: nat)
    requires i < |s|
    ensures Receivers(clients, s[..i + 1]) == Receivers(clients, s[..i]) + if ForList(clients, s[i]) then [s[i].client] else []
    ensures Others(clients, s[..i + 1]) == Others(clients, s[..i]) + if ForList(clients, s[i]) then [] else [s[i]]
  {
    assert s[..i + 1][..i] == s[..i];
  }

  lemma {:induction false} OthersAreOthers(clients: Clients, s: seq<Waiter>)
    ensures forall w | w in Others(clients, s) :: w in s && !ForList(clients, w)
  {
    if s != [] { OthersAreOthers(clients, s[..|s| - 1]); }
  }

  lemma {:induction false} ReceiversPrefix(clients: Clients, s: seq<Waiter>, i: nat)
    requires i <= |s|
    ensures Receivers(clients, s[..i]) <= Receivers(clients, s)
    decreases |s| - i
  {
    if i == |s| {
      assert s[..i] == s;
    } else {
      NextWaiter(clients, s, i);
      ReceiversPrefix(clients, s, i + 1);
    }
  }

  // i of the waiters orig have been looked at; the list l holds the rest and then those passed over.
  ghost predicate Progress(clients: Clients, l: seq<Waiter>, was: Clients, orig: seq<Waiter>, i: nat)
    requires i <= |orig|
  {
    l == orig[i..] + Others(was, orig[..i]) &&
    (forall c | c in clients :: c in was && (clients[c] == was[c] || clients[c].btype == NotBlocked)) &&
    forall j | i <= j < |orig| :: orig[j].client in clients && orig[j].client in was && clients[orig[j].client] == was[orig[j].client]
  }

  lemma ProgressFirst(clients: Clients, l: seq<Waiter>, was: Clients, orig: seq<Waiter>, i: nat)
    requires i < |orig| && Progress(clients, l, was, orig, i)
    ensures l != [] && l[0] == orig[i] && l[0].client in clients
    ensures ForList(was, orig[i]) <==> clients[l[0].client].btype == OnList
  {}

  lemma ProgressOver(clients: Clients, l: seq<Waiter>, was: Clients, orig: seq<Waiter>, i: nat)
    requires i < |orig| && Progress(clients, l, was, orig, i) && !ForList(was, orig[i])
    ensures l != [] && Progress(clients, l[1..] + [l[0]], was, orig, i + 1)
  {
    hide Others;
    NextWaiter(was, orig, i);
    assert l[1..] + [l[0]] == orig[i + 1..] + (Others(was, orig[..i]) + [orig[i]]);
  }

  lemma ProgressServed(clients: Clients, l: seq<Waiter>, was: Clients, orig: seq<Waiter>, i: nat)
    requires i < |orig| && Progress(clients, l, was, orig, i) && ForList(was, orig[i]) && Distinct(orig)
    ensures l != [] && orig[i].client in clients
    ensures var c := orig[i].client; Progress(clients[c := Unblocked(clients[c])], l[1..], was, orig, i + 1)
  {
    hide Others;
    NextWaiter(was, orig, i);
    assert l[1..] == orig[i + 1..] + Others(was, orig[..i]);
  }

  method ServeNext(server: Server, k: Key, ghost rest: seq<Key>, ghost was: Clients, ghost orig: seq<Waiter>, ghost i: nat,
                   ghost first: Clients, ghost start: seq<Reply>, ghost a: Trail)
    returns (more: bool, ghost a': Trail)
    requires Serving(server, k, rest) && Distinct(orig) && i < |orig|
    requires Progress(server.clients, At(server.blocking, k), was, orig, i)
    requires Accounted(first, start, server.clients, server.db, server.sent, a)
    modifies server
    ensures Accounted(first, start, server.clients, server.db, server.sent, a') && a.dbs <= a'.dbs
    ensures Serving(server, k, rest) && server.total <= old(server.total) && old(server.sent) <= server.sent
    ensures more ==> Progress(server.clients, At(server.blocking, k), was, orig, i + 1)
    ensures more ==> Recipients(server.sent[|old(server.sent)|..]) == if ForList(was, orig[i]) then [orig[i].client] else []
    ensures !more ==> ItemsAt(server.db, k) == [] && server.sent == old(server.sent)
    ensures server.ready == old(server.ready) || server.total < old(server.total)
  {
    hide IndexOk, ListsOk, CountersOk, QueueOk, PausedOk, NobodyForgotten, ReadyOk, NoEmptyLists, TypesOk,
         Delivers, Progress, ForList, Unblocked, Accounted;
    a' := a;
    ProgressFirst(server.clients, At(server.blocking, k), was, orig, i);
    var receiver := server.blocking[k][0].client;
    if server.clients[receiver].btype != OnList {
      ProgressOver(server.clients, At(server.blocking, k), was, orig, i);
      RotateHeadToTail(server, k, rest);
      more := true;
      return;
    }
    if server.db[k].items == [] {
      more := false;
      return;
    }
    more := true;
    ProgressServed(server.clients, At(server.blocking, k), was, orig, i);
    WaiterHasKey(server.clients, server.blocking, k);
    ghost var clients, db, sent := server.clients, server.db, server.sent;
    ServeFirst(server, k, rest);
    ghost var r := server.sent[|sent|];
    assert server.sent[|sent|..] == [r] && server.sent == sent + [r];
    AccountNext(first, start, clients, db, sent, a, k, r, server.db);
    a' := Trail(a.keys + [k], a.dbs + [Nonempty(server.db)]);
  }

  lemma WaiterHasKey(clients: Clients, blocking: Waiters, k: Key)
    requires IndexOk(clients, blocking) && k in blocking && blocking[k] != []
    ensures blocking[k][0].client in clients && k in clients[blocking[k][0].client].keys
  {
    assert blocking[k][0] in blocking[k];
  }

  lemma OrigOk(blocking: Waiters, next: Node, k: Key)
    requires ListsOk(blocking, next) && k in blocking
    ensures Distinct(blocking[k])
  {}

  lemma ProgressStart(clients: Clients, blocking: Waiters, k: Key)
    requires IndexOk(clients, blocking) && k in blocking
    ensures Progress(clients, At(blocking, k), clients, blocking[k], 0) && Receivers(clients, blocking[k][..0]) == []
  {
    assert forall j | 0 <= j < |blocking[k]| :: blocking[k][j] in blocking[k];
  }

  lemma SentMore(first: seq<Reply>, before: seq<Reply>, after: seq<Reply>)
    requires first <= before <= after
    ensures Recipients(after[|first|..]) == Recipients(before[|first|..]) + Recipients(after[|before|..])
  {}

  // All waiters have been looked at, so nobody waits for a list at k any more.
  lemma NobodyLeft(clients: Clients, blocking: Waiters, db: map<Key, Object>, was: Clients, orig: seq<Waiter>, k: Key, readySet: set<Key>)
    requires IndexOk(clients, blocking) && NobodyForgotten(clients, db, readySet + {k})
    requires Progress(clients, At(blocking, k), was, orig, |orig|)
    ensures NobodyForgotten(clients, db, readySet)
  {
    hide Others;
    OthersAreOthers(was, orig);
    assert orig[..|orig|] == orig;
    assert forall w | w in At(blocking, k) :: !ForList(was, w);
  }

  lemma NobodyThere(clients: Clients, blocking: Waiters, db: map<Key, Object>, k: Key, readySet: set<Key>)
    requires IndexOk(clients, blocking) && NobodyForgotten(clients, db, readySet + {k}) && k !in blocking
    ensures NobodyForgotten(clients, db, readySet)
  {}

  lemma KeyDeleted(clients: Clients, db: map<Key, Object>, k: Key, readySet: set<Key>)
    requires NobodyForgotten(clients, db, readySet + {k}) && NoEmptyLists(db, Some(k))
    ensures NobodyForgotten(clients, db - {k}, readySet) && NoEmptyLists(db - {k}, None)
  {
    var after := db - {k};
    forall c, j | Servable(clients, after, c, j) ensures j in readySet {
      assert Servable(clients, db, c, j);
    }
  }

  lemma KeyKept(db: map<Key, Object>, k: Key)
    requires NoEmptyLists(db, Some(k)) && ItemsAt(db, k) != []
    ensures NoEmptyLists(db, None)
  {}

  // The loop over the waiters; k keeps its waiter list as long as the loop goes on.
  method ServeWaiters(server: Server, k: Key, ghost rest: seq<Key>, ghost first: Clients, ghost start: seq<Reply>, ghost a: Trail)
    returns (ghost a': Trail)
    requires Serving(server, k, rest) && k in server.blocking
    requires Accounted(first, start, server.clients, server.db, server.sent, a)
    modifies server
    ensures Accounted(first, start, server.clients, server.db, server.sent, a') && a.dbs <= a'.dbs
    ensures Serving(server, k, rest) && old(server.sent) <= server.sent
    ensures ItemsAt(server.db, k) == [] || NobodyForgotten(server.clients, server.db, server.readySet)
    ensures Recipients(server.sent[|old(server.sent)|..]) <= old(Receivers(server.clients, server.blocking[k]))
    ensures ItemsAt(server.db, k) != [] ==>
      Recipients(server.sent[|old(server.sent)|..]) == old(Receivers(server.clients, server.blocking[k]))
    ensures server.total <= old(server.total) && (server.ready == old(server.ready) || server.total < old(server.total))
  {
    hide IndexOk, ListsOk, CountersOk, QueueOk, PausedOk, NobodyForgotten, ReadyOk, NoEmptyLists, TypesOk, Receivers, Progress, Recipients, Accounted;
    a' := a;
    var numclients := |server.blocking[k]|;
    ghost var was, orig := server.clients, server.blocking[k];
    ghost var i := 0;
    OrigOk(server.blocking, server.next, k);
    ProgressStart(server.clients, server.blocking, k);
    NoReplies(server.sent);
    while numclients > 0
      invariant i <= |orig| && numclients == |orig| - i && Distinct(orig) && Serving(server, k, rest)
      invariant Progress(server.clients, At(server.blocking, k), was, orig, i)
      invariant Accounted(first, start, server.clients, server.db, server.sent, a') && a.dbs <= a'.dbs
      invariant old(server.sent) <= server.sent && Recipients(server.sent[|old(server.sent)|..]) == Receivers(was, orig[..i])
      invariant server.total <= old(server.total) && (server.ready == old(server.ready) || server.total < old(server.total))
    {
      ghost var before := server.sent;
      var more;
      more, a' := ServeNext(server, k, rest, was, orig, i, first, start, a');
      if !more {
        ReceiversPrefix(was, orig, i);
        return;
      }
      NextWaiter(was, orig, i);
      SentMore(old(server.sent), before, server.sent);
      i := i + 1;
      numclients := numclients - 1;
    }
    assert orig[..|orig|] == orig;
    NobodyLeft(server.clients, server.blocking, server.db, was, orig, k, server.readySet);
  }

  lemma NoReplies(sent: seq<Reply>)
    ensures Recipients(sent[|sent|..]) == []
  {}

  /** Serves the waiters of k in the order they came. Afterwards there is no list at k, or nobody left
      who waits for one there. */
  method ServeClientsBlockedOnListKey(
    server: Server, k: Key, ghost rest: seq<Key>, ghost first: Clients, ghost start: seq<Reply>, ghost a: Trail)
    returns (ghost a': Trail)
    requires Serving(server, k, rest) && Accounted(first, start, server.clients, server.db, server.sent, a)
    modifies server
    ensures Accounted(first, start, server.clients, server.db, server.sent, a') && a.dbs <= a'.dbs
    ensures server.Core() && ReadyOk(rest + server.ready, server.readySet) && NoEmptyLists(server.db, None)
    ensures NobodyForgotten(server.clients, server.db, server.readySet)
    ensures old(server.sent) <= server.sent
    ensures Recipients(server.sent[|old(server.sent)|..]) <= old(Receivers(server.clients, At(server.blocking, k)))
    ensures k in server.db ==>
      Recipients(server.sent[|old(server.sent)|..]) == old(Receivers(server.clients, At(server.blocking, k)))
    ensures server.total <= old(server.total) && (server.ready == old(server.ready) || server.total < old(server.total))
  {
    hide IndexOk, ListsOk, CountersOk, QueueOk, PausedOk, NobodyForgotten, ReadyOk, NoEmptyLists, TypesOk, Recipients, Accounted;
    a' := a;
    NoReplies(server.sent);
    if k in server.blocking {
      a' := ServeWaiters(server, k, rest, first, start, a);
    } else {
      NobodyThere(server.clients, server.blocking, server.db, k, server.readySet);
    }
    if server.db[k].items == [] {
      KeyDeleted(server.clients, server.db, k, server.readySet);
      NonemptyDelete(server.db, k);
      AccountSame(first, start, server.clients, server.db, server.db - {k}, server.sent, a');
      server.db := server.db - {k};
    } else {
      KeyKept(server.db, k);
    }
  }

  // ---- All keys -------------------------------------------------------------------------------------

  lemma ReadyDrop(k: Key, rest: seq<Key>, ready: seq<Key>, readySet: set<Key>)
    requires ReadyOk([k] + rest + ready, readySet)
    ensures ReadyOk(rest + ready, readySet - {k})
  {
    var all, tail := [k] + rest + ready, rest + ready;
    assert all == [k] + tail;
    assert forall i | 0 <= i < |tail| :: tail[i] == all[i + 1];
    forall j ensures j in tail <==> j in readySet - {k} {
      assert j in all <==> j == k || j in tail;
      if k in tail {
        var i :| 0 <= i < |tail| && tail[i] == k;
        assert all[0] == all[i + 1];
      }
    }
  }

  lemma NotAList(clients: Clients, db: map<Key, Object>, k: Key, readySet: set<Key>)
    requires NobodyForgotten(clients, db, readySet) && !(k in db && db[k].ListObject?)
    ensures NobodyForgotten(clients, db, readySet - {k})
  {}

  // One entry of the ready list.
  method HandleReadyKey(
    server: Server, k: Key, ghost rest: seq<Key>, ghost first: Clients, ghost start: seq<Reply>, ghost a: Trail)
    returns (ghost a': Trail)
    requires Accounted(first, start, server.clients, server.db, server.sent, a)
    requires server.Core() && ReadyOk([k] + rest + server.ready, server.readySet) && NoEmptyLists(server.db, None)
    requires NobodyForgotten(server.clients, server.db, server.readySet)
    modifies server
    ensures server.Core() && ReadyOk(rest + server.ready, server.readySet) && NoEmptyLists(server.db, None)
    ensures NobodyForgotten(server.clients, server.db, server.readySet)
    ensures Accounted(first, start, server.clients, server.db, server.sent, a') && a.dbs <= a'.dbs
    ensures server.total <= old(server.total) && (server.ready == old(server.ready) || server.total < old(server.total))
  {
    hide IndexOk, ListsOk, CountersOk, QueueOk, PausedOk, NobodyForgotten, ReadyOk, TypesOk, Recipients, Receivers, Accounted;
    a' := a;
    ReadyDrop(k, rest, server.ready, server.readySet);
    if k in server.db && server.db[k].ListObject? {
      ForgottenMore(server.clients, server.db, server.readySet, server.readySet - {k} + {k});
      server.readySet := server.readySet - {k};
      a' := ServeClientsBlockedOnListKey(server, k, rest, first, start, a);
    } else {
      NotAList(server.clients, server.db, k, server.readySet);
      server.readySet := server.readySet - {k};
    }
  }

  lemma ForgottenMore(clients: Clients, db: map<Key, Object>, pending: set<Key>, pending': set<Key>)
    requires NobodyForgotten(clients, db, pending) && pending <= pending'
    ensures NobodyForgotten(clients, db, pending')
  {}

  /** Runs after every command. It ends, and then no client waits for a list at a key that has one.
      The replies account for all that happened to the clients and to the lists: each is the value at
      the end its client asked for, of a list that client waited for, as the replies before it left
      that list. */
  method HandleClientsBlockedOnKeys(server: Server) returns (ghost a: Trail)
    requires server.Valid()
    modifies server
    ensures server.Valid() && server.ready == []
    ensures forall c, k :: !Servable(server.clients, server.db, c, k)
    ensures Accounted(old(server.clients), old(server.sent), server.clients, server.db, server.sent, a)
    ensures a.dbs != [] && a.dbs[0] == old(server.db) && a.dbs[|a.dbs| - 1] == server.db
  {
    hide IndexOk, ListsOk, CountersOk, QueueOk, PausedOk, ReadyOk, TypesOk, NoEmptyLists, NobodyForgotten, Servable, Accounted;
    ghost var first, start := server.clients, server.sent;
    a := Trail([], [Nonempty(server.db)]);
    AccountStart(first, server.db, start);
    NonemptyOnly(server.db);
    while server.ready != []
      invariant server.Valid() && a.dbs != [] && a.dbs[0] == old(server.db)
      invariant Accounted(first, start, server.clients, server.db, server.sent, a)
      decreases server.total, |server.ready|
    {
      var l := server.ready;
      ghost var total := server.total;
      server.ready := [];
      assert l + [] == l;
      while l != []
        invariant server.Core() && ReadyOk(l + server.ready, server.readySet) && NoEmptyLists(server.db, None)
        invariant NobodyForgotten(server.clients, server.db, server.readySet)
        invariant server.total <= total && (server.ready == [] || server.total < total)
        invariant Accounted(first, start, server.clients, server.db, server.sent, a)
        invariant a.dbs != [] && a.dbs[0] == old(server.db)
        decreases |l|
      {
        assert l + server.ready == [l[0]] + l[1..] + server.ready;
        a := HandleReadyKey(server, l[0], l[1..], first, start, a);
        l := l[1..];
      }
      assert l + server.ready == server.ready;
    }
    NothingReady(server.clients, server.db, server.readySet);
    NonemptyOnly(server.db);
    AccountEnd(first, start, server.clients, server.db, server.sent, a);
  }

  lemma NothingReady(clients: Clients, db: map<Key, Object>, readySet: set<Key>)
    requires ReadyOk([], readySet) && NobodyForgotten(clients, db, readySet)
    ensures forall c, k :: !Servable(clients, db, c, k)
  {}
}
