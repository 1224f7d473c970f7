/** Slot claims are confluent: whatever order they arrive in, the newest one wins every slot. */
module SlotClaims {
  import opened Common
  import opened ClusterBus
  import opened SlotTable

  datatype Claim = Claim(sender: Name, epoch: nat, slots: seq<bool>)

  datatype View = View(owners: seq<Option<Name>>, epochs: map<Name, nat>)

  function NoImports(n: nat): seq<Option<Name>> { seq(n, _ => None) }

  // One PING of another master, as Table.ProcessClaim handles it while nothing is being imported.
  function Deliver(v: View, c: Claim): (r: View)
    requires c.sender in v.epochs && |c.slots| == |v.owners|
    ensures |r.owners| == |v.owners| && r.epochs.Keys == v.epochs.Keys
  {
    var epochs := Learned(v.epochs, c.sender, c.epoch);
    View(AfterClaim(v.owners, epochs, NoImports(|v.owners|), c.sender, c.epoch, c.slots), epochs)
  }

  ghost predicate Deliverable(v: View, cs: seq<Claim>) {
    forall c | c in cs :: c.sender in v.epochs && |c.slots| == |v.owners|
  }

  function DeliverAll(v: View, cs: seq<Claim>): (r: View)
    requires Deliverable(v, cs)
    ensures |r.owners| == |v.owners| && r.epochs.Keys == v.epochs.Keys
  {
    if cs == [] then v else
      assert cs[|cs| - 1] in cs;
      Deliver(DeliverAll(v, cs[..|cs| - 1]), cs[|cs| - 1])
  }

  // Claims may repeat; different masters have different epochs.
  ghost predicate OneEpochEach(cs: seq<Claim>) {
    forall c, d | c in cs && d in cs && (c.sender == d.sender || c.epoch == d.epoch) :: c == d
  }

  // Nothing assigned yet, and nothing known that is newer than the claims.
  ghost predicate Unassigned(v: View, cs: seq<Claim>) {
    && (forall j | 0 <= j < |v.owners| :: v.owners[j] == None)
    && (forall c | c in cs && c.sender in v.epochs :: v.epochs[c.sender] <= c.epoch)
  }

  ghost predicate Claims(c: Claim, j: nat) { j < |c.slots| && c.slots[j] }

  // `c` is the newest claim for slot `j`.
  ghost predicate Newest(cs: seq<Claim>, j: nat, c: Claim) {
    c in cs && Claims(c, j) && forall d | d in cs && Claims(d, j) :: d.epoch <= c.epoch
  }

  ghost predicate Settled(v: View, cs: seq<Claim>, j: nat)
    requires j < |v.owners|
  {
    match v.owners[j]
    case None => forall c | c in cs :: !Claims(c, j)
    case Some(n) => exists c | c in cs :: c.sender == n && Newest(cs, j, c)
  }

  ghost predicate EpochsLearned(v: View, cs: seq<Claim>) {
    forall c | c in cs :: c.sender in v.epochs && v.epochs[c.sender] == c.epoch
  }

  lemma DeliverSettles(v: View, cs: seq<Claim>, c: Claim, j: nat)
    requires Deliverable(v, cs + [c]) && OneEpochEach(cs + [c]) && j < |v.owners|
    requires c.sender in v.epochs && v.epochs[c.sender] <= c.epoch && |c.slots| == |v.owners|
    requires Settled(v, cs, j) && EpochsLearned(v, cs)
    ensures Settled(Deliver(v, c), cs + [c], j)
  {
    var ds, r := cs + [c], Deliver(v, c);
    assert c in ds && forall d | d in ds :: d in cs || d == c;
    assert forall d | d in cs :: d in ds;
    if !Claims(c, j) {
      if v.owners[j].Some? {
        var d :| d in cs && d.sender == v.owners[j].value && Newest(cs, j, d);
        assert Newest(ds, j, d);
      }
    } else if v.owners[j].None? {
      assert Newest(ds, j, c);
    } else {
      var d :| d in cs && d.sender == v.owners[j].value && Newest(cs, j, d);
      if d.epoch < c.epoch {
        assert d.sender != c.sender;
        assert r.owners[j] == Some(c.sender);
        assert Newest(ds, j, c);
      } else {
        assert Newest(ds, j, d);
      }
    }
  }

  lemma {:induction false} DeliverAllLearns(v: View, cs: seq<Claim>)
    requires Deliverable(v, cs) && OneEpochEach(cs) && Unassigned(v, cs)
    ensures EpochsLearned(DeliverAll(v, cs), cs)
    ensures forall n | n in v.epochs && (forall c | c in cs :: c.sender != n) :: DeliverAll(v, cs).epochs[n] == v.epochs[n]
  {
    if cs != [] {
      var k := |cs| - 1;
      var ds, c := cs[..k], cs[k];
      assert cs == ds + [c] && forall d | d in ds :: d in cs;
      assert c in cs;
      DeliverAllLearns(v, ds);
      LearnsOne(DeliverAll(v, ds), ds, c);
    }
  }

  lemma LearnsOne(v: View, ds: seq<Claim>, c: Claim)
    requires Deliverable(v, ds + [c]) && OneEpochEach(ds + [c]) && EpochsLearned(v, ds)
    requires c.sender in v.epochs && |c.slots| == |v.owners|
    requires (forall d | d in ds :: d.sender != c.sender) ==> v.epochs[c.sender] <= c.epoch
    ensures EpochsLearned(Deliver(v, c), ds + [c])
    ensures forall n | n in v.epochs && n != c.sender :: Deliver(v, c).epochs[n] == v.epochs[n]
  {
    hide AfterClaim;
    var cs := ds + [c];
    assert c in cs && forall d | d in ds :: d in cs;
  }

  // The next sender is known with an epoch no newer than its claim.
  lemma NextIsNotOlder(v: View, ds: seq<Claim>, c: Claim)
    requires Deliverable(v, ds + [c]) && OneEpochEach(ds + [c]) && Unassigned(v, ds + [c])
    ensures Deliverable(v, ds) && OneEpochEach(ds) && Unassigned(v, ds) && c.sender in v.epochs
    ensures DeliverAll(v, ds).epochs[c.sender] <= c.epoch
  {
    var cs := ds + [c];
    assert c in cs && forall d | d in ds :: d in cs;
    DeliverAllLearns(v, ds);
  }

  lemma {:induction false} DeliverAllSettles(v: View, cs: seq<Claim>, j: nat)
    requires Deliverable(v, cs) && OneEpochEach(cs) && Unassigned(v, cs) && j < |v.owners|
    ensures Settled(DeliverAll(v, cs), cs, j)
  {
    if cs != [] {
      hide Settled, OneEpochEach, EpochsLearned, Unassigned, Deliver;
      var k := |cs| - 1;
      var ds, c := cs[..k], cs[k];
      assert cs == ds + [c];
      NextIsNotOlder(v, ds, c);
      DeliverAllSettles(v, ds, j);
      DeliverAllLearns(v, ds);
      DeliverSettles(DeliverAll(v, ds), ds, c, j);
    }
  }

  /** Delivering claims of other masters with pairwise different config epochs, in any order and any
      number of times, binds each slot to the claimant with the greatest epoch. */
  lemma NewestClaimWins(v: View, cs: seq<Claim>, j: nat)
    requires Deliverable(v, cs) && OneEpochEach(cs) && Unassigned(v, cs) && j < |v.owners|
    ensures forall c | Newest(cs, j, c) :: DeliverAll(v, cs).owners[j] == Some(c.sender)
    ensures (forall c | c in cs :: !Claims(c, j)) ==> DeliverAll(v, cs).owners[j] == None
  {
    DeliverAllSettles(v, cs, j);
  }

  lemma {:induction false} SomeNewest(cs: seq<Claim>, j: nat, c: Claim) returns (d: Claim)
    requires c in cs && Claims(c, j)
    ensures Newest(cs, j, d)
  {
    var k := |cs| - 1;
    var rest := cs[..k];
    assert cs == rest + [cs[k]];
    if exists x | x in rest :: Claims(x, j) {
      var x :| x in rest && Claims(x, j);
      var e := SomeNewest(rest, j, x);
      d := if Claims(cs[k], j) && cs[k].epoch > e.epoch then cs[k] else e;
    } else {
      d := c;
    }
  }

  lemma SameSlot(v: View, w: View, cs: seq<Claim>, ds: seq<Claim>, j: nat)
    requires Deliverable(v, cs) && OneEpochEach(cs) && Unassigned(v, cs)
    requires Deliverable(w, ds) && OneEpochEach(ds) && Unassigned(w, ds)
    requires j < |v.owners| == |w.owners| && forall c :: c in cs <==> c in ds
    ensures DeliverAll(v, cs).owners[j] == DeliverAll(w, ds).owners[j]
  {
    hide DeliverAll, OneEpochEach, Unassigned;
    NewestClaimWins(v, cs, j);
    NewestClaimWins(w, ds, j);
    if exists c | c in cs :: Claims(c, j) {
      var c :| c in cs && Claims(c, j);
      var d := SomeNewest(cs, j, c);
      assert Newest(ds, j, d);
    }
  }

  /** Two nodes that heard the same claims agree on every slot, whatever the order. */
  lemma OrderIrrelevant(v: View, w: View, cs: seq<Claim>, ds: seq<Claim>)
    requires Deliverable(v, cs) && OneEpochEach(cs) && Unassigned(v, cs)
    requires Deliverable(w, ds) && Unassigned(w, ds)
    requires |v.owners| == |w.owners| && forall c :: c in cs <==> c in ds
    ensures DeliverAll(v, cs).owners == DeliverAll(w, ds).owners
  {
    assert OneEpochEach(ds);
    hide DeliverAll, OneEpochEach, Unassigned, Deliverable;
    forall j | 0 <= j < |v.owners| ensures DeliverAll(v, cs).owners[j] == DeliverAll(w, ds).owners[j] {
      SameSlot(v, w, cs, ds, j);
    }
  }

  ghost function Seen(t: Table): View
    reads t, t.slots
  {
    View(t.slots[..], EpochsOf(t.nodes))
  }

  /** A node that hears the claims one after the other ends in their joint effect; from an unassigned
      table, with the newest claimant of every slot. Only a replica without a master can break off. */
  method HearClaims(t: Table, cs: seq<Claim>, hasKeys: seq<seq<bool>>, noRedirection: bool) returns (broken: bool)
    requires t.Valid() && Deliverable(Seen(t), cs)
    requires (forall c | c in cs :: c.sender != t.myself) && forall j | 0 <= j < CLUSTER_SLOTS :: t.importing[j] == None
    requires |hasKeys| == |cs| && forall k | k in hasKeys :: |k| == CLUSTER_SLOTS
    modifies t, t.slots, t.importing, t.migrating
    ensures t.Valid() && Deliverable(old(Seen(t)), cs)
    ensures broken ==> old(t.CurMaster()).None? && !noRedirection
    ensures !broken ==> Seen(t) == DeliverAll(old(Seen(t)), cs)
    ensures !broken && OneEpochEach(cs) && Unassigned(old(Seen(t)), cs) ==>
              forall j, c | 0 <= j < CLUSTER_SLOTS && Newest(cs, j, c) :: t.slots[j] == Some(c.sender)
  {
    hide OneEpochEach, Unassigned, Newest, DeliverAll, AfterClaim, EpochsOf, Learned, Agree, Deliverable;
    ghost var v := Seen(t);
    DeliveredNone(v);
    assert cs[..0] == [];
    broken := false;
    for i := 0 to |cs|
      invariant t.Valid() && (t.CurMaster().None? ==> old(t.CurMaster()).None?)
      invariant forall j | 0 <= j < CLUSTER_SLOTS :: t.importing[j] == None
      invariant Deliverable(v, cs[..i]) && Seen(t) == DeliverAll(v, cs[..i])
    {
      var c := cs[i];
      assert c in cs && hasKeys[i] in hasKeys;
      ghost var before, imports := Seen(t), t.importing[..];
      Known(v, cs, i, before, t.nodes);
      var dirty;
      dirty, broken := t.ProcessClaim(c.sender, c.epoch, c.slots, hasKeys[i], noRedirection);
      if broken { return; }
      DeliveredNext(v, cs, i, imports, before, Seen(t));
    }
    assert cs[..|cs|] == cs;
    if OneEpochEach(cs) && Unassigned(v, cs) {
      forall j, c | 0 <= j < CLUSTER_SLOTS && Newest(cs, j, c) ensures t.slots[j] == Some(c.sender) {
        NewestClaimWins(v, cs, j);
        assert t.slots[..][j] == Some(c.sender);
      }
    }
  }

  lemma DeliveredNone(v: View)
    ensures Deliverable(v, []) && DeliverAll(v, []) == v
  {}

  // The next sender is one of the nodes the table knows.
  lemma Known(v: View, cs: seq<Claim>, i: nat, seen: View, nodes: map<Name, Info>)
    requires Deliverable(v, cs) && i < |cs| && Deliverable(v, cs[..i]) && seen == DeliverAll(v, cs[..i])
    requires seen.epochs == EpochsOf(nodes)
    ensures cs[i].sender in nodes && cs[i].sender in seen.epochs && |cs[i].slots| == |seen.owners|
  {
    hide DeliverAll;
    assert cs[i] in cs;
    assert seen.epochs.Keys == v.epochs.Keys;
  }

  lemma DeliveredNext(v: View, cs: seq<Claim>, i: nat, imports: seq<Option<Name>>, before: View, after: View)
    requires Deliverable(v, cs) && i < |cs| && Deliverable(v, cs[..i]) && before == DeliverAll(v, cs[..i])
    requires cs[i].sender in before.epochs && |cs[i].slots| == |before.owners| == |imports|
    requires forall j | 0 <= j < |imports| :: imports[j] == None
    requires after.epochs == Learned(before.epochs, cs[i].sender, cs[i].epoch)
    requires after.owners == AfterClaim(before.owners, after.epochs, imports, cs[i].sender, cs[i].epoch, cs[i].slots)
    ensures Deliverable(v, cs[..i + 1]) && after == DeliverAll(v, cs[..i + 1])
  {
    hide AfterClaim, Learned;
    var ds := cs[..i + 1];
    assert imports == NoImports(|imports|);
    assert forall c | c in ds :: c in cs;
    assert ds[..i] == cs[..i] && ds[i] == cs[i];
  }
}
