/** The local slot table of cluster.c: who owns each hash slot, and the same fact in every node's
    bitmap and counter. */
module SlotTable {
  import opened Common
  import opened ClusterBus

  const CLUSTER_SLOTS: nat := 16384

  datatype Info = Info(configEpoch: nat, bitmap: seq<bool>, numslots: nat)

  function Count(bits: seq<bool>): nat {
    if bits == [] then 0 else (if bits[0] then 1 else 0) + Count(bits[1..])
  }

  lemma {:induction false} CountUpdate(bits: seq<bool>, j: nat, b: bool)
    requires j < |bits|
    ensures Count(bits[j := b]) == Count(bits) - (if bits[j] then 1 else 0) + (if b then 1 else 0)
  {
    if j > 0 {
      assert bits[j := b][1..] == bits[1..][j - 1 := b];
      CountUpdate(bits[1..], j - 1, b);
    } else {
      assert bits[0 := b][1..] == bits[1..];
    }
  }

  lemma {:induction false} CountZero(bits: seq<bool>)
    ensures Count(bits) == 0 <==> forall j | 0 <= j < |bits| :: !bits[j]
  {
    if bits != [] {
      CountZero(bits[1..]);
      assert forall j | 0 <= j < |bits[1..]| :: bits[1..][j] == bits[j + 1];
      assert bits == [bits[0]] + bits[1..];
    }
  }

  // A node's bit is set exactly for the slots it owns, and its counter counts those bits.
  ghost predicate BitmapOk(owners: seq<Option<Name>>, n: Name, info: Info) {
    && |info.bitmap| == |owners| && info.numslots == Count(info.bitmap)
    && forall j | 0 <= j < |owners| :: info.bitmap[j] <==> owners[j] == Some(n)
  }

  ghost predicate Agree(owners: seq<Option<Name>>, nodes: map<Name, Info>) {
    && (forall n | n in nodes :: BitmapOk(owners, n, nodes[n]))
    && (forall j | 0 <= j < |owners| :: owners[j].Some? ==> owners[j].value in nodes)
  }

  lemma AgreeDel(owners: seq<Option<Name>>, nodes: map<Name, Info>, j: nat, n: Name, info: Info)
    requires Agree(owners, nodes) && j < |owners| && owners[j] == Some(n) && n in nodes && nodes[n] == info
    ensures info.bitmap[j] && info.numslots > 0
    ensures Agree(owners[j := None], nodes[n := info.(bitmap := info.bitmap[j := false], numslots := info.numslots - 1)])
  {
    CountUpdate(info.bitmap, j, false);
    assert BitmapOk(owners, n, info);
    forall m | m in nodes && m != n ensures BitmapOk(owners[j := None], m, nodes[m]) {
      assert BitmapOk(owners, m, nodes[m]);
    }
  }

  lemma AgreeAdd(owners: seq<Option<Name>>, nodes: map<Name, Info>, j: nat, n: Name, info: Info)
    requires Agree(owners, nodes) && j < |owners| && owners[j] == None && n in nodes && nodes[n] == info
    ensures !info.bitmap[j]
    ensures Agree(owners[j := Some(n)], nodes[n := info.(bitmap := info.bitmap[j := true], numslots := info.numslots + 1)])
  {
    CountUpdate(info.bitmap, j, true);
    assert BitmapOk(owners, n, info);
    forall m | m in nodes && m != n ensures BitmapOk(owners[j := Some(n)], m, nodes[m]) {
      assert BitmapOk(owners, m, nodes[m]);
    }
  }

  // Who owns a slot after a claim for it: newer config epochs win, slots being imported are kept.
  function Rebind(owner: Option<Name>, epochs: map<Name, nat>, importing: bool, sender: Name, epoch: nat): Option<Name> {
    if owner == Some(sender) || importing then owner
    else if owner.None? || owner.value !in epochs || epochs[owner.value] < epoch then Some(sender)
    else owner
  }

  function EpochsOf(nodes: map<Name, Info>): map<Name, nat> { map n | n in nodes :: nodes[n].configEpoch }

  ghost predicate SameEpochs(a: map<Name, Info>, b: map<Name, Info>) {
    a.Keys == b.Keys && forall n | n in a :: a[n].configEpoch == b[n].configEpoch
  }

  // What agreement says about one node.
  lemma OwnerBit(owners: seq<Option<Name>>, nodes: map<Name, Info>, n: Name)
    requires Agree(owners, nodes) && n in nodes
    ensures |nodes[n].bitmap| == |owners|
    ensures forall j | 0 <= j < |owners| :: nodes[n].bitmap[j] <==> owners[j] == Some(n)
    ensures nodes[n].numslots == 0 <==> forall j | 0 <= j < |owners| :: owners[j] != Some(n)
  {
    assert BitmapOk(owners, n, nodes[n]);
    CountZero(nodes[n].bitmap);
  }

  // The owners after node `sender` claims the slots of bitmap `claimed` with config epoch `epoch`.
  function AfterClaim(
    owners: seq<Option<Name>>, epochs: map<Name, nat>, importing: seq<Option<Name>>,
    sender: Name, epoch: nat, claimed: seq<bool>): (r: seq<Option<Name>>)
    requires |claimed| == |importing| == |owners|
    ensures |r| == |owners|
  {
    seq(|owners|, j requires 0 <= j < |owners| =>
      if claimed[j] then Rebind(owners[j], epochs, importing[j].Some?, sender, epoch) else owners[j])
  }

  // Among the first `k` slots, those taken away from `me` that still hold keys.
  function LostWithKeys(
    before: seq<Option<Name>>, after: seq<Option<Name>>, me: Name, hasKeys: seq<bool>, k: nat): seq<nat>
    requires k <= |before| == |after| == |hasKeys|
  {
    if k == 0 then [] else
      LostWithKeys(before, after, me, hasKeys, k - 1)
      + if before[k - 1] == Some(me) && after[k - 1] != Some(me) && hasKeys[k - 1] then [k - 1] else []
  }

  // Among the first `k` slots, one was taken away from `r`; from None: an unassigned one was taken.
  predicate Taken(before: seq<Option<Name>>, after: seq<Option<Name>>, r: Option<Name>, k: nat)
    requires k <= |before| == |after|
  {
    k > 0 && (Taken(before, after, r, k - 1) || (before[k - 1] == r && after[k - 1] != r))
  }

  // An unassigned slot is claimed that is not being imported.
  ghost predicate ClaimsFree(owners: seq<Option<Name>>, importing: seq<Option<Name>>, claimed: seq<bool>)
    requires |owners| == |importing| == |claimed|
  {
    exists j | 0 <= j < |owners| :: claimed[j] && owners[j] == None && importing[j] == None
  }

  lemma {:induction false} TakenFree(
    owners: seq<Option<Name>>, epochs: map<Name, nat>, importing: seq<Option<Name>>,
    sender: Name, epoch: nat, claimed: seq<bool>, k: nat)
    requires |owners| == |importing| == |claimed| && k <= |owners|
    ensures Taken(owners, AfterClaim(owners, epochs, importing, sender, epoch, claimed), None, k)
        <==> exists j | 0 <= j < k :: claimed[j] && owners[j] == None && importing[j] == None
  {
    if k > 0 {
      TakenFree(owners, epochs, importing, sender, epoch, claimed, k - 1);
    }
  }

  lemma NothingYet(owners: seq<Option<Name>>, me: Name, r: Option<Name>, hasKeys: seq<bool>)
    requires |owners| == |hasKeys|
    ensures forall after: seq<Option<Name>> | |after| == |owners| ::
      LostWithKeys(owners, after, me, hasKeys, 0) == [] && !Taken(owners, after, r, 0)
  {}

  lemma OneMore(before: seq<Option<Name>>, after: seq<Option<Name>>, me: Name, r: Option<Name>, hasKeys: seq<bool>, k: nat)
    requires k < |before| == |after| == |hasKeys|
    ensures LostWithKeys(before, after, me, hasKeys, k + 1) == LostWithKeys(before, after, me, hasKeys, k)
      + if before[k] == Some(me) && after[k] != Some(me) && hasKeys[k] then [k] else []
    ensures Taken(before, after, r, k + 1) == (Taken(before, after, r, k) || (before[k] == r && after[k] != r))
  {}

  lemma {:induction false} TakenIff(before: seq<Option<Name>>, after: seq<Option<Name>>, r: Option<Name>, k: nat)
    requires k <= |before| == |after|
    ensures Taken(before, after, r, k) <==> exists j | 0 <= j < k :: before[j] == r && after[j] != r
  {
    if k > 0 {
      TakenIff(before, after, r, k - 1);
    }
  }

  // In increasing order, exactly the slots that were taken away and hold keys.
  ghost predicate IsLost(
    dirty: seq<nat>, before: seq<Option<Name>>, after: seq<Option<Name>>, me: Name, hasKeys: seq<bool>)
    requires |before| == |after| == |hasKeys|
  {
    && (forall a, b | 0 <= a < b < |dirty| :: dirty[a] < dirty[b])
    && forall j: nat :: j in dirty <==> j < |before| && before[j] == Some(me) && after[j] != Some(me) && hasKeys[j]
  }

  lemma {:induction false} LostIs(
    before: seq<Option<Name>>, after: seq<Option<Name>>, me: Name, hasKeys: seq<bool>, k: nat)
    requires k <= |before| == |after| == |hasKeys|
    ensures IsLost(LostWithKeys(before, after, me, hasKeys, k), before[..k], after[..k], me, hasKeys[..k])
  {
    if k > 0 {
      LostIs(before, after, me, hasKeys, k - 1);
      var dirty := LostWithKeys(before, after, me, hasKeys, k - 1);
      assert forall a | 0 <= a < |dirty| :: dirty[a] in dirty && dirty[a] < k - 1;
    }
  }

  lemma LostAll(before: seq<Option<Name>>, after: seq<Option<Name>>, me: Name, hasKeys: seq<bool>, k: nat)
    requires k == |before| == |after| == |hasKeys|
    ensures IsLost(LostWithKeys(before, after, me, hasKeys, k), before, after, me, hasKeys)
  {
    LostIs(before, after, me, hasKeys, k);
    assert before[..k] == before && after[..k] == after && hasKeys[..k] == hasKeys;
  }

  // A claimed slot goes to the claimant if it has no owner or one with an older config epoch, unless
  // it is being imported; every other slot keeps its owner.
  ghost predicate Rebound(
    before: seq<Option<Name>>, after: seq<Option<Name>>, nodes: map<Name, Info>, importing: seq<Option<Name>>,
    sender: Name, epoch: nat, claimed: seq<bool>)
    requires |before| == |after| == |importing| == |claimed|
  {
    forall j | 0 <= j < |before| ::
      && (before[j].Some? ==> before[j].value in nodes)
      && after[j] == if claimed[j] && importing[j] == None
                        && (before[j] == None || nodes[before[j].value].configEpoch < epoch)
                     then Some(sender) else before[j]
  }

  lemma ClaimRebinds(
    owners: seq<Option<Name>>, nodes: map<Name, Info>, epochs: map<Name, nat>, importing: seq<Option<Name>>,
    sender: Name, epoch: nat, claimed: seq<bool>)
    requires |owners| == |importing| == |claimed| && Agree(owners, nodes) && epochs.Keys == nodes.Keys
    requires forall n | n in nodes && n != sender :: epochs[n] == nodes[n].configEpoch
    ensures Rebound(owners, AfterClaim(owners, epochs, importing, sender, epoch, claimed), nodes, importing, sender, epoch, claimed)
  {}

  // Some slot was taken away from `r`, and it has none left.
  ghost predicate Emptied(before: seq<Option<Name>>, after: seq<Option<Name>>, r: Option<Name>)
    requires |before| == |after|
  {
    (exists j | 0 <= j < |before| :: before[j] == r && after[j] != r) && forall j | 0 <= j < |after| :: after[j] != r
  }

  function Without(r: Option<Name>, n: Name): Option<Name> { if r == Some(n) then None else r }

  class Table {
    const myself: Name
    const slots: array<Option<Name>>
    const importing: array<Option<Name>>
    const migrating: array<Option<Name>>
    var nodes: map<Name, Info>
    var role: Role

    ghost predicate Shape() {
      && slots.Length == importing.Length == migrating.Length == CLUSTER_SLOTS
      && slots != importing && slots != migrating && importing != migrating
    }

    // The table and the bitmaps agree, and a replica owns nothing.
    ghost predicate Valid()
      reads this, slots
    {
      && Shape() && myself in nodes && Agree(slots[..], nodes)
      && (role.Replica? ==> nodes[myself].numslots == 0)
      && (role.Replica? && role.of.Some? ==> role.of.value in nodes && role.of.value != myself)
    }

    constructor (me: Name, epoch: nat)
      ensures Valid() && fresh(slots) && fresh(importing) && fresh(migrating)
      ensures myself == me && nodes == map[me := Info(epoch, seq(CLUSTER_SLOTS, _ => false), 0)]
      ensures role == Master && forall j | 0 <= j < CLUSTER_SLOTS :: slots[j] == None
    {
      myself := me;
      slots := new Option<Name>[CLUSTER_SLOTS](_ => None);
      importing := new Option<Name>[CLUSTER_SLOTS](_ => None);
      migrating := new Option<Name>[CLUSTER_SLOTS](_ => None);
      nodes := map[me := Info(epoch, seq(CLUSTER_SLOTS, _ => false), 0)];
      role := Master;
      new;
      CountZero(seq(CLUSTER_SLOTS, _ => false));
    }

    /** A node becomes known, with no slots. */
    method AddNode(n: Name)
      requires Valid() && n !in nodes
      modifies this`nodes
      ensures Valid() && nodes == old(nodes)[n := Info(0, seq(CLUSTER_SLOTS, _ => false), 0)]
    {
      AgreeNew(slots[..], nodes, n);
      nodes := nodes[n := Info(0, seq(CLUSTER_SLOTS, _ => false), 0)];
    }

    /** Assigns a free slot; refuses a slot that has an owner. */
    method AddSlot(n: Name, j: nat) returns (ok: bool)
      requires Shape() && Agree(slots[..], nodes) && n in nodes && j < CLUSTER_SLOTS
      modifies this`nodes, slots
      ensures Agree(slots[..], nodes)
      ensures ok == (old(slots[j]) == None)
      ensures slots[..] == old(slots[..])[j := if ok then Some(n) else old(slots[j])]
      ensures SameEpochs(nodes, old(nodes))
      ensures forall m | m in nodes && m != n :: nodes[m] == old(nodes)[m]
      ensures nodes[n].numslots == old(nodes)[n].numslots + if ok then 1 else 0
    {
      if slots[j].Some? {
        return false;
      }
      var info := nodes[n];
      AgreeAdd(slots[..], nodes, j, n, info);
      nodes := nodes[n := info.(bitmap := info.bitmap[j := true], numslots := info.numslots + 1)];
      slots[j] := Some(n);
      ok := true;
    }

    /** Releases a slot; the owner's bit is always found set. */
    method DelSlot(j: nat) returns (ok: bool)
      requires Shape() && Agree(slots[..], nodes) && j < CLUSTER_SLOTS
      modifies this`nodes, slots
      ensures Agree(slots[..], nodes)
      ensures ok == (old(slots[j]) != None)
      ensures slots[..] == old(slots[..])[j := None]
      ensures SameEpochs(nodes, old(nodes))
      ensures forall m | m in nodes && old(slots[j]) != Some(m) :: nodes[m] == old(nodes)[m]
      ensures forall m | m in nodes && old(slots[j]) == Some(m) :: nodes[m].numslots == old(nodes)[m].numslots - 1
    {
      match slots[j]
      case None =>
        assert slots[..] == slots[..][j := None];
        return false;
      case Some(n) =>
        var info := nodes[n];
        AgreeDel(slots[..], nodes, j, n, info);
        assert info.bitmap[j]; // the assertion of clusterDelSlot
        nodes := nodes[n := info.(bitmap := info.bitmap[j := false], numslots := info.numslots - 1)];
        slots[j] := None;
        ok := true;
    }
  
    /** Releases everything a node owns and reports how many slots that was. */
    method DelNodeSlots(n: Name) returns (deleted: nat)
      requires Valid() && n in nodes
      modifies this`nodes, slots
      ensures Valid() && SameEpochs(nodes, old(nodes))
      ensures deleted == old(nodes)[n].numslots && nodes[n].numslots == 0
      ensures forall j | 0 <= j < CLUSTER_SLOTS ::
                slots[j] == if old(slots[j]) == Some(n) then None else old(slots[j])
      ensures forall m | m in nodes && m != n :: nodes[m] == old(nodes)[m]
    {
      hide Agree;
      deleted := 0;
      for j := 0 to CLUSTER_SLOTS
        invariant Valid() && SameEpochs(nodes, old(nodes))
        invariant forall i | 0 <= i < j :: slots[i] == if old(slots[i]) == Some(n) then None else old(slots[i])
        invariant forall i | j <= i < CLUSTER_SLOTS :: slots[i] == old(slots[i])
        invariant forall m | m in nodes && m != n :: nodes[m] == old(nodes)[m]
        invariant deleted + nodes[n].numslots == old(nodes)[n].numslots
      {
        OwnerBit(slots[..], nodes, n);
        if nodes[n].bitmap[j] {
          var ok := DelSlot(j);
          deleted := deleted + 1;
        }
      }
      OwnerBit(slots[..], nodes, n);
    }

    // The node whose slots are this node's concern: itself, or its master if it has one.
    function CurMaster(): Option<Name>
      reads this
    {
      if role.Master? then Some(myself) else role.of
    }

    // Moves one slot to `n`.
    method MoveSlot(j: nat, n: Name)
      requires Valid() && n in nodes && (n != myself || role.Master?) && j < CLUSTER_SLOTS
      modifies this`nodes, slots
      ensures Valid() && SameEpochs(nodes, old(nodes))
      ensures slots[..] == old(slots[..])[j := Some(n)]
    {
      hide Agree;
      var deleted := DelSlot(j);
      var added := AddSlot(n, j);
    }

    // The loop over all slots; `newMaster`: a slot was taken from `curMaster`.
    method RebindSlots(sender: Name, epoch: nat, claimed: seq<bool>, hasKeys: seq<bool>, curMaster: Option<Name>)
      returns (dirty: seq<nat>, newMaster: bool)
      requires Valid() && sender in nodes && sender != myself && |claimed| == |hasKeys| == CLUSTER_SLOTS
      modifies this`nodes, slots
      ensures Valid() && SameEpochs(nodes, old(nodes))
      ensures slots[..] == AfterClaim(old(slots[..]), EpochsOf(old(nodes)), importing[..], sender, epoch, claimed)
      ensures newMaster ==> Some(sender) != curMaster
      ensures newMaster == Taken(old(slots[..]), slots[..], curMaster, CLUSTER_SLOTS)
      ensures dirty == LostWithKeys(old(slots[..]), slots[..], myself, hasKeys, CLUSTER_SLOTS)
    {
      hide Agree, LostWithKeys, Taken;
      dirty, newMaster := [], false;
      NothingYet(slots[..], myself, curMaster, hasKeys);
      ghost var owners, infos := slots[..], nodes;
      ghost var target := AfterClaim(owners, EpochsOf(infos), importing[..], sender, epoch, claimed);
      for j := 0 to CLUSTER_SLOTS
        invariant Valid() && SameEpochs(nodes, infos)
        invariant slots[..] == target[..j] + owners[j..]
        invariant newMaster ==> Some(sender) != curMaster
        invariant newMaster == Taken(owners, target, curMaster, j)
        invariant dirty == LostWithKeys(owners, target, myself, hasKeys, j)
      {
        ghost var before := slots[..];
        assert before[j] == owners[j];
        OwnerKnown(slots[..], nodes, j);
        if claimed[j] && slots[j] != Some(sender) && importing[j].None?
          && (slots[j].None? || nodes[slots[j].value].configEpoch < epoch) {
          if slots[j] == Some(myself) && hasKeys[j] {
            dirty := dirty + [j];
          }
          if slots[j] == curMaster {
            newMaster := true;
          }
          MoveSlot(j, sender);
        }
        OneMore(owners, target, myself, curMaster, hasKeys, j);
        assert slots[..] == before[j := target[j]];
        PrefixDone(slots[..], target, owners, j);
      }
      assert slots[..] == target;
    }

    /** Applies a slot claim. Nothing but slot owners changes, unless the claim took the last slot of
        this node (or of its master): then it becomes a replica of the claimant. Otherwise the result
        lists the slots lost while they still held keys. A replica without a master follows its null
        master exactly when an unassigned slot was taken: `broken`. */
    method UpdateSlotsConfigWith(
      sender: Name, epoch: nat, claimed: seq<bool>, hasKeys: seq<bool>, noRedirection: bool)
      returns (dirty: seq<nat>, broken: bool)
      requires Valid() && sender in nodes && |claimed| == |hasKeys| == CLUSTER_SLOTS
      modifies this, slots, importing, migrating
      ensures Valid() && SameEpochs(nodes, old(nodes))
      ensures sender == myself ==> slots[..] == old(slots[..])
      ensures sender != myself ==>
                slots[..] == AfterClaim(old(slots[..]), EpochsOf(old(nodes)), old(importing[..]), sender, epoch, claimed)
      ensures role == old(role) ==> importing[..] == old(importing[..]) && migrating[..] == old(migrating[..])
      ensures role != old(role) ==>
                && role == Replica(Some(sender)) && sender != myself && !noRedirection
                && Taken(old(slots[..]), slots[..], old(CurMaster()), CLUSTER_SLOTS)
                && (forall j | 0 <= j < CLUSTER_SLOTS :: slots[j] != old(CurMaster()))
                && old(CurMaster()).Some?
      ensures broken <==>
                && sender != myself && !noRedirection && old(CurMaster()).None?
                && ClaimsFree(old(slots[..]), old(importing[..]), claimed)
      ensures role != old(role) ==> forall j | 0 <= j < CLUSTER_SLOTS ::
                && importing[j] == (if old(role).Master? then None else old(importing[j]))
                && migrating[j] == (if old(role).Master? then None else old(migrating[j]))
      ensures sender != myself && !noRedirection && Taken(old(slots[..]), slots[..], old(CurMaster()), CLUSTER_SLOTS)
              && old(CurMaster()).Some? && (forall j | 0 <= j < CLUSTER_SLOTS :: slots[j] != old(CurMaster())) ==>
                role == Replica(Some(sender))
      ensures role == old(role) && !noRedirection ==>
                dirty == LostWithKeys(old(slots[..]), slots[..], myself, hasKeys, CLUSTER_SLOTS)
      ensures role == old(role) && !noRedirection ==> IsLost(dirty, old(slots[..]), slots[..], myself, hasKeys)
      ensures sender != myself ==>
                Rebound(old(slots[..]), slots[..], old(nodes), old(importing[..]), sender, epoch, claimed)
      ensures role != old(role) <==>
                && sender != myself && !noRedirection && old(CurMaster()).Some?
                && Emptied(old(slots[..]), slots[..], old(CurMaster()))
    {
      hide Agree, Rebound, IsLost;
      var curMaster := CurMaster();
      ClaimRebinds(slots[..], nodes, EpochsOf(nodes), importing[..], sender, epoch, claimed);
      dirty, broken := [], false;
      TakenFree(slots[..], EpochsOf(nodes), importing[..], sender, epoch, claimed, CLUSTER_SLOTS);
      if sender == myself {
        NothingLost(slots[..], myself, hasKeys, CLUSTER_SLOTS);
        LostAll(slots[..], slots[..], myself, hasKeys, CLUSTER_SLOTS);
        return;
      }
      var newMaster;
      dirty, newMaster := RebindSlots(sender, epoch, claimed, hasKeys, curMaster);
      TakenIff(old(slots[..]), slots[..], curMaster, CLUSTER_SLOTS);
      LostAll(old(slots[..]), slots[..], myself, hasKeys, CLUSTER_SLOTS);
      if noRedirection {
        return;
      }
      if curMaster.None? {
        broken := newMaster;
        return;
      }
      OwnerBit(slots[..], nodes, curMaster.value);
      if newMaster && nodes[curMaster.value].numslots == 0 {
        assert nodes[myself].numslots == 0; // the assertion of clusterSetMaster
        if role.Master? {
          CloseAllSlots();
        }
        role := Replica(Some(sender));
      }
    }

    /** A PING or PONG of a master: its epoch is learned first, and its slots are looked at only when
        they differ from the ones recorded for it, which changes nothing. */
    method ProcessClaim(sender: Name, epoch: nat, claimed: seq<bool>, hasKeys: seq<bool>, noRedirection: bool)
      returns (dirty: seq<nat>, broken: bool)
      requires Valid() && sender in nodes && sender != myself && |claimed| == |hasKeys| == CLUSTER_SLOTS
      modifies this, slots, importing, migrating
      ensures Valid()
      ensures EpochsOf(nodes) == Learned(EpochsOf(old(nodes)), sender, epoch)
      ensures slots[..] == AfterClaim(old(slots[..]), EpochsOf(nodes), old(importing[..]), sender, epoch, claimed)
      ensures role == old(role) || (role == Replica(Some(sender)) && old(CurMaster()).Some? && !noRedirection)
      ensures broken <==>
                && !noRedirection && old(CurMaster()).None?
                && ClaimsFree(old(slots[..]), old(importing[..]), claimed)
      ensures forall j | 0 <= j < CLUSTER_SLOTS ::
                && importing[j] == (if role != old(role) && old(role).Master? then None else old(importing[j]))
                && migrating[j] == (if role != old(role) && old(role).Master? then None else old(migrating[j]))
      ensures Rebound(old(slots[..]), slots[..], old(nodes), old(importing[..]), sender, epoch, claimed)
      ensures sender in nodes && nodes[sender].configEpoch == Max(old(nodes)[sender].configEpoch, epoch)
      ensures forall n | n in nodes && n != sender :: n in old(nodes) && nodes[n].configEpoch == old(nodes)[n].configEpoch
      ensures role != old(role) <==>
                !noRedirection && old(CurMaster()).Some? && Emptied(old(slots[..]), slots[..], old(CurMaster()))
      ensures role == old(role) && !noRedirection ==> IsLost(dirty, old(slots[..]), slots[..], myself, hasKeys)
    {
      hide Agree, AfterClaim, Taken, ClaimsFree, Rebound, IsLost;
      dirty, broken := [], false;
      var info := nodes[sender];
      ClaimRebinds(slots[..], nodes, Learned(EpochsOf(nodes), sender, epoch), importing[..], sender, epoch, claimed);
      nodes := nodes[sender := info.(configEpoch := Max(info.configEpoch, epoch))];
      AgreeEpoch(slots[..], old(nodes), nodes);
      assert EpochsOf(nodes) == Learned(EpochsOf(old(nodes)), sender, epoch);
      ghost var infos := nodes;
      if info.bitmap != claimed {
        dirty, broken := UpdateSlotsConfigWith(sender, epoch, claimed, hasKeys, noRedirection);
        SameEpochsOf(nodes, infos);
        assert forall j | 0 <= j < CLUSTER_SLOTS ::
          importing[j] == importing[..][j] && migrating[j] == migrating[..][j];
      } else {
        NoNews(slots[..], nodes, importing[..], sender, epoch);
        OwnClaims(slots[..], nodes, importing[..], sender);
        NothingLost(slots[..], myself, hasKeys, CLUSTER_SLOTS);
        LostAll(slots[..], slots[..], myself, hasKeys, CLUSTER_SLOTS);
      }
    }

    /** A failover: this replica takes every slot of its master and becomes a master. */
    method FailoverReplaceYourMaster()
      requires Valid()
      modifies this, slots
      ensures Valid() && SameEpochs(nodes, old(nodes))
      ensures old(role.Master? || role.of.None?) ==> role == old(role) && slots[..] == old(slots[..])
      ensures old(role.Replica? && role.of.Some?) ==>
                && role == Master
                && forall j | 0 <= j < CLUSTER_SLOTS ::
                     slots[j] == if old(slots[j]) == old(role).of then Some(myself) else old(slots[j])
    {
      hide Agree;
      if role.Master? || role.of.None? {
        return;
      }
      var master := role.of.value;
      role := Master;
      for j := 0 to CLUSTER_SLOTS
        invariant Valid() && SameEpochs(nodes, old(nodes)) && role == Master
        invariant forall i | 0 <= i < j :: slots[i] == if old(slots[i]) == Some(master) then Some(myself) else old(slots[i])
        invariant forall i | j <= i < CLUSTER_SLOTS :: slots[i] == old(slots[i])
      {
        OwnerBit(slots[..], nodes, master);
        if nodes[master].bitmap[j] {
          MoveSlot(j, myself);
        }
      }
    }

    // What slot `j` has to do with node `n` is cleared.
    method DropReferences(j: nat, n: Name)
      requires Valid() && n in nodes && j < CLUSTER_SLOTS
      modifies this`nodes, slots, importing, migrating
      ensures Valid() && nodes.Keys == old(nodes).Keys
      ensures forall m | m in nodes && m != n :: nodes[m] == old(nodes)[m]
      ensures slots[..] == old(slots[..])[j := Without(old(slots[j]), n)]
      ensures importing[..] == old(importing[..])[j := Without(old(importing[j]), n)]
      ensures migrating[..] == old(migrating[..])[j := Without(old(migrating[j]), n)]
    {
      hide Agree;
      if importing[j] == Some(n) {
        importing[j] := None;
      }
      if migrating[j] == Some(n) {
        migrating[j] := None;
      }
      if slots[j] == Some(n) {
        var ok := DelSlot(j);
      }
    }

    /** Forgets a node: its slots become unassigned, nothing refers to it any more. */
    method DelNode(n: Name)
      requires Valid() && n in nodes && n != myself
      modifies this, slots, importing, migrating
      ensures Valid() && nodes.Keys == old(nodes).Keys - {n}
      ensures forall m | m in nodes :: nodes[m] == old(nodes)[m]
      ensures forall j | 0 <= j < CLUSTER_SLOTS ::
                && slots[j] == (if old(slots[j]) == Some(n) then None else old(slots[j]))
                && importing[j] == (if old(importing[j]) == Some(n) then None else old(importing[j]))
                && migrating[j] == (if old(migrating[j]) == Some(n) then None else old(migrating[j]))
      ensures role == if old(role) == Replica(Some(n)) then Replica(None) else old(role)
    {
      hide Agree;
      for j := 0 to CLUSTER_SLOTS
        invariant Valid() && nodes.Keys == old(nodes).Keys && role == old(role)
        invariant forall m | m in nodes && m != n :: nodes[m] == old(nodes)[m]
        invariant forall i | 0 <= i < j :: slots[i] == Without(old(slots[i]), n)
        invariant forall i | j <= i < CLUSTER_SLOTS :: slots[i] == old(slots[i])
        invariant forall i | 0 <= i < j ::
                    && importing[i] == Without(old(importing[i]), n)
                    && migrating[i] == Without(old(migrating[i]), n)
        invariant forall i | j <= i < CLUSTER_SLOTS ::
                    importing[i] == old(importing[i]) && migrating[i] == old(migrating[i])
      {
        DropReferences(j, n);
      }
      AgreeForget(slots[..], nodes, n);
      nodes := nodes - {n};
      if role == Replica(Some(n)) {
        role := Replica(None);
      }
    }

    /** CLUSTER RESET: a master that knows only itself and owns nothing, after HARD with epoch zero. */
    method Reset(hard: bool)
      requires Valid()
      modifies this, slots, importing, migrating
      ensures Valid() && role == Master && nodes.Keys == {myself}
      ensures nodes[myself].configEpoch == (if hard then 0 else old(nodes)[myself].configEpoch)
      ensures nodes[myself].numslots == 0
      ensures forall j | 0 <= j < CLUSTER_SLOTS :: slots[j] == importing[j] == migrating[j] == None
    {
      hide Agree;
      role := Master;
      CloseAllSlots();
      for j := 0 to CLUSTER_SLOTS
        invariant Valid() && SameEpochs(nodes, old(nodes)) && role == Master
        invariant forall i | 0 <= i < j :: slots[i] == None
        invariant forall i | 0 <= i < CLUSTER_SLOTS :: importing[i] == migrating[i] == None
      {
        var ok := DelSlot(j);
      }
      OwnerBit(slots[..], nodes, myself);
      var others := nodes.Keys - {myself};
      while others != {}
        invariant Valid() && role == Master && nodes.Keys == others + {myself} && myself !in others
        invariant nodes[myself].configEpoch == old(nodes)[myself].configEpoch && nodes[myself].numslots == 0
        invariant forall i | 0 <= i < CLUSTER_SLOTS :: slots[i] == importing[i] == migrating[i] == None
        decreases others
      {
        var n :| n in others;
        DelNode(n);
        others := others - {n};
      }
      if hard {
        ghost var before := nodes;
        nodes := nodes[myself := nodes[myself].(configEpoch := 0)];
        AgreeEpoch(slots[..], before, nodes);
      }
    }

    method CloseAllSlots()
      requires Shape()
      modifies importing, migrating
      ensures forall j | 0 <= j < CLUSTER_SLOTS :: importing[j] == None && migrating[j] == None
    {
      for j := 0 to CLUSTER_SLOTS
        invariant forall i | 0 <= i < j :: importing[i] == None && migrating[i] == None
      {
        importing[j], migrating[j] := None, None;
      }
    }
  }

  lemma PrefixDone<T>(now: seq<T>, target: seq<T>, start: seq<T>, j: nat)
    requires j < |target| == |start|
    requires now == (target[..j] + start[j..])[j := target[j]]
    ensures now == target[..j + 1] + start[j + 1..]
  {}

  lemma OwnerKnown(owners: seq<Option<Name>>, nodes: map<Name, Info>, j: nat)
    requires Agree(owners, nodes) && j < |owners|
    ensures owners[j].Some? ==> owners[j].value in nodes
  {}

  lemma {:induction false} NothingLost(owners: seq<Option<Name>>, me: Name, hasKeys: seq<bool>, k: nat)
    requires k <= |owners| == |hasKeys|
    ensures LostWithKeys(owners, owners, me, hasKeys, k) == []
  {
    if k > 0 {
      NothingLost(owners, me, hasKeys, k - 1);
    }
  }

  function Learned(epochs: map<Name, nat>, sender: Name, epoch: nat): map<Name, nat>
    requires sender in epochs
  {
    epochs[sender := Max(epochs[sender], epoch)]
  }

  // Slots recorded for a node are not unassigned.
  lemma OwnClaims(owners: seq<Option<Name>>, nodes: map<Name, Info>, importing: seq<Option<Name>>, n: Name)
    requires Agree(owners, nodes) && n in nodes && |importing| == |owners| == |nodes[n].bitmap|
    ensures !ClaimsFree(owners, importing, nodes[n].bitmap)
  {
    assert BitmapOk(owners, n, nodes[n]);
  }

  lemma SameEpochsOf(a: map<Name, Info>, b: map<Name, Info>)
    requires SameEpochs(a, b)
    ensures EpochsOf(a) == EpochsOf(b)
  {}

  // A claim that repeats what is recorded changes nothing.
  lemma NoNews(
    owners: seq<Option<Name>>, nodes: map<Name, Info>, importing: seq<Option<Name>>, sender: Name, epoch: nat)
    requires Agree(owners, nodes) && sender in nodes && |importing| == |owners|
    ensures |nodes[sender].bitmap| == |owners|
    ensures AfterClaim(owners, EpochsOf(nodes), importing, sender, epoch, nodes[sender].bitmap) == owners
  {
    hide Agree;
    OwnerBit(owners, nodes, sender);
  }

  lemma AgreeEpoch(owners: seq<Option<Name>>, nodes: map<Name, Info>, nodes': map<Name, Info>)
    requires Agree(owners, nodes) && nodes.Keys == nodes'.Keys
    requires forall n | n in nodes :: nodes'[n].bitmap == nodes[n].bitmap && nodes'[n].numslots == nodes[n].numslots
    ensures Agree(owners, nodes')
  {
    forall n | n in nodes' ensures BitmapOk(owners, n, nodes'[n]) {
      assert BitmapOk(owners, n, nodes[n]);
    }
  }

  lemma AgreeNew(owners: seq<Option<Name>>, nodes: map<Name, Info>, n: Name)
    requires Agree(owners, nodes) && n !in nodes && |owners| == CLUSTER_SLOTS
    ensures Agree(owners, nodes[n := Info(0, seq(CLUSTER_SLOTS, _ => false), 0)])
  {
    var info := Info(0, seq(CLUSTER_SLOTS, _ => false), 0);
    CountZero(info.bitmap);
    forall m | m in nodes ensures BitmapOk(owners, m, nodes[m]) {}
    assert BitmapOk(owners, n, info);
  }

  lemma AgreeForget(owners: seq<Option<Name>>, nodes: map<Name, Info>, n: Name)
    requires Agree(owners, nodes) && forall j | 0 <= j < |owners| :: owners[j] != Some(n)
    ensures Agree(owners, nodes - {n})
  {
    forall m | m in nodes - {n} ensures BitmapOk(owners, m, (nodes - {n})[m]) {
      assert BitmapOk(owners, m, nodes[m]);
    }
  }
}
