/** The handlers of cluster.c on the fields of one node, proved to be the steps of the cluster bus. */
module ClusterNode {
  import opened Common
  import opened ClusterBus

  // What one call of the failover handler did.
  datatype Action = Waited | Delayed | Asked | Promoted

  lemma OnlyMe(config: map<Name, nat>, me: Name)
    requires me in config
    ensures |config| <= 1 <==> config == map[me := config[me]]
  {
    assert config.Keys == {me} + (config.Keys - {me});
  }

  class LocalNode {
    const me: Name
    var currentEpoch: nat
    var config: map<Name, nat>
    var lastVoteEpoch: nat
    var authEpoch: nat
    var authCount: nat
    var authSent: bool
    var authTime: int
    var role: Role
    var serving: bool
    var votedTime: map<Name, int>  // when this node last voted about a master

    constructor (me: Name, n: Node)
      ensures this.me == me && View() == n && authTime == 0 && votedTime == map[]
    {
      this.me := me;
      currentEpoch, config, lastVoteEpoch := n.currentEpoch, n.config, n.lastVoteEpoch;
      authEpoch, authCount, authSent, authTime := n.authEpoch, n.authCount, n.authSent, 0;
      role, serving, votedTime := n.role, n.serving, map[];
    }

    function View(): Node
      reads this
    {
      Node(currentEpoch, config, lastVoteEpoch, authEpoch, authCount, authSent, role, serving)
    }

    /** The greatest of the current epoch and all known config epochs. */
    method GetMaxEpoch() returns (max: nat)
      ensures max >= currentEpoch && forall x | x in config :: config[x] <= max
      ensures max == currentEpoch || exists x | x in config :: config[x] == max
    {
      max := 0;
      var rest := config.Keys;
      while rest != {}
        invariant rest <= config.Keys
        invariant forall x | x in config && x !in rest :: config[x] <= max
        invariant max == 0 || exists x | x in config :: config[x] == max
        decreases rest
      {
        var x :| x in rest;
        if config[x] > max {
          max := config[x];
        }
        rest := rest - {x};
      }
      if max < currentEpoch {
        max := currentEpoch;
      }
    }

    /** A replica announces the config epoch of its master, every other node its own. */
    method BuildMessageHdr() returns (h: Header)
      requires me in config
      ensures h == HeaderOf(me, View())
      ensures h.from == me && h.currentEpoch == currentEpoch
      ensures role.Replica? && role.of.Some? && role.of.value in config ==> h.configEpoch == config[role.of.value]
      ensures role.Master? || role.of.None? ==> h.configEpoch == config[me]
    {
      var owner := me;
      if role.Replica? && role.of.Some? && role.of.value in config {
        owner := role.of.value;
      }
      h := Header(me, currentEpoch, config[owner]);
    }

    method BumpConfigEpochWithoutConsensus() returns (ok: bool)
      requires me in config
      modifies `currentEpoch, `config
      ensures ok == Bumps(me, old(View()))
      ensures View() == if ok then NextEpoch(me, old(View())) else old(View())
      ensures !ok <==> old(config[me] > 0 && currentEpoch <= config[me] && forall x | x in config :: config[x] <= config[me])
      ensures ok ==> currentEpoch == old(currentEpoch) + 1 && config == old(config)[me := currentEpoch]
      ensures !ok ==> currentEpoch == old(currentEpoch) && config == old(config)
    {
      var maxEpoch := GetMaxEpoch();
      ok := config[me] == 0 || config[me] != maxEpoch;
      if ok {
        currentEpoch := currentEpoch + 1;
        config := config[me := currentEpoch];
      }
    }

    /** CLUSTER SET-CONFIG-EPOCH, for a node that knows nobody and has no config epoch yet. */
    method SetConfigEpoch(epoch: int, ghost electorate: Electorate) returns (ok: bool)
      requires me in config
      modifies `currentEpoch, `config
      ensures ok <==> epoch >= 0 && Blank(me, old(View()))
      ensures ok ==> epoch >= 0 && View() == NodeAfter(me, old(View()), electorate, Step.SetConfigEpoch(me, epoch))
      ensures ok <==> epoch >= 0 && old(config) == map[me := 0]
      ensures ok ==> epoch >= 0 && config == map[me := epoch] && currentEpoch == Max(old(currentEpoch), epoch)
      ensures !ok ==> View() == old(View())
    {
      if epoch < 0 || |config| > 1 || config[me] != 0 {
        OnlyMe(config, me);
        return false;
      }
      OnlyMe(config, me);
      config := config[me := epoch];
      if currentEpoch < epoch {
        currentEpoch := epoch;
      }
      ok := true;
    }

    method HandleConfigEpochCollision(sender: Name, senderIsMaster: bool)
      requires me in config && sender in config
      modifies `currentEpoch, `config
      ensures View() ==
                if old(config[sender] == config[me] && senderIsMaster && role.Master? && sender > me)
                then NextEpoch(me, old(View())) else old(View())
      ensures old(config[sender] == config[me] && senderIsMaster && role.Master? && sender > me) ==>
                currentEpoch == old(currentEpoch) + 1 && config == old(config)[me := currentEpoch]
    {
      if config[sender] != config[me] || !senderIsMaster || !role.Master? {
        return;
      }
      if sender <= me {
        return;
      }
      currentEpoch := currentEpoch + 1;
      config := config[me := currentEpoch];
    }

    // The part of packet processing common to all messages of known nodes.
    method AbsorbHeader(h: Header)
      requires h.from in config
      modifies `currentEpoch, `config
      ensures View() == Absorb(old(View()), h)
      ensures currentEpoch == Max(old(currentEpoch), h.currentEpoch)
      ensures config == old(config)[h.from := Max(old(config[h.from]), h.configEpoch)]
    {
      if h.currentEpoch > currentEpoch {
        currentEpoch := h.currentEpoch;
      }
      if h.configEpoch > config[h.from] {
        config := config[h.from := h.configEpoch];
      }
      assert config == old(config)[h.from := Max(old(config)[h.from], h.configEpoch)];
    }

    method ProcessPing(h: Header, fromMaster: bool, demoted: bool)
      requires me in config && h.from in config
      modifies `currentEpoch, `config, `role, `serving
      ensures View() == OnPing(me, old(View()), h, fromMaster, demoted)
      ensures role == (if demoted then Replica(Some(h.from)) else old(role)) && serving == (old(serving) && !demoted)
      ensures var heard := old(config)[h.from := Max(old(config[h.from]), h.configEpoch)];
              var moves := old(role).Master? && !demoted && fromMaster && h.from > me
                            && old(config[h.from]) <= h.configEpoch == old(config[me]);
              && currentEpoch == Max(old(currentEpoch), h.currentEpoch) + (if moves then 1 else 0)
              && config == if moves then heard[me := currentEpoch] else heard
    {
      AbsorbHeader(h);
      if demoted {
        role, serving := Replica(Some(h.from)), false;
      }
      if role.Master? && fromMaster && h.configEpoch == config[me] {
        HandleConfigEpochCollision(h.from, fromMaster);
      }
    }

    method ProcessUpdate(h: Header, about: Name, epoch: nat, demoted: bool)
      requires h.from in config
      modifies `currentEpoch, `config, `role, `serving
      ensures View() == OnUpdate(me, old(View()), h, about, epoch, demoted)
      ensures var heard := old(config)[h.from := Max(old(config[h.from]), h.configEpoch)];
              var news := about in heard && heard[about] < epoch;
              && currentEpoch == Max(old(currentEpoch), h.currentEpoch)
              && config == (if news then heard[about := epoch] else heard)
              && role == (if news && demoted && about != me then Replica(Some(about)) else old(role))
              && serving == (old(serving) && !(news && demoted && about != me))
    {
      AbsorbHeader(h);
      if about !in config || config[about] >= epoch {
        return;
      }
      config := config[about := epoch];
      if about != me && demoted {
        role, serving := Replica(Some(about)), false;
      }
    }

    // No claimed slot may have an owner with a newer config epoch than the request.
    ghost predicate SlotsCurrent(claimed: seq<bool>, owners: seq<Option<Name>>, epoch: nat)
      reads this
    {
      forall j | 0 <= j < |claimed| && j < |owners| && claimed[j] && owners[j].Some? && owners[j].value in config ::
        config[owners[j].value] <= epoch
    }

    function VotedAt(master: Name): int
      reads this
    {
      if master in votedTime then votedTime[master] else 0
    }

    /** A vote request: the answer is a vote exactly when the bus step grants one. */
    method SendFailoverAuthIfNeeded(
      h: Header, claimed: seq<bool>, owners: seq<Option<Name>>, now: int, nodeTimeout: nat,
      candidateIsReplica: bool, master: Option<Name>, masterFailed: bool, forceAck: bool)
      returns (vote: bool)
      requires h.from in config && |claimed| == |owners|
      modifies `currentEpoch, `config, `lastVoteEpoch, `votedTime
      ensures var willing := candidateIsReplica && master.Some? && (masterFailed || forceAck)
                             && now - old(VotedAt(master.value)) >= 2 * nodeTimeout
                             && SlotsCurrent(claimed, owners, h.configEpoch);
              && View() == OnRequest(old(View()), h, willing)
              && vote == Grants(Absorb(old(View()), h), h, willing)
              && (vote <==> old(role.Master? && serving) && h.currentEpoch >= old(currentEpoch)
                            && old(lastVoteEpoch) != h.currentEpoch && willing)
      ensures lastVoteEpoch == if vote then h.currentEpoch else old(lastVoteEpoch)
      ensures currentEpoch == Max(old(currentEpoch), h.currentEpoch)
      ensures config == old(config)[h.from := Max(old(config[h.from]), h.configEpoch)]
      ensures votedTime == if vote && master.Some? then old(votedTime)[master.value := now] else old(votedTime)
    {
      vote := false;
      AbsorbHeader(h);
      ghost var n := View();
      assert View() == OnRequest(old(View()), h, false);
      if role.Replica? || !serving {
        return;
      }
      if h.currentEpoch < currentEpoch {
        return;
      }
      if lastVoteEpoch == currentEpoch {
        return;
      }
      if !candidateIsReplica || master.None? || (!masterFailed && !forceAck) {
        return;
      }
      if now - VotedAt(master.value) < nodeTimeout * 2 {
        return;
      }
      for j := 0 to |claimed|
        invariant View() == n && !vote && votedTime == old(votedTime)
        invariant SlotsCurrent(claimed[..j], owners[..j], h.configEpoch)
      {
        if claimed[j] && owners[j].Some? && owners[j].value in config && config[owners[j].value] > h.configEpoch {
          return;
        }
      }
      assert claimed[..|claimed|] == claimed && owners[..|claimed|] == owners;
      votedTime := votedTime[master.value := now];
      lastVoteEpoch := currentEpoch;
      vote := true;
      assert View() == OnRequest(old(View()), h, true);
    }

    method ProcessAck(h: Header, senderVotes: bool, ghost electorate: Electorate)
      requires h.from in config && senderVotes == (h.from in electorate(authEpoch))
      modifies `currentEpoch, `config, `authCount
      ensures View() == OnAck(old(View()), h, electorate)
      ensures authCount == old(authCount) + (if senderVotes && h.currentEpoch >= old(authEpoch) then 1 else 0)
      ensures currentEpoch == Max(old(currentEpoch), h.currentEpoch)
      ensures config == old(config)[h.from := Max(old(config[h.from]), h.configEpoch)]
    {
      AbsorbHeader(h);
      if senderVotes && h.currentEpoch >= authEpoch {
        authCount := authCount + 1;
      }
    }

    /** The failover handler of a replica. Each call does at most one thing: set up an election once
        the last one is over, ask for votes, or take over with a quorum. A rank that got worse adds to
        the delay of an election that has not started. */
    method HandleSlaveFailover(
      now: int, delay: nat, addedDelay: nat, nodeTimeout: nat, canFailover: bool, dataFresh: bool, size: nat,
      ghost electorate: Electorate)
      returns (act: Action)
      requires me in config && size == |electorate(authEpoch)|
      modifies this
      ensures View() ==
                match act
                case Waited => old(View())
                case Delayed => Scheduled(old(View()))
                case Asked => Started(old(View()))
                case Promoted => TakeOver(me, old(View()))
      ensures act == Delayed ==> authCount == 0 && !authSent
      ensures act == Asked ==> currentEpoch == authEpoch == old(currentEpoch) + 1 && authSent && authCount == old(authCount)
      ensures act == Promoted ==>
                && old(Elected(View(), electorate))
                && role == Master && serving && config == old(config)[me := Max(old(config[me]), old(authEpoch))]
                && currentEpoch == old(currentEpoch)
      ensures !(old(role.Replica? && role.of.Some?) && canFailover && dataFresh) ==> act == Waited && authTime == old(authTime)
      ensures old(role.Replica? && role.of.Some?) && canFailover && dataFresh ==>
                var age, limit := now - old(authTime), Max(2 * nodeTimeout, 2000);
                && (act == Delayed <==> age > 2 * limit)
                && (act == Asked <==> addedDelay <= age <= limit && !old(authSent))
                && (act == Promoted <==> 0 <= age <= limit && old(authSent) && old(authCount) >= size / 2 + 1)
                && authTime == (if act == Delayed then now + delay
                                else if old(authSent) then old(authTime) else old(authTime) + addedDelay)
    {
      var authAge := now - authTime;
      var neededQuorum := size / 2 + 1;
      var authTimeout := if nodeTimeout * 2 < 2000 then 2000 else nodeTimeout * 2;
      act := Waited;
      if role.Master? || role.of.None? || !canFailover || !dataFresh {
        return;
      }
      if authAge > authTimeout * 2 {
        authTime, authCount, authSent := now + delay, 0, false;
        return Delayed;
      }
      if !authSent {
        authTime := authTime + addedDelay;
      }
      if now < authTime || authAge > authTimeout {
        return;
      }
      if !authSent {
        currentEpoch := currentEpoch + 1;
        authEpoch := currentEpoch;
        authSent := true;
        return Asked;
      }
      if authCount >= neededQuorum {
        if config[me] < authEpoch {
          config := config[me := authEpoch];
        }
        role, serving := Master, true;
        assert config == old(config)[me := Max(old(config)[me], authEpoch)];
        return Promoted;
      }
    }
  }
}
