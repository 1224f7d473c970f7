/**
 * From elections to slots: where config epochs come from elections only, the masters that won one have
 * pairwise different config epochs, so their slot claims settle every slot the same way everywhere.
 */
module ClusterWinners {
  import opened Common
  import opened ClusterBus
  import opened ClusterEpochs
  import opened ClusterElection
  import opened ClusterCollision
  import opened SlotClaims

  // Steps that leave a node's own config epoch to elections: no epoch without consensus, by command or
  // after a collision, and no UPDATE that tells a node a newer epoch of itself.
  predicate ByElection(s: State, step: Step) {
    match step
    case Bump(_) => false
    case SetConfigEpoch(_, _) => false
    case Receive(m, _) =>
      && (m.Ping? ==> !Moves(s, step))
      && (m.Update? ==> m.about != m.to || (m.to in s.nodes && m.to in s.nodes[m.to].config && m.epoch <= s.nodes[m.to].config[m.to]))
    case _ => true
  }

  ghost predicate ElectedRun(electorate: Electorate, run: seq<State>, steps: seq<Step>) {
    && IsRun(electorate, run, steps) && PromotionsHold(electorate, run, steps)
    && forall i | 0 <= i < |steps| :: ByElection(run[i], steps[i])
  }

  ghost predicate Won(s: State, n: Name, epoch: nat) { exists w | w in s.wins :: w.winner == n && w.epoch == epoch }

  ghost predicate Winner(s: State, n: Name) { exists w | w in s.wins :: w.winner == n }

  // A node's own epoch is the one it started with, or one it won; a winner's is one it won.
  ghost predicate OwnOk(first: nat, s: State, n: Name)
    requires n in s.nodes && n in s.nodes[n].config
  {
    && Own(s, n) >= first && (s.nodes[n].authSent ==> s.nodes[n].authEpoch > first)
    && (Won(s, n, Own(s, n)) || (Own(s, n) == first && !Winner(s, n)))
  }

  lemma Received(s: State, electorate: Electorate, step: Step)
    requires EpochInv(s) && Enabled(s, electorate, step) && ByElection(s, step) && step.Receive?
    ensures var me := Actor(step);
            var n, n' := s.nodes[me], NodeAfter(me, s.nodes[me], electorate, step);
            && me in n.config && me in n'.config && n'.config[me] == n.config[me]
            && n'.authSent == n.authSent && n'.authEpoch == n.authEpoch
  {}

  lemma Acted(s: State, electorate: Electorate, step: Step)
    requires EpochInv(s) && Enabled(s, electorate, step) && ByElection(s, step) && !step.Receive?
    ensures var me := Actor(step);
            var n, n' := s.nodes[me], NodeAfter(me, s.nodes[me], electorate, step);
            && me in n.config && me in n'.config
            && n'.config[me] == (if step.Promote? then Max(n.config[me], n.authEpoch) else n.config[me])
            && (n'.authSent ==> (n.authSent && n'.authEpoch == n.authEpoch) || n'.authEpoch > n.config[me])
            && (step.Promote? ==> n.authSent)
  {}

  // What a step does to a node's own epoch, its election and the wins.
  lemma OwnMoves(s: State, electorate: Electorate, step: Step, n: Name)
    requires EpochInv(s) && Enabled(s, electorate, step) && ByElection(s, step) && n in s.nodes
    ensures var s' := Apply(s, electorate, step);
            && n in s.nodes[n].config && n in s'.nodes && n in s'.nodes[n].config
            && Own(s', n) == (if step == Promote(n) then Max(Own(s, n), s.nodes[n].authEpoch) else Own(s, n))
            && (s'.nodes[n].authSent ==>
                  (s.nodes[n].authSent && s'.nodes[n].authEpoch == s.nodes[n].authEpoch) || s'.nodes[n].authEpoch > Own(s, n))
            && (step == Promote(n) ==> s.nodes[n].authSent)
  {
    hide NodeAfter, Sent, TallyAfter, ByElection;
    if n == Actor(step) {
      if step.Receive? { Received(s, electorate, step); } else { Acted(s, electorate, step); }
    }
  }

  lemma WinsMove(s: State, electorate: Electorate, step: Step, n: Name)
    requires WellFormed(s) && Enabled(s, electorate, step) && n in s.nodes
    ensures var s' := Apply(s, electorate, step);
            && s.wins <= s'.wins && (forall w | w in s'.wins && w.winner == n && step != Promote(n) :: w in s.wins)
            && (step == Promote(n) ==> Won(s', n, s.nodes[n].authEpoch))
  {
    hide NodeAfter, Sent, TallyAfter;
    if step == Promote(n) {
      assert Win(n, s.nodes[n].authEpoch, s.tallies[n]) in Apply(s, electorate, step).wins;
    }
  }

  lemma OwnOkStep(first: nat, s: State, electorate: Electorate, step: Step, n: Name)
    requires EpochInv(s) && Enabled(s, electorate, step) && ByElection(s, step) && n in s.nodes
    requires n in s.nodes[n].config && OwnOk(first, s, n)
    ensures var s' := Apply(s, electorate, step); n in s'.nodes && n in s'.nodes[n].config && OwnOk(first, s', n)
  {
    OwnMoves(s, electorate, step, n);
    WinsMove(s, electorate, step, n);
    hide Apply, EpochInv, Enabled, ByElection;
    var s' := Apply(s, electorate, step);
    if Won(s, n, Own(s, n)) {
      var w :| w in s.wins && w.winner == n && w.epoch == Own(s, n);
      assert w in s'.wins;
    }
  }

  lemma ElectedIsRun(electorate: Electorate, run: seq<State>, steps: seq<Step>)
    requires ElectedRun(electorate, run, steps)
    ensures IsRun(electorate, run, steps) && run != []
  {}

  lemma ElectedStep(electorate: Electorate, run: seq<State>, steps: seq<Step>, k: nat)
    requires ElectedRun(electorate, run, steps) && k < |steps| && k < |run|
    ensures ByElection(run[k], steps[k])
  {
    hide IsRun, PromotionsHold, ByElection;
  }

  lemma {:induction false} OwnSafe(electorate: Electorate, run: seq<State>, steps: seq<Step>, k: nat, n: Name)
    requires ElectedRun(electorate, run, steps) && k < |run| && n in run[0].nodes
    ensures n in run[0].nodes[n].config && n in run[k].nodes && n in run[k].nodes[n].config
    ensures OwnOk(Own(run[0], n), run[k], n)
  {
    hide *;
    ElectedIsRun(electorate, run, steps);
    RunInit(electorate, run, steps);
    NothingWon(run[0], n);
    if k > 0 {
      OwnSafe(electorate, run, steps, k - 1, n);
      RunLeads(electorate, run, steps, k - 1);
      ElectedStep(electorate, run, steps, k - 1);
      EpochsBounded(electorate, run, steps, k - 1);
      OwnOkStep(Own(run[0], n), run[k - 1], electorate, steps[k - 1], n);
    }
  }

  lemma NothingWon(s: State, n: Name)
    requires Init(s) && n in s.nodes
    ensures n in s.nodes[n].config && OwnOk(Own(s, n), s, n)
  {}

  /** Masters that won elections have pairwise different config epochs, in every state of every run in
      which config epochs come from elections and every promotion has a quorum without stray votes. */
  lemma WinnersDiffer(electorate: Electorate, run: seq<State>, steps: seq<Step>, k: nat, v: Name, w: Name)
    requires ElectedRun(electorate, run, steps) && k < |run| && v in run[0].nodes && w in run[0].nodes
    requires Winner(run[k], v) && Winner(run[k], w) && v != w
    ensures v in run[k].nodes && w in run[k].nodes && v in run[k].nodes[v].config && w in run[k].nodes[w].config
    ensures Own(run[k], v) != Own(run[k], w)
  {
    hide IsRun, PromotionsHold, ByElection, Own;
    OwnSafe(electorate, run, steps, k, v);
    OwnSafe(electorate, run, steps, k, w);
    if Own(run[k], v) == Own(run[k], w) {
      var x :| x in run[k].wins && x.winner == v && x.epoch == Own(run[k], v);
      var y :| y in run[k].wins && y.winner == w && y.epoch == Own(run[k], w);
      OneWinnerByQuorum(electorate, run, steps, k, x, y);
    }
  }

  // Claims that winners of the state make with their own epochs, each its own slots.
  ghost predicate ClaimsOfWinners(s: State, slots: map<Name, seq<bool>>, cs: seq<Claim>) {
    forall c | c in cs ::
      && c.sender in s.nodes && c.sender in s.nodes[c.sender].config && Winner(s, c.sender)
      && c.epoch == Own(s, c.sender) && c.sender in slots && c.slots == slots[c.sender]
  }

  lemma WinnersClaimOnce(
    electorate: Electorate, run: seq<State>, steps: seq<Step>, k: nat, slots: map<Name, seq<bool>>, cs: seq<Claim>)
    requires ElectedRun(electorate, run, steps) && k < |run| && ClaimsOfWinners(run[k], slots, cs)
    ensures OneEpochEach(cs)
  {
    hide ElectedRun, Own, Winner;
    ElectedIsRun(electorate, run, steps);
    SameNames(electorate, run, steps, k);
    forall c, d | c in cs && d in cs && (c.sender == d.sender || c.epoch == d.epoch) ensures c == d {
      if c.sender != d.sender { WinnersDiffer(electorate, run, steps, k, c.sender, d.sender); }
    }
  }

  /** End to end: two nodes without assigned slots that hear the claims of election winners, in any order
      and with repeats, give every claimed slot to the winner with the greatest epoch, and agree. */
  lemma WinnersSettleSlots(
    electorate: Electorate, run: seq<State>, steps: seq<Step>, k: nat, slots: map<Name, seq<bool>>,
    v: View, w: View, cs: seq<Claim>, ds: seq<Claim>)
    requires ElectedRun(electorate, run, steps) && k < |run| && ClaimsOfWinners(run[k], slots, cs)
    requires Deliverable(v, cs) && Unassigned(v, cs) && Deliverable(w, ds) && Unassigned(w, ds)
    requires |v.owners| == |w.owners| && forall c :: c in cs <==> c in ds
    ensures DeliverAll(v, cs).owners == DeliverAll(w, ds).owners
    ensures forall j, c | 0 <= j < |v.owners| && Newest(cs, j, c) :: DeliverAll(v, cs).owners[j] == Some(c.sender)
  {
    hide ElectedRun, ClaimsOfWinners, OneEpochEach, Unassigned, DeliverAll, Newest;
    WinnersClaimOnce(electorate, run, steps, k, slots, cs);
    OrderIrrelevant(v, w, cs, ds);
    forall j, c | 0 <= j < |v.owners| && Newest(cs, j, c) ensures DeliverAll(v, cs).owners[j] == Some(c.sender) {
      NewestClaimWins(v, cs, j);
    }
  }
}
