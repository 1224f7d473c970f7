/** What every run of the cluster bus keeps about epochs. */
module ClusterEpochs {
  import opened ClusterBus

  // No epoch a node stores is ahead of its current epoch.
  ghost predicate Bounded(n: Node) {
    && (forall x | x in n.config :: n.config[x] <= n.currentEpoch)
    && n.lastVoteEpoch <= n.currentEpoch
    && n.authEpoch <= n.currentEpoch
  }

  // Neither is any epoch a message carries.
  ghost predicate Sane(m: Message) {
    && m.hdr.configEpoch <= m.hdr.currentEpoch
    && (m.Update? ==> m.epoch <= m.hdr.currentEpoch)
  }

  ghost predicate EpochInv(s: State) {
    && WellFormed(s)
    && (forall n | n in s.nodes :: Bounded(s.nodes[n]))
    && (forall m | m in s.net :: Sane(m))
  }

  lemma HandleBounded(me: Name, n: Node, electorate: Electorate, m: Message, choice: bool)
    requires me in n.config && Bounded(n) && Sane(m)
    ensures Bounded(Handle(me, n, electorate, m, choice))
    ensures Handle(me, n, electorate, m, choice).currentEpoch >= n.currentEpoch
  {}

  lemma NodeBounded(me: Name, n: Node, electorate: Electorate, step: Step)
    requires me in n.config && Bounded(n) && (step.Receive? ==> Sane(step.m))
    ensures Bounded(NodeAfter(me, n, electorate, step))
    ensures NodeAfter(me, n, electorate, step).currentEpoch >= n.currentEpoch
  {
    if step.Receive? {
      HandleBounded(me, n, electorate, step.m, step.choice);
    }
  }

  lemma SentSane(s: State, electorate: Electorate, step: Step, m: Message)
    requires EpochInv(s) && Enabled(s, electorate, step)
    requires m in Sent(s, electorate, step)
    ensures Sane(m)
  {
    var me := Actor(step);
    NodeBounded(me, s.nodes[me], electorate, step);
  }

  lemma EpochInvStep(s: State, electorate: Electorate, step: Step)
    requires EpochInv(s) && Enabled(s, electorate, step)
    ensures EpochInv(Apply(s, electorate, step))
    ensures forall n | n in s.nodes ::
              && n in Apply(s, electorate, step).nodes
              && s.nodes[n].currentEpoch <= Apply(s, electorate, step).nodes[n].currentEpoch
  {
    var me, s' := Actor(step), Apply(s, electorate, step);
    ApplyWellFormed(s, electorate, step);
    NodeBounded(me, s.nodes[me], electorate, step);
    forall m | m in s'.net ensures Sane(m) {
      if m !in s.net {
        SentSane(s, electorate, step, m);
      }
    }
  }

  lemma InitEpochs(s: State)
    requires Init(s)
    ensures EpochInv(s)
  {}

  /** In every state of every run, each configEpoch in a node's table is at most that node's
      currentEpoch, and so is each epoch in a message with respect to its header. */
  lemma {:induction false} EpochsBounded(electorate: Electorate, run: seq<State>, steps: seq<Step>, k: nat)
    requires IsRun(electorate, run, steps) && k < |run|
    ensures EpochInv(run[k])
    ensures run[k].nodes.Keys == run[0].nodes.Keys
  {
    hide *;
    RunInit(electorate, run, steps);
    if k == 0 {
      InitEpochs(run[0]);
    } else {
      EpochsBounded(electorate, run, steps, k - 1);
      RunLeads(electorate, run, steps, k - 1);
      EpochInvStep(run[k - 1], electorate, steps[k - 1]);
      ApplyWellFormed(run[k - 1], electorate, steps[k - 1]);
    }
  }

  // A message sent is under way, and the sender stays as it is.
  lemma SentIsUnderWay(s: State, electorate: Electorate, step: Step, m: Message)
    requires WellFormed(s) && Enabled(s, electorate, step) && (step.SendPing? || step.SendUpdate?)
    requires m in Sent(s, electorate, step)
    ensures m in Apply(s, electorate, step).net && Apply(s, electorate, step).nodes == s.nodes
  {
    hide Sent, TallyAfter, Votes;
  }

  lemma ReceivedIsHandled(s: State, electorate: Electorate, m: Message, choice: bool)
    requires WellFormed(s) && m in s.net
    ensures Enabled(s, electorate, Receive(m, choice)) && m.to in s.nodes && m.to in s.nodes[m.to].config
    ensures Apply(s, electorate, Receive(m, choice)).nodes
         == s.nodes[m.to := Handle(m.to, s.nodes[m.to], electorate, m, choice)]
  {
    hide Sent, TallyAfter, Votes, Handle;
  }

  lemma HandleTeaches(me: Name, n: Node, electorate: Electorate, m: Message, choice: bool)
    requires me in n.config && m.hdr.from in n.config && m.hdr.from != me
    ensures var n' := Handle(me, n, electorate, m, choice);
            && n'.currentEpoch >= m.hdr.currentEpoch
            && m.hdr.from in n'.config && n'.config[m.hdr.from] >= m.hdr.configEpoch
            && (m.Update? && m.about in n.config ==> m.about in n'.config && n'.config[m.about] >= m.epoch)
  {}

  /** Whatever the state of a run, any node can ping any other, and a receiver that knows the sender then
      knows epochs not behind those the sender announced. */
  lemma PingTeaches(
    electorate: Electorate, run: seq<State>, steps: seq<Step>, k: nat, n: Name, to: Name, demoted: bool)
    requires IsRun(electorate, run, steps) && k < |run|
    requires n in run[k].nodes && to in run[k].nodes && n != to && n in run[k].nodes[to].config
    ensures WellFormed(run[k]) && Enabled(run[k], electorate, SendPing(n, to))
    ensures var s := run[k];
            var s1, m := Apply(s, electorate, SendPing(n, to)), Ping(HeaderOf(n, s.nodes[n]), to, s.nodes[n].role.Master?);
            && WellFormed(s1) && Enabled(s1, electorate, Receive(m, demoted))
            && var s2 := Apply(s1, electorate, Receive(m, demoted));
               && to in s2.nodes && s2.nodes[to].currentEpoch >= s.nodes[n].currentEpoch
               && n in s2.nodes[to].config && s2.nodes[to].config[n] >= m.hdr.configEpoch
               && (s.nodes[n].role.Master? ==> m.hdr.configEpoch == s.nodes[n].config[n])
  {
    EpochsBounded(electorate, run, steps, k);
    var s, step := run[k], SendPing(n, to);
    var m := Ping(HeaderOf(n, s.nodes[n]), to, s.nodes[n].role.Master?);
    hide IsRun, Apply, Handle;
    ApplyWellFormed(s, electorate, step);
    SentIsUnderWay(s, electorate, step, m);
    ReceivedIsHandled(Apply(s, electorate, step), electorate, m, demoted);
    HandleTeaches(to, s.nodes[to], electorate, m, demoted);
  }

  /** Nor is news about a third node lost on a receiver that knows it. */
  lemma UpdateTeaches(
    electorate: Electorate, run: seq<State>, steps: seq<Step>, k: nat, n: Name, to: Name, about: Name, demoted: bool)
    requires IsRun(electorate, run, steps) && k < |run|
    requires n in run[k].nodes && to in run[k].nodes && n != to && n in run[k].nodes[to].config
    requires about in run[k].nodes[n].config && about in run[k].nodes[to].config
    ensures WellFormed(run[k]) && Enabled(run[k], electorate, SendUpdate(n, to, about))
    ensures var s := run[k];
            var s1 := Apply(s, electorate, SendUpdate(n, to, about));
            var m := Update(HeaderOf(n, s.nodes[n]), to, about, s.nodes[n].config[about]);
            && WellFormed(s1) && Enabled(s1, electorate, Receive(m, demoted))
            && var s2 := Apply(s1, electorate, Receive(m, demoted));
               to in s2.nodes && about in s2.nodes[to].config && s2.nodes[to].config[about] >= s.nodes[n].config[about]
  {
    EpochsBounded(electorate, run, steps, k);
    var s, step := run[k], SendUpdate(n, to, about);
    var m := Update(HeaderOf(n, s.nodes[n]), to, about, s.nodes[n].config[about]);
    hide IsRun, Apply, Handle;
    ApplyWellFormed(s, electorate, step);
    SentIsUnderWay(s, electorate, step, m);
    ReceivedIsHandled(Apply(s, electorate, step), electorate, m, demoted);
    HandleTeaches(to, s.nodes[to], electorate, m, demoted);
  }

  /** currentEpoch never decreases. */
  lemma {:induction false} EpochMonotonic(
    electorate: Electorate, run: seq<State>, steps: seq<Step>, i: nat, k: nat, n: Name)
    requires IsRun(electorate, run, steps) && i <= k < |run|
    requires n in run[0].nodes
    ensures n in run[i].nodes && n in run[k].nodes
    ensures run[i].nodes[n].currentEpoch <= run[k].nodes[n].currentEpoch
  {
    hide *;
    RunInit(electorate, run, steps);
    EpochsBounded(electorate, run, steps, i);
    EpochsBounded(electorate, run, steps, k);
    if i < k {
      EpochMonotonic(electorate, run, steps, i, k - 1, n);
      EpochsBounded(electorate, run, steps, k - 1);
      RunLeads(electorate, run, steps, k - 1);
      EpochInvStep(run[k - 1], electorate, steps[k - 1]);
    }
  }

  /** A new config epoch, taken with or without consensus, is newer than every one the node knows. */
  lemma NextEpochIsNewest(me: Name, n: Node, x: Name)
    requires Bounded(n)
    requires x in n.config && x != me
    ensures NextEpoch(me, n).config[x] < NextEpoch(me, n).config[me]
  {}
}
