/** Failover elections: at most one vote per master and epoch, at most one winner per epoch. */
module ClusterElection {
  import opened Common
  import opened ClusterBus
  import opened ClusterEpochs

  // Each master votes at most once per epoch.
  ghost predicate GrantsOk(s: State) {
    && (forall g | g in s.grants :: g.voter in s.nodes && g.epoch <= s.nodes[g.voter].lastVoteEpoch)
    && (forall g, h | g in s.grants && h in s.grants && g.voter == h.voter && g.epoch == h.epoch :: g == h)
  }

  ghost predicate RequestsOk(s: State) {
    forall m | m in s.net && m.AuthRequest? ::
      m.hdr.from in s.nodes && m.hdr.currentEpoch <= s.nodes[m.hdr.from].authEpoch
  }

  // A vote in flight to node `n` with tally `t` was granted and has not been counted yet.
  ghost predicate AckOk(m: Message, n: Node, t: Tally, grants: set<Grant>) {
    && Grant(m.hdr.from, m.hdr.currentEpoch, m.to) in grants
    && m.hdr.currentEpoch <= n.authEpoch
    && (m.hdr.currentEpoch == n.authEpoch ==> m.hdr.from !in t.counted)
  }

  ghost predicate AcksOk(s: State)
    requires WellFormed(s)
  {
    forall m | m in s.net && m.AuthAck? :: AckOk(m, s.nodes[m.to], s.tallies[m.to], s.grants)
  }

  ghost predicate SingleAcks(net: set<Message>) {
    forall m, m' | m in net && m' in net && m.AuthAck? && m'.AuthAck?
      && m.hdr.from == m'.hdr.from && m.hdr.currentEpoch == m'.hdr.currentEpoch :: m == m'
  }

  // The masters in `votes` all voted for `candidate` in `epoch`.
  ghost predicate Backed(
    grants: set<Grant>, electorate: Electorate, votes: set<Name>, epoch: nat, candidate: Name) {
    votes <= electorate(epoch) && forall v | v in votes :: Grant(v, epoch, candidate) in grants
  }

  ghost predicate TallyOk(n: Node, t: Tally, grants: set<Grant>, electorate: Electorate, name: Name) {
    && Backed(grants, electorate, t.counted, n.authEpoch, name)
    && n.authCount == |t.counted| + t.stray
    && (!n.authSent ==> t.counted == {})
  }

  ghost predicate WinOk(w: Win, grants: set<Grant>, electorate: Electorate) {
    && Backed(grants, electorate, w.tally.counted, w.epoch, w.winner)
    && |w.tally.counted| + w.tally.stray >= Quorum(electorate(w.epoch))
  }

  ghost predicate CountsOk(s: State, electorate: Electorate)
    requires WellFormed(s)
  {
    && (forall n | n in s.nodes :: TallyOk(s.nodes[n], s.tallies[n], s.grants, electorate, n))
    && (forall w | w in s.wins :: WinOk(w, s.grants, electorate))
  }

  ghost predicate ElectionInv(s: State, electorate: Electorate) {
    && EpochInv(s)
    && GrantsOk(s) && RequestsOk(s) && AcksOk(s) && SingleAcks(s.net)
    && CountsOk(s, electorate)
  }

  lemma VoteFields(me: Name, n: Node, electorate: Electorate, step: Step)
    requires me in n.config && Bounded(n)
    ensures var n' := NodeAfter(me, n, electorate, step);
            && n'.lastVoteEpoch >= n.lastVoteEpoch
            && n'.authEpoch >= n.authEpoch
            && (Votes(n, step) ==> n'.lastVoteEpoch == n'.currentEpoch > n.lastVoteEpoch)
            && (Votes(n, step) ==> n'.currentEpoch == step.m.hdr.currentEpoch)
            && (step.StartElection? ==> n'.authEpoch == n'.currentEpoch > n.authEpoch)
            && (!step.StartElection? ==> n'.authEpoch == n.authEpoch)
  {}

  lemma GrantsStep(s: State, electorate: Electorate, step: Step)
    requires ElectionInv(s, electorate) && Enabled(s, electorate, step)
    ensures GrantsOk(Apply(s, electorate, step))
  {
    hide NodeAfter, TallyAfter, Sent, RequestsOk, AcksOk, SingleAcks, CountsOk;
    var me := Actor(step);
    VoteFields(me, s.nodes[me], electorate, step);
  }

  lemma SentRequest(s: State, electorate: Electorate, step: Step, m: Message)
    requires EpochInv(s) && Enabled(s, electorate, step)
    requires m in Sent(s, electorate, step) && m.AuthRequest?
    ensures var n' := NodeAfter(m.hdr.from, s.nodes[m.hdr.from], electorate, step);
            m.hdr.from == Actor(step) && m.hdr.currentEpoch == n'.currentEpoch == n'.authEpoch
  {}

  lemma RequestsStep(s: State, electorate: Electorate, step: Step)
    requires EpochInv(s) && RequestsOk(s) && Enabled(s, electorate, step)
    ensures RequestsOk(Apply(s, electorate, step))
  {
    var me, s' := Actor(step), Apply(s, electorate, step);
    VoteFields(me, s.nodes[me], electorate, step);
    forall m | m in s'.net && m.AuthRequest?
      ensures m.hdr.from in s'.nodes && m.hdr.currentEpoch <= s'.nodes[m.hdr.from].authEpoch
    {
      if m in Sent(s, electorate, step) {
        SentRequest(s, electorate, step, m);
      }
    }
  }

  // A vote just sent answers a request of the candidate's current or an earlier election.
  lemma NewAck(s: State, electorate: Electorate, step: Step, m: Message)
    requires ElectionInv(s, electorate) && Enabled(s, electorate, step)
    requires m in Sent(s, electorate, step) && m.AuthAck?
    ensures Votes(s.nodes[Actor(step)], step)
    ensures m.to == step.m.hdr.from != Actor(step) == m.hdr.from
    ensures m.hdr.currentEpoch == NodeAfter(m.hdr.from, s.nodes[m.hdr.from], electorate, step).currentEpoch
    ensures s.nodes[m.hdr.from].lastVoteEpoch < m.hdr.currentEpoch <= s.nodes[m.to].authEpoch
  {
    var me := Actor(step);
    VoteFields(me, s.nodes[me], electorate, step);
  }

  // Nobody can have counted, or still be sending, a vote of an epoch the voter had not voted in.
  lemma NewAckFresh(s: State, electorate: Electorate, m: Message, voter: Name, epoch: nat)
    requires ElectionInv(s, electorate)
    requires voter in s.nodes && s.nodes[voter].lastVoteEpoch < epoch
    ensures m in s.net && m.AuthAck? ==> !(m.hdr.from == voter && m.hdr.currentEpoch == epoch)
    ensures forall c | c in s.nodes && s.nodes[c].authEpoch == epoch :: voter !in s.tallies[c].counted
  {
    forall c | c in s.nodes && s.nodes[c].authEpoch == epoch ensures voter !in s.tallies[c].counted {
      assert TallyOk(s.nodes[c], s.tallies[c], s.grants, electorate, c);
    }
  }

  lemma OldAck(me: Name, n: Node, t: Tally, grants: set<Grant>, electorate: Electorate, step: Step, m: Message)
    requires me in n.config && Bounded(n)
    requires AckOk(m, n, t, grants)
    requires step.Receive? && step.m.AuthAck? ==>
               step.m.hdr.from != m.hdr.from || step.m.hdr.currentEpoch != m.hdr.currentEpoch
    requires step.Receive? && step.m.AuthAck? ==> AckOk(step.m, n, t, grants)
    ensures AckOk(m, NodeAfter(me, n, electorate, step), TallyAfter(n, t, electorate, step), grants)
  {
    VoteFields(me, n, electorate, step);
  }

  lemma AcksStep(s: State, electorate: Electorate, step: Step)
    requires ElectionInv(s, electorate) && Enabled(s, electorate, step)
    requires WellFormed(Apply(s, electorate, step))
    ensures AcksOk(Apply(s, electorate, step))
  {
    var me, s' := Actor(step), Apply(s, electorate, step);
    forall m | m in s'.net && m.AuthAck? ensures AckOk(m, s'.nodes[m.to], s'.tallies[m.to], s'.grants) {
      if m in Sent(s, electorate, step) {
        NewAck(s, electorate, step, m);
        NewAckFresh(s, electorate, m, m.hdr.from, m.hdr.currentEpoch);
      } else if m.to == me {
        OldAck(me, s.nodes[me], s.tallies[me], s.grants, electorate, step, m);
      }
    }
  }

  lemma SingleAcksStep(s: State, electorate: Electorate, step: Step)
    requires ElectionInv(s, electorate) && Enabled(s, electorate, step)
    ensures SingleAcks(Apply(s, electorate, step).net)
  {
    hide NodeAfter, TallyAfter, GrantsOk, RequestsOk, AcksOk, CountsOk;
    forall m, m' | m in Sent(s, electorate, step) && m.AuthAck? && m' in s.net && m'.AuthAck?
      ensures !(m.hdr.from == m'.hdr.from && m.hdr.currentEpoch == m'.hdr.currentEpoch)
    {
      NewAck(s, electorate, step, m);
      NewAckFresh(s, electorate, m', m.hdr.from, m.hdr.currentEpoch);
    }
  }

  lemma TallyStep(me: Name, n: Node, t: Tally, grants: set<Grant>, electorate: Electorate, step: Step)
    requires me in n.config && Bounded(n)
    requires TallyOk(n, t, grants, electorate, me)
    requires step.Receive? && step.m.AuthAck? ==> step.m.to == me && AckOk(step.m, n, t, grants)
    requires step.StartElection? ==> !n.authSent
    ensures TallyOk(NodeAfter(me, n, electorate, step), TallyAfter(n, t, electorate, step), grants, electorate, me)
  {
    VoteFields(me, n, electorate, step);
  }

  lemma TalliesStep(s: State, electorate: Electorate, step: Step, name: Name)
    requires EpochInv(s) && AcksOk(s) && CountsOk(s, electorate) && Enabled(s, electorate, step)
    requires name in s.nodes
    ensures var s' := Apply(s, electorate, step);
            && name in s'.nodes && name in s'.tallies
            && TallyOk(s'.nodes[name], s'.tallies[name], s.grants, electorate, name)
  {
    hide NodeAfter, TallyAfter, Sent, TallyOk, AckOk;
    assert TallyOk(s.nodes[name], s.tallies[name], s.grants, electorate, name);
    if name == Actor(step) {
      TallyStep(name, s.nodes[name], s.tallies[name], s.grants, electorate, step);
    }
  }

  lemma NewWin(s: State, electorate: Electorate, step: Step, w: Win)
    requires EpochInv(s) && CountsOk(s, electorate) && Enabled(s, electorate, step)
    requires w in Apply(s, electorate, step).wins
    ensures WinOk(w, s.grants, electorate)
  {
    if w !in s.wins {
      assert TallyOk(s.nodes[step.n], s.tallies[step.n], s.grants, electorate, step.n);
    }
  }

  lemma CountsStep(s: State, electorate: Electorate, step: Step)
    requires EpochInv(s) && AcksOk(s) && CountsOk(s, electorate) && Enabled(s, electorate, step)
    requires WellFormed(Apply(s, electorate, step))
    requires s.nodes.Keys == Apply(s, electorate, step).nodes.Keys
    ensures CountsOk(Apply(s, electorate, step), electorate)
  {
    var s' := Apply(s, electorate, step);
    assert s.grants <= s'.grants;
    forall n | n in s'.nodes ensures TallyOk(s'.nodes[n], s'.tallies[n], s'.grants, electorate, n) {
      TalliesStep(s, electorate, step, n);
    }
    forall w | w in s'.wins ensures WinOk(w, s'.grants, electorate) {
      NewWin(s, electorate, step, w);
    }
  }

  lemma ElectionInvStep(s: State, electorate: Electorate, step: Step)
    requires ElectionInv(s, electorate) && Enabled(s, electorate, step)
    ensures ElectionInv(Apply(s, electorate, step), electorate)
  {
    EpochInvStep(s, electorate, step);
    ApplyWellFormed(s, electorate, step);
    GrantsStep(s, electorate, step);
    RequestsStep(s, electorate, step);
    AcksStep(s, electorate, step);
    SingleAcksStep(s, electorate, step);
    CountsStep(s, electorate, step);
  }

  lemma InitElections(s: State, electorate: Electorate)
    requires Init(s)
    ensures ElectionInv(s, electorate)
  {}

  lemma {:induction false} ElectionSafe(electorate: Electorate, run: seq<State>, steps: seq<Step>, k: nat)
    requires IsRun(electorate, run, steps) && k < |run|
    ensures ElectionInv(run[k], electorate)
  {
    hide *;
    RunInit(electorate, run, steps);
    if k == 0 {
      InitElections(run[0], electorate);
    } else {
      ElectionSafe(electorate, run, steps, k - 1);
      RunLeads(electorate, run, steps, k - 1);
      ElectionInvStep(run[k - 1], electorate, steps[k - 1]);
    }
  }

  /** Each master grants at most one vote per epoch. */
  lemma OneVotePerEpoch(electorate: Electorate, run: seq<State>, steps: seq<Step>, k: nat, g: Grant, h: Grant)
    requires IsRun(electorate, run, steps) && k < |run|
    requires g in run[k].grants && h in run[k].grants
    requires g.voter == h.voter && g.epoch == h.epoch
    ensures g.candidate == h.candidate
  {
    ElectionSafe(electorate, run, steps, k);
  }

  // A request the voter may answer: it is a master serving slots, has heard of no later epoch and has
  // not voted in this one.
  predicate MayVote(s: State, step: Step, g: Grant) {
    && step.Receive? && step.m.AuthRequest? && step.choice
    && step.m.to == g.voter && step.m.hdr.from == g.candidate && step.m.hdr.currentEpoch == g.epoch
    && g.voter in s.nodes && g.candidate in s.nodes[g.voter].config
    && s.nodes[g.voter].role.Master? && s.nodes[g.voter].serving
    && s.nodes[g.voter].currentEpoch <= g.epoch && s.nodes[g.voter].lastVoteEpoch < g.epoch
  }

  lemma GrantedByStep(s: State, electorate: Electorate, step: Step, g: Grant)
    requires ElectionInv(s, electorate) && Enabled(s, electorate, step)
    ensures g in Apply(s, electorate, step).grants - s.grants <==> MayVote(s, step, g)
  {
    hide NodeAfter, TallyAfter, Sent, RequestsOk, AcksOk, SingleAcks, CountsOk;
    var me := Actor(step);
    VoteFields(me, s.nodes[me], electorate, step);
    assert Bounded(s.nodes[me]);
  }

  /** In every run the votes a step adds are those of a master that serves slots, in an epoch that is
      not behind its own and in which it has not voted; and every such request that it is willing to
      answer adds one. */
  lemma GrantedIff(electorate: Electorate, run: seq<State>, steps: seq<Step>, k: nat, g: Grant)
    requires IsRun(electorate, run, steps) && k < |steps|
    ensures g in run[k + 1].grants - run[k].grants <==> MayVote(run[k], steps[k], g)
  {
    hide *;
    RunInit(electorate, run, steps);
    ElectionSafe(electorate, run, steps, k);
    RunLeads(electorate, run, steps, k);
    GrantedByStep(run[k], electorate, steps[k], g);
  }

  // A replica of a known master that has asked for votes and counted more than half of the electorate.
  predicate MayWin(s: State, electorate: Electorate, step: Step, w: Win) {
    && step == Promote(w.winner) && w.winner in s.nodes
    && s.nodes[w.winner].role.Replica? && s.nodes[w.winner].role.of.Some?
    && s.nodes[w.winner].authSent && s.nodes[w.winner].authEpoch == w.epoch
    && 2 * s.nodes[w.winner].authCount > |electorate(w.epoch)|
    && w.winner in s.tallies && s.tallies[w.winner] == w.tally
  }

  lemma WonByStep(s: State, electorate: Electorate, step: Step, w: Win)
    requires WellFormed(s) && Enabled(s, electorate, step)
    ensures w in Apply(s, electorate, step).wins <==> w in s.wins || MayWin(s, electorate, step, w)
  {
    WinsAfter(s, electorate, step);
    if step.Promote? {
      ElectedIs(s, electorate, step.n);
    }
    hide Apply, Elected;
  }

  lemma WinsAfter(s: State, electorate: Electorate, step: Step)
    requires WellFormed(s) && Enabled(s, electorate, step)
    ensures step.Promote? ==> step.n in s.nodes && step.n in s.tallies
    ensures Apply(s, electorate, step).wins == s.wins +
              if step.Promote? then {Win(step.n, s.nodes[step.n].authEpoch, s.tallies[step.n])} else {}
  {
    hide NodeAfter, TallyAfter, Sent, Votes, Consumed;
  }

  lemma ElectedIs(s: State, electorate: Electorate, n: Name)
    requires n in s.nodes
    ensures Elected(s.nodes[n], electorate) <==>
            && s.nodes[n].role.Replica? && s.nodes[n].role.of.Some? && s.nodes[n].authSent
            && 2 * s.nodes[n].authCount > |electorate(s.nodes[n].authEpoch)|
  {}

  /** In every run the elections a step adds to those won are those of a replica that asked for votes
      and counted more than half of the masters. */
  lemma WonIff(electorate: Electorate, run: seq<State>, steps: seq<Step>, k: nat, w: Win)
    requires IsRun(electorate, run, steps) && k < |steps|
    ensures w in run[k + 1].wins <==> w in run[k].wins || MayWin(run[k], electorate, steps[k], w)
  {
    hide *;
    RunInit(electorate, run, steps);
    RunLeads(electorate, run, steps, k);
    WonByStep(run[k], electorate, steps[k], w);
  }

  /** Two different winners of one epoch: one of them was helped by votes it counted while no
      election of its own was under way. */
  lemma TwoWinnersNeedStrayVotes(
    electorate: Electorate, run: seq<State>, steps: seq<Step>, k: nat, v: Win, w: Win)
    requires IsRun(electorate, run, steps) && k < |run|
    requires v in run[k].wins && w in run[k].wins
    requires v.epoch == w.epoch && v.winner != w.winner
    ensures v.tally.stray + w.tally.stray > 0
  {
    hide IsRun;
    ElectionSafe(electorate, run, steps, k);
    BackersDiffer(run[k], electorate, v, w);
    assert WinOk(v, run[k].grants, electorate) && WinOk(w, run[k].grants, electorate);
  }

  // A vote that is counted after the count was cleared and before the next election starts.
  predicate StrayVote(s: State, electorate: Electorate, step: Step) {
    && step.Receive? && step.m.AuthAck? && step.m.to in s.nodes
    && var n := s.nodes[step.m.to];
       && !n.authSent && step.m.hdr.from in n.config && Counts(n, step.m.hdr, electorate)
  }

  ghost predicate NoStrayVotes(electorate: Electorate, run: seq<State>, steps: seq<Step>)
    requires |run| == |steps| + 1
  {
    forall i | 0 <= i < |steps| :: !StrayVote(run[i], electorate, steps[i])
  }

  lemma NoStrayStep(s: State, electorate: Electorate, step: Step)
    requires WellFormed(s) && Enabled(s, electorate, step) && !StrayVote(s, electorate, step)
    requires forall n | n in s.tallies :: s.tallies[n].stray == 0
    requires forall w | w in s.wins :: w.tally.stray == 0
    ensures forall n | n in Apply(s, electorate, step).tallies :: Apply(s, electorate, step).tallies[n].stray == 0
    ensures forall w | w in Apply(s, electorate, step).wins :: w.tally.stray == 0
  {
    var me := Actor(step);
    assert TallyAfter(s.nodes[me], s.tallies[me], electorate, step).stray == 0;
  }

  lemma {:induction false} NoStray(electorate: Electorate, run: seq<State>, steps: seq<Step>, k: nat)
    requires IsRun(electorate, run, steps) && k < |run|
    requires NoStrayVotes(electorate, run, steps)
    ensures forall n | n in run[k].tallies :: run[k].tallies[n].stray == 0
    ensures forall w | w in run[k].wins :: w.tally.stray == 0
  {
    hide Apply, Enabled, WellFormed, StrayVote, Leads;
    if k > 0 {
      NoStray(electorate, run, steps, k - 1);
      RunLeads(electorate, run, steps, k - 1);
      NoStrayStep(run[k - 1], electorate, steps[k - 1]);
    }
  }

  // A vote that is counted while an election of the candidate is under way.
  predicate OwnVote(s: State, electorate: Electorate, step: Step) {
    && step.Receive? && step.m.AuthAck? && step.m.to in s.nodes
    && var n := s.nodes[step.m.to];
       && n.authSent && step.m.hdr.from in n.config && Counts(n, step.m.hdr, electorate)
  }

  // Stray votes node `n` counted since its count was last cleared.
  ghost function StraySince(electorate: Electorate, run: seq<State>, steps: seq<Step>, k: nat, n: Name): nat
    requires |run| == |steps| + 1 && k < |run|
  {
    if k == 0 || steps[k - 1] == Schedule(n) then 0
    else
      StraySince(electorate, run, steps, k - 1, n)
      + if StrayVote(run[k - 1], electorate, steps[k - 1]) && steps[k - 1].m.to == n then 1 else 0
  }

  // The masters whose votes node `n` counted during its election since its count was last cleared.
  ghost function CountedSince(electorate: Electorate, run: seq<State>, steps: seq<Step>, k: nat, n: Name): set<Name>
    requires |run| == |steps| + 1 && k < |run|
  {
    if k == 0 || steps[k - 1] == Schedule(n) then {}
    else
      CountedSince(electorate, run, steps, k - 1, n)
      + if OwnVote(run[k - 1], electorate, steps[k - 1]) && steps[k - 1].m.to == n then {steps[k - 1].m.hdr.from} else {}
  }

  lemma TallyMoves(s: State, electorate: Electorate, step: Step, n: Name)
    requires WellFormed(s) && Enabled(s, electorate, step) && n in s.nodes
    ensures n in Apply(s, electorate, step).tallies
    ensures Apply(s, electorate, step).tallies[n].stray ==
              if step == Schedule(n) then 0
              else s.tallies[n].stray + if StrayVote(s, electorate, step) && step.m.to == n then 1 else 0
    ensures Apply(s, electorate, step).tallies[n].counted ==
              if step == Schedule(n) then {}
              else s.tallies[n].counted + if OwnVote(s, electorate, step) && step.m.to == n then {step.m.hdr.from} else {}
  {
    hide NodeAfter, Sent, Votes;
    if n == Actor(step) {
      ActorTally(s, electorate, step, n);
    }
  }

  lemma ActorTally(s: State, electorate: Electorate, step: Step, n: Name)
    requires WellFormed(s) && Enabled(s, electorate, step) && n in s.nodes && n == Actor(step)
    ensures var t := TallyAfter(s.nodes[n], s.tallies[n], electorate, step);
            && t.stray == (if step == Schedule(n) then 0
                           else s.tallies[n].stray + if StrayVote(s, electorate, step) then 1 else 0)
            && t.counted == (if step == Schedule(n) then {}
                             else s.tallies[n].counted + if OwnVote(s, electorate, step) then {step.m.hdr.from} else {})
  {}

  lemma TallyKeys(s: State, n: Name)
    requires WellFormed(s) && n in s.nodes
    ensures n in s.tallies
  {}

  lemma {:induction false} TallyIs(electorate: Electorate, run: seq<State>, steps: seq<Step>, k: nat, n: Name)
    requires IsRun(electorate, run, steps) && k < |run| && n in run[0].nodes
    ensures n in run[k].nodes && n in run[k].tallies
    ensures run[k].tallies[n]
         == Tally(CountedSince(electorate, run, steps, k, n), StraySince(electorate, run, steps, k, n))
  {
    hide Apply, Enabled, WellFormed, StrayVote, OwnVote, EpochInv, Leads;
    EpochsBounded(electorate, run, steps, k);
    TallyKeys(run[0], n);
    if k > 0 {
      TallyIs(electorate, run, steps, k - 1, n);
      RunLeads(electorate, run, steps, k - 1);
      TallyMoves(run[k - 1], electorate, steps[k - 1], n);
    }
  }

  /** In every state of every run the vote count of a node is the number of masters that voted for it
      in its election epoch and were counted during the election, plus its stray votes; so it is that
      number exactly when no stray vote was counted since the count was last cleared. */
  lemma CountIsExact(electorate: Electorate, run: seq<State>, steps: seq<Step>, k: nat, n: Name)
    requires IsRun(electorate, run, steps) && k < |run| && n in run[0].nodes
    ensures n in run[k].nodes
    ensures var counted, stray := CountedSince(electorate, run, steps, k, n), StraySince(electorate, run, steps, k, n);
            && Backed(run[k].grants, electorate, counted, run[k].nodes[n].authEpoch, n)
            && run[k].nodes[n].authCount == |counted| + stray
            && (run[k].nodes[n].authCount == |counted| <==> stray == 0)
  {
    hide CountedSince, StraySince, IsRun;
    ElectionSafe(electorate, run, steps, k);
    TallyIs(electorate, run, steps, k, n);
    assert TallyOk(run[k].nodes[n], run[k].tallies[n], run[k].grants, electorate, n);
  }

  // The count of a node still reaches the quorum when its stray votes are left out.
  ghost predicate EnoughWithoutStray(electorate: Electorate, run: seq<State>, steps: seq<Step>, k: nat, n: Name)
    requires |run| == |steps| + 1 && k < |run| && n in run[k].nodes
  {
    run[k].nodes[n].authCount >= Quorum(electorate(run[k].nodes[n].authEpoch)) + StraySince(electorate, run, steps, k, n)
  }

  /** A promotion is the choice of a quorum, of distinct masters that voted for the winner in the epoch
      it wins, exactly when its count still reaches the quorum without the stray votes. */
  lemma WonByQuorumIff(electorate: Electorate, run: seq<State>, steps: seq<Step>, k: nat, n: Name)
    requires IsRun(electorate, run, steps) && k < |steps| && steps[k] == Promote(n) && n in run[0].nodes
    ensures n in run[k].nodes
    ensures var epoch, counted := run[k].nodes[n].authEpoch, CountedSince(electorate, run, steps, k, n);
            && Win(n, epoch, Tally(counted, StraySince(electorate, run, steps, k, n))) in run[k + 1].wins
            && Backed(run[k].grants, electorate, counted, epoch, n)
            && (|counted| >= Quorum(electorate(epoch)) <==> EnoughWithoutStray(electorate, run, steps, k, n))
  {
    hide CountedSince, StraySince, IsRun, Backed, NodeAfter, Sent;
    NoWinsAtFirst(electorate, run, steps);
    CountIsExact(electorate, run, steps, k, n);
    TallyIs(electorate, run, steps, k, n);
    RunLeads(electorate, run, steps, k);
  }

  // Every promotion of the run has enough votes without its stray ones.
  ghost predicate PromotionsHold(electorate: Electorate, run: seq<State>, steps: seq<Step>)
    requires |run| == |steps| + 1
  {
    forall i, n | 0 <= i < |steps| && steps[i] == Promote(n) && n in run[i].nodes ::
      EnoughWithoutStray(electorate, run, steps, i, n)
  }

  lemma NewestWin(s: State, electorate: Electorate, step: Step, w: Win)
    requires WellFormed(s) && Enabled(s, electorate, step)
    requires w in Apply(s, electorate, step).wins && w !in s.wins
    ensures step == Promote(w.winner) && w.winner in s.nodes && w.winner in s.tallies
    ensures w.epoch == s.nodes[w.winner].authEpoch && w.tally == s.tallies[w.winner]
  {
    hide NodeAfter, Sent, TallyAfter;
  }

  lemma {:induction false} WinsHold(electorate: Electorate, run: seq<State>, steps: seq<Step>, k: nat, w: Win)
    requires IsRun(electorate, run, steps) && k < |run|
    requires PromotionsHold(electorate, run, steps) && w in run[k].wins
    ensures |w.tally.counted| >= Quorum(electorate(w.epoch))
  {
    hide IsRun, Apply, Enabled, WellFormed, Init, EpochInv, CountedSince, StraySince;
    NoWinsAtFirst(electorate, run, steps);
    if k > 0 {
      RunLeads(electorate, run, steps, k - 1);
      if w in run[k - 1].wins {
        WinsHold(electorate, run, steps, k - 1, w);
      } else {
        NewestWin(run[k - 1], electorate, steps[k - 1], w);
        SameNames(electorate, run, steps, k - 1);
        TallyIs(electorate, run, steps, k - 1, w.winner);
        WonByQuorumIff(electorate, run, steps, k - 1, w.winner);
      }
    }
  }

  lemma NoWinsAtFirst(electorate: Electorate, run: seq<State>, steps: seq<Step>)
    requires IsRun(electorate, run, steps)
    ensures |run| == |steps| + 1 && run[0].wins == {}
  {}

  lemma {:induction false} SameNames(electorate: Electorate, run: seq<State>, steps: seq<Step>, k: nat)
    requires IsRun(electorate, run, steps) && k < |run|
    ensures run[k].nodes.Keys == run[0].nodes.Keys
  {
    hide *;
    if k > 0 {
      NoWinsAtFirst(electorate, run, steps);
      SameNames(electorate, run, steps, k - 1);
      RunLeads(electorate, run, steps, k - 1);
      ApplyWellFormed(run[k - 1], electorate, steps[k - 1]);
    }
  }

  /** Election safety: when every promotion has a quorum without its stray votes, an epoch has at most
      one winner. */
  lemma OneWinnerByQuorum(electorate: Electorate, run: seq<State>, steps: seq<Step>, k: nat, v: Win, w: Win)
    requires IsRun(electorate, run, steps) && k < |run|
    requires PromotionsHold(electorate, run, steps)
    requires v in run[k].wins && w in run[k].wins && v.epoch == w.epoch
    ensures v.winner == w.winner
  {
    hide IsRun, PromotionsHold;
    WinsHold(electorate, run, steps, k, v);
    WinsHold(electorate, run, steps, k, w);
    if v.winner != w.winner {
      ElectionSafe(electorate, run, steps, k);
      BackersDiffer(run[k], electorate, v, w);
    }
  }

  lemma BackersDiffer(s: State, electorate: Electorate, v: Win, w: Win)
    requires ElectionInv(s, electorate) && v in s.wins && w in s.wins && v.epoch == w.epoch && v.winner != w.winner
    ensures |v.tally.counted| + |w.tally.counted| <= |electorate(v.epoch)|
  {
    hide EpochInv, RequestsOk, AcksOk, SingleAcks, TallyOk;
    assert WinOk(v, s.grants, electorate) && WinOk(w, s.grants, electorate);
    assert forall x | x in v.tally.counted :: Grant(x, v.epoch, v.winner) in s.grants;
    assert forall x | x in w.tally.counted :: Grant(x, w.epoch, w.winner) in s.grants;
    DisjointSize(v.tally.counted, w.tally.counted, electorate(v.epoch));
  }

  /** In particular in every run without stray votes. */
  lemma OneWinnerPerEpoch(electorate: Electorate, run: seq<State>, steps: seq<Step>, k: nat, v: Win, w: Win)
    requires IsRun(electorate, run, steps) && k < |run|
    requires NoStrayVotes(electorate, run, steps)
    requires v in run[k].wins && w in run[k].wins && v.epoch == w.epoch
    ensures v.winner == w.winner
  {
    if v.winner != w.winner {
      NoStray(electorate, run, steps, k);
      TwoWinnersNeedStrayVotes(electorate, run, steps, k, v, w);
    }
  }
}
