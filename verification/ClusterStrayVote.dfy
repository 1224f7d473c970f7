/**
 * A run in which votes counted between two elections give one epoch two winners. Both candidates are
 * replicas of a failed master, which takes no part; the second elections start after the retry time,
 * twice as long as a master waits before it votes about the same master again.
 */
module ClusterStrayVote {
  import opened Common
  import opened ClusterBus

  // Nodes 0, 1 and 2 are masters serving slots; 3 and 4 are replicas of 0, which has failed.
  function ThreeMasters(epoch: nat): set<Name> { {0, 1, 2} }

  function Five(): set<Name> { {0, 1, 2, 3, 4} }

  ghost predicate Fresh(n: Node) {
    n.config.Keys == Five() && forall x | x in n.config :: n.config[x] == 0
  }

  function NewNode(role: Role, serving: bool): (n: Node)
    ensures Fresh(n)
  {
    Node(0, map x | x in Five() :: 0, 0, 0, 0, false, role, serving)
  }

  function M(): Node { NewNode(Master, true) }

  function R(): Node { NewNode(Replica(Some(0)), false) }

  lemma AbsorbFresh(n: Node, h: Header)
    requires Fresh(n) && h.from in n.config && h.configEpoch == 0
    ensures Absorb(n, h) == n.(currentEpoch := Max(n.currentEpoch, h.currentEpoch))
  {
    assert n.config[h.from := 0] == n.config;
  }

  ghost predicate Live(s: State) {
    Reachable(ThreeMasters, s) && WellFormed(s) && s.nodes.Keys == Five() && forall g | g in s.grants :: g.voter != 0
  }

  ghost predicate Becomes(s: State, s': State, name: Name, n: Node)
    requires s.nodes.Keys == s'.nodes.Keys
  {
    && name in s.nodes && s'.nodes[name] == n
    && forall x | x in s.nodes && x != name :: s'.nodes[x] == s.nodes[x]
  }

  // One more step; `n'` is what becomes of the acting node.
  lemma Go(s: State, step: Step, n': Node) returns (s': State)
    requires Live(s) && Enabled(s, ThreeMasters, step) && Actor(step) != 0
    requires NodeAfter(Actor(step), s.nodes[Actor(step)], ThreeMasters, step) == n'
    ensures Live(s') && Becomes(s, s', Actor(step), n')
    ensures s.net - Consumed(step) <= s'.net && Sent(s, ThreeMasters, step) <= s'.net
    ensures s.wins <= s'.wins
    ensures step.Promote? ==> Win(step.n, s.nodes[step.n].authEpoch, s.tallies[step.n]) in s'.wins
  {
    hide Reachable;
    s' := Apply(s, ThreeMasters, step);
    ReachableStep(ThreeMasters, s, step);
    ApplyWellFormed(s, ThreeMasters, step);
  }

  lemma Begin(s: State, c: Name, e: nat) returns (s': State)
    requires Live(s) && c in s.nodes && c != 0 && e == s.nodes[c].currentEpoch + 1
    requires Fresh(s.nodes[c]) && s.nodes[c].role.Replica? && !s.nodes[c].authSent
    ensures Live(s') && Becomes(s, s', c, Started(s.nodes[c]))
    ensures s.net <= s'.net && s.wins <= s'.wins
    ensures forall m | m in s.nodes && m != c :: AuthRequest(Header(c, e, 0), m) in s'.net
  {
    hide Reachable, WellFormed;
    var step, n' := StartElection(c), Started(s.nodes[c]);
    assert HeaderOf(c, n') == Header(c, e, 0);
    s' := Go(s, step, n');
    forall m | m in s.nodes && m != c ensures AuthRequest(Header(c, e, 0), m) in s'.net {
      assert AuthRequest(HeaderOf(c, n'), m) in Sent(s, ThreeMasters, step);
    }
  }

  // Master `m` votes for `c` in epoch `e`.
  lemma Vote(s: State, m: Name, c: Name, e: nat) returns (s': State)
    requires Live(s) && m in s.nodes && m != 0 && c in s.nodes && AuthRequest(Header(c, e, 0), m) in s.net
    requires var n := s.nodes[m];
             Fresh(n) && n.role.Master? && n.serving && n.currentEpoch <= e && n.lastVoteEpoch != e
    ensures Live(s') && Becomes(s, s', m, Voted(s.nodes[m], e))
    ensures s.net <= s'.net && s.wins <= s'.wins
    ensures AuthAck(Header(m, e, 0), c) in s'.net
  {
    hide Reachable, WellFormed;
    var step := Receive(AuthRequest(Header(c, e, 0), m), true);
    AbsorbFresh(s.nodes[m], Header(c, e, 0));
    s' := Go(s, step, Voted(s.nodes[m], e));
    assert AuthAck(Header(m, e, 0), c) in Sent(s, ThreeMasters, step);
  }

  // Candidate `c` counts the vote `m` gave in epoch `e`.
  lemma Count(s: State, m: Name, c: Name, e: nat) returns (s': State)
    requires Live(s) && m in ThreeMasters(e) && c in s.nodes && c != 0 && AuthAck(Header(m, e, 0), c) in s.net
    requires Fresh(s.nodes[c]) && s.nodes[c].authEpoch <= e <= s.nodes[c].currentEpoch
    ensures Live(s') && Becomes(s, s', c, s.nodes[c].(authCount := s.nodes[c].authCount + 1))
    ensures s.net - {AuthAck(Header(m, e, 0), c)} <= s'.net && s.wins <= s'.wins
  {
    hide Reachable, WellFormed;
    AbsorbFresh(s.nodes[c], Header(m, e, 0));
    s' := Go(s, Receive(AuthAck(Header(m, e, 0), c), true), s.nodes[c].(authCount := s.nodes[c].authCount + 1));
  }

  // The count is cleared for a later election.
  lemma Clear(s: State, c: Name) returns (s': State)
    requires Live(s) && c in s.nodes && c != 0 && s.nodes[c].role.Replica?
    ensures Live(s') && Becomes(s, s', c, Scheduled(s.nodes[c]))
    ensures s.net <= s'.net && s.wins <= s'.wins
  {
    hide Reachable, WellFormed;
    s' := Go(s, Schedule(c), Scheduled(s.nodes[c]));
  }

  lemma WinElection(s: State, c: Name) returns (s': State, w: Win)
    requires Live(s) && c in s.nodes && c != 0
    requires var n := s.nodes[c]; Fresh(n) && n.role == Replica(Some(0)) && n.authSent && n.authCount >= 2
    ensures Live(s') && Becomes(s, s', c, TakeOver(c, s.nodes[c]))
    ensures s.net <= s'.net && s.wins <= s'.wins
    ensures w in s'.wins && w.winner == c && w.epoch == s.nodes[c].authEpoch
  {
    hide Reachable;
    assert |{0, 1, 2}| == 3;
    w := Win(c, s.nodes[c].authEpoch, s.tallies[c]);
    s' := Go(s, Promote(c), TakeOver(c, s.nodes[c]));
  }

  lemma Initially() returns (s: State)
    ensures Live(s)
    ensures forall x | x in s.nodes :: s.nodes[x] == if x <= 2 then M() else R()
  {
    var nodes := map x: Name | x in Five() :: if x <= 2 then M() else R();
    var tallies := map x: Name | x in Five() :: Tally({}, 0);
    s := State(nodes, {}, {}, tallies, {});
    ReachableInit(ThreeMasters, s);
  }

  function Voted(n: Node, e: nat): Node { n.(currentEpoch := e, lastVoteEpoch := e) }

  // A replica that counted one vote of epoch 1 after its count was cleared.
  function Late(): Node { R().(currentEpoch := 1, authEpoch := 1, authCount := 1) }

  // Replicas 3 and 4 ask for votes in epoch 1; one vote for each arrives when the election is over.
  lemma LateVotes() returns (s: State)
    ensures Live(s)
    ensures s.nodes[0] == M() && s.nodes[1] == s.nodes[2] == Voted(M(), 1) && s.nodes[3] == s.nodes[4] == Late()
  {
    hide Reachable, WellFormed;
    s := Initially();
    s := Begin(s, 3, 1);
    s := Begin(s, 4, 1);
    s := Vote(s, 1, 3, 1);
    s := Vote(s, 2, 4, 1);
    s := Clear(s, 3);
    s := Clear(s, 4);
    s := Count(s, 1, 3, 1);
    s := Count(s, 2, 4, 1);
  }

  // A replica wins epoch 2 with that vote of epoch 1 and one of epoch 2 from the same master.
  lemma Wins(s: State, m: Name, c: Name) returns (s': State, w: Win)
    requires Live(s) && (m == 1 || m == 2) && (c == 3 || c == 4)
    requires s.nodes[m] == Voted(M(), 1) && s.nodes[c] == Late()
    ensures Live(s') && s.wins <= s'.wins && w in s'.wins && w.winner == c && w.epoch == 2
    ensures forall x | x in s.nodes && x != m && x != c :: s'.nodes[x] == s.nodes[x]
  {
    hide Reachable, WellFormed;
    s' := Begin(s, c, 2);
    s' := Vote(s', m, c, 2);
    s' := Count(s', m, c, 2);
    s', w := WinElection(s', c);
  }

  /** Without the assumption on stray votes, one epoch can have two winners, while their failed master
      neither votes nor changes. */
  lemma TwoWinners() returns (s: State, v: Win, w: Win)
    ensures Reachable(ThreeMasters, s)
    ensures v in s.wins && w in s.wins && v.epoch == w.epoch && v.winner != w.winner
    ensures 0 in s.nodes && s.nodes[0] == M() && forall g | g in s.grants :: g.voter != 0
  {
    hide Reachable, WellFormed;
    s := LateVotes();
    s, v := Wins(s, 1, 3);
    s, w := Wins(s, 2, 4);
  }
}
