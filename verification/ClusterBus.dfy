/** The cluster bus of cluster.c: every node's epochs and election fields, the messages in flight,
    and the steps that change them.

    Wall-clock conditions, links, roles and slot assignments only decide which steps happen, so they
    are left free: a step that any timing allows is a step here. */
module ClusterBus {
  import opened Common

  // Node names are compared with memcmp; only their order matters.
  type Name = nat

  datatype Role = Master | Replica(of: Option<Name>)

  datatype Node = Node(
    currentEpoch: nat,
    config: map<Name, nat>,  // configEpoch of every known node, this one included
    lastVoteEpoch: nat,
    authEpoch: nat,          // failover_auth_epoch, _count and _sent
    authCount: nat,
    authSent: bool,
    role: Role,
    serving: bool)           // owns at least one slot

  datatype Header = Header(from: Name, currentEpoch: nat, configEpoch: nat)

  datatype Message =
    | Ping(hdr: Header, to: Name, fromMaster: bool)  // PING, PONG and MEET
    | Update(hdr: Header, to: Name, about: Name, epoch: nat)
    | AuthRequest(hdr: Header, to: Name)
    | AuthAck(hdr: Header, to: Name)

  // History, never read by a step.
  datatype Grant = Grant(voter: Name, epoch: nat, candidate: Name)
  datatype Tally = Tally(counted: set<Name>, stray: nat)
  datatype Win = Win(winner: Name, epoch: nat, tally: Tally)

  datatype State = State(
    nodes: map<Name, Node>,
    net: set<Message>,
    grants: set<Grant>,          // every vote ever given
    tallies: map<Name, Tally>,   // where each node's current vote count came from
    wins: set<Win>)              // every election ever won

  // The masters serving slots while an election for an epoch runs, agreed on by all its candidates.
  type Electorate = nat -> set<Name>

  function Quorum(v: set<Name>): nat { |v| / 2 + 1 }

  // Message construction and the handlers, one node at a time.

  function HeaderOf(me: Name, n: Node): Header
    requires me in n.config
  {
    var owner := if n.role.Replica? && n.role.of.Some? && n.role.of.value in n.config then n.role.of.value else me;
    Header(me, n.currentEpoch, n.config[owner])
  }

  // Every message from a known node raises the epochs first.
  function Absorb(n: Node, h: Header): Node
    requires h.from in n.config
  {
    n.(currentEpoch := Max(n.currentEpoch, h.currentEpoch),
       config := n.config[h.from := Max(n.config[h.from], h.configEpoch)])
  }

  function NextEpoch(me: Name, n: Node): Node {
    n.(currentEpoch := n.currentEpoch + 1, config := n.config[me := n.currentEpoch + 1])
  }

  predicate Collides(me: Name, n: Node, h: Header, fromMaster: bool)
    requires me in n.config && h.from in n.config
  {
    && n.role.Master? && fromMaster
    && h.configEpoch == n.config[me] && n.config[h.from] == n.config[me]
    && h.from > me
  }

  // `demoted`: the slot update made this node a replica of the sender before collisions are looked at.
  function OnPing(me: Name, n: Node, h: Header, fromMaster: bool, demoted: bool): Node
    requires me in n.config && h.from in n.config
  {
    var n1 := if demoted then Absorb(n, h).(role := Replica(Some(h.from)), serving := false) else Absorb(n, h);
    if Collides(me, n1, h, fromMaster) then NextEpoch(me, n1) else n1
  }

  // `demoted`: as above, by the node the update is about.
  function OnUpdate(me: Name, n: Node, h: Header, about: Name, epoch: nat, demoted: bool): Node
    requires h.from in n.config
  {
    var n1 := Absorb(n, h);
    if about !in n1.config || n1.config[about] >= epoch then n1 else
      var n2 := n1.(config := n1.config[about := epoch]);
      if demoted && about != me then n2.(role := Replica(Some(about)), serving := false) else n2
  }

  // `willing`: the candidate is a replica of a failed master, no vote about that master is recent, and
  // no claimed slot has a newer owner.
  predicate Grants(n: Node, h: Header, willing: bool) {
    && n.role.Master? && n.serving
    && h.currentEpoch >= n.currentEpoch
    && n.lastVoteEpoch != n.currentEpoch
    && willing
  }

  function OnRequest(n: Node, h: Header, willing: bool): Node
    requires h.from in n.config
  {
    var n1 := Absorb(n, h);
    if Grants(n1, h, willing) then n1.(lastVoteEpoch := n1.currentEpoch) else n1
  }

  predicate Counts(n: Node, h: Header, electorate: Electorate) {
    h.from in electorate(n.authEpoch) && h.currentEpoch >= n.authEpoch
  }

  function OnAck(n: Node, h: Header, electorate: Electorate): Node
    requires h.from in n.config
  {
    var n1 := Absorb(n, h);
    if Counts(n1, h, electorate) then n1.(authCount := n1.authCount + 1) else n1
  }

  // A new config epoch without consensus, unless this node already has the greatest one.
  predicate Bumps(me: Name, n: Node)
    requires me in n.config
  {
    n.config[me] == 0 || (exists x | x in n.config :: n.config[x] > n.config[me]) || n.currentEpoch > n.config[me]
  }

  // The only nodes whose config epoch the administrator may set.
  predicate Blank(me: Name, n: Node) { n.config == map[me := 0] }

  // An election is set up in two calls: first the count is cleared, later the epoch is raised.
  function Scheduled(n: Node): Node { n.(authCount := 0, authSent := false) }

  function Started(n: Node): Node {
    n.(currentEpoch := n.currentEpoch + 1, authEpoch := n.currentEpoch + 1, authSent := true)
  }

  predicate Elected(n: Node, electorate: Electorate) {
    && n.role.Replica? && n.role.of.Some? && n.authSent
    && n.authCount >= Quorum(electorate(n.authEpoch))
  }

  function TakeOver(me: Name, n: Node): Node
    requires me in n.config
  {
    n.(config := n.config[me := Max(n.config[me], n.authEpoch)], role := Master, serving := true)
  }

  // Steps of the whole system.

  datatype Step =
    | SendPing(n: Name, to: Name)
    | SendUpdate(n: Name, to: Name, about: Name)
    | Receive(m: Message, choice: bool)  // `choice` is `demoted` or `willing`
    | Lose(m: Message)
    | Learn(n: Name, other: Name)        // a handshake completed
    | Forget(n: Name, other: Name)
    | Reconfigure(n: Name, role: Role, serving: bool)
    | SetConfigEpoch(n: Name, epoch: nat)
    | Bump(n: Name)
    | Schedule(n: Name)
    | StartElection(n: Name)
    | Promote(n: Name)

  ghost predicate WellFormed(s: State) {
    && s.tallies.Keys == s.nodes.Keys
    && (forall n | n in s.nodes :: n in s.nodes[n].config)
    && (forall m | m in s.net :: m.to in s.nodes && m.hdr.from in s.nodes && m.hdr.from != m.to)
  }

  predicate Enabled(s: State, electorate: Electorate, step: Step) {
    match step
    case SendPing(n, to) => n in s.nodes && to in s.nodes && n != to
    case SendUpdate(n, to, about) => n in s.nodes && to in s.nodes && n != to && about in s.nodes[n].config
    case Receive(m, _) => m in s.net
    case Lose(m) => m in s.net
    case Learn(n, other) => n in s.nodes && other in s.nodes && other !in s.nodes[n].config
    case Forget(n, other) => n in s.nodes && other != n
    case Reconfigure(n, _, _) => n in s.nodes
    case SetConfigEpoch(n, _) => n in s.nodes && Blank(n, s.nodes[n])
    case Bump(n) => n in s.nodes && n in s.nodes[n].config && Bumps(n, s.nodes[n])
    case Schedule(n) => n in s.nodes && s.nodes[n].role.Replica?
    case StartElection(n) => n in s.nodes && s.nodes[n].role.Replica? && !s.nodes[n].authSent
    case Promote(n) => n in s.nodes && Elected(s.nodes[n], electorate)
  }

  // The node a step acts on.
  function Actor(step: Step): Name {
    match step
    case Receive(m, _) => m.to
    case Lose(m) => m.to
    case _ => step.n
  }

  // Messages from unknown senders are dropped.
  function Handle(me: Name, n: Node, electorate: Electorate, m: Message, choice: bool): Node
    requires me in n.config
  {
    if m.hdr.from !in n.config then n else
      match m
      case Ping(h, _, fromMaster) => OnPing(me, n, h, fromMaster, choice)
      case Update(h, _, about, epoch) => OnUpdate(me, n, h, about, epoch, choice)
      case AuthRequest(h, _) => OnRequest(n, h, choice)
      case AuthAck(h, _) => OnAck(n, h, electorate)
  }

  function NodeAfter(me: Name, n: Node, electorate: Electorate, step: Step): Node
    requires me in n.config
  {
    match step
    case Receive(m, choice) => Handle(me, n, electorate, m, choice)
    case Learn(_, other) => if other in n.config then n else n.(config := n.config[other := 0])
    case Forget(_, other) => n.(config := n.config - {other})
    case Reconfigure(_, role, serving) => n.(role := role, serving := serving)
    case SetConfigEpoch(_, epoch) => n.(currentEpoch := Max(n.currentEpoch, epoch), config := map[me := epoch])
    case Bump(_) => NextEpoch(me, n)
    case Schedule(_) => Scheduled(n)
    case StartElection(_) => Started(n)
    case Promote(_) => TakeOver(me, n)
    case _ => n
  }

  // A request is answered with a vote.
  predicate Votes(n: Node, step: Step) {
    && step.Receive? && step.m.AuthRequest? && step.m.hdr.from in n.config
    && Grants(Absorb(n, step.m.hdr), step.m.hdr, step.choice)
  }

  function Sent(s: State, electorate: Electorate, step: Step): set<Message>
    requires WellFormed(s) && Enabled(s, electorate, step)
  {
    var me := Actor(step);
    var n, n' := s.nodes[me], NodeAfter(me, s.nodes[me], electorate, step);
    match step
    case SendPing(_, to) => {Ping(HeaderOf(me, n), to, n.role.Master?)}
    case SendUpdate(_, to, about) => {Update(HeaderOf(me, n), to, about, n.config[about])}
    case Receive(m, _) => if Votes(n, step) then {AuthAck(HeaderOf(me, n'), m.hdr.from)} else {}
    case StartElection(_) => set to | to in s.nodes && to != me :: AuthRequest(HeaderOf(me, n'), to)
    case _ => {}
  }

  // Only votes must not be delivered twice; any other message may arrive again.
  function Consumed(step: Step): set<Message> {
    match step
    case Receive(m, _) => if m.AuthAck? then {m} else {}
    case Lose(m) => {m}
    case _ => {}
  }

  function TallyAfter(n: Node, t: Tally, electorate: Electorate, step: Step): Tally {
    match step
    case Schedule(_) => Tally({}, 0)
    case Receive(AuthAck(h, _), _) =>
      if h.from !in n.config || !Counts(n, h, electorate) then t
      else if n.authSent then t.(counted := t.counted + {h.from})
      else t.(stray := t.stray + 1)
    case _ => t
  }

  function Apply(s: State, electorate: Electorate, step: Step): State
    requires WellFormed(s) && Enabled(s, electorate, step)
  {
    var me := Actor(step);
    var n, n' := s.nodes[me], NodeAfter(me, s.nodes[me], electorate, step);
    State(
      s.nodes[me := n'],
      s.net - Consumed(step) + Sent(s, electorate, step),
      if Votes(n, step) then s.grants + {Grant(me, n'.currentEpoch, step.m.hdr.from)} else s.grants,
      s.tallies[me := TallyAfter(n, s.tallies[me], electorate, step)],
      if step.Promote? then s.wins + {Win(me, n.authEpoch, s.tallies[me])} else s.wins)
  }

  // Nodes as loaded from their configuration: no message sent, no election begun.
  ghost predicate Init(s: State) {
    && WellFormed(s)
    && s.net == {} && s.grants == {} && s.wins == {}
    && (forall n | n in s.tallies :: s.tallies[n] == Tally({}, 0))
    && (forall n | n in s.nodes ::
          && (forall x | x in s.nodes[n].config :: s.nodes[n].config[x] <= s.nodes[n].currentEpoch)
          && s.nodes[n].lastVoteEpoch <= s.nodes[n].currentEpoch
          && s.nodes[n].authEpoch == 0 && s.nodes[n].authCount == 0 && !s.nodes[n].authSent)
  }

  lemma SelfKnown(me: Name, n: Node, electorate: Electorate, step: Step)
    requires me in n.config && (step.Forget? ==> step.other != me)
    ensures me in NodeAfter(me, n, electorate, step).config
  {}

  lemma SentAddress(s: State, electorate: Electorate, step: Step, m: Message)
    requires WellFormed(s) && Enabled(s, electorate, step)
    requires m in Sent(s, electorate, step)
    ensures m.hdr.from == Actor(step) && m.to in s.nodes && m.to != m.hdr.from
  {}

  lemma ApplyWellFormed(s: State, electorate: Electorate, step: Step)
    requires WellFormed(s) && Enabled(s, electorate, step)
    ensures WellFormed(Apply(s, electorate, step))
    ensures Apply(s, electorate, step).nodes.Keys == s.nodes.Keys
  {
    var me, s' := Actor(step), Apply(s, electorate, step);
    assert me in s.nodes;
    SelfKnown(me, s.nodes[me], electorate, step);
    forall m | m in s'.net ensures m.to in s'.nodes && m.hdr.from in s'.nodes && m.hdr.from != m.to {
      if m !in s.net {
        SentAddress(s, electorate, step, m);
      }
    }
  }

  ghost predicate Leads(electorate: Electorate, s: State, step: Step, s': State) {
    WellFormed(s) && Enabled(s, electorate, step) && s' == Apply(s, electorate, step)
  }

  // A run: states run[0], run[1], ..., where steps[i] leads from run[i] to run[i + 1].
  ghost predicate IsRun(electorate: Electorate, run: seq<State>, steps: seq<Step>) {
    && |run| == |steps| + 1
    && Init(run[0])
    && forall i | 0 <= i < |steps| :: Leads(electorate, run[i], steps[i], run[i + 1])
  }

  lemma RunInit(electorate: Electorate, run: seq<State>, steps: seq<Step>)
    requires IsRun(electorate, run, steps)
    ensures |run| == |steps| + 1 && Init(run[0])
  {}

  lemma RunLeads(electorate: Electorate, run: seq<State>, steps: seq<Step>, k: nat)
    requires IsRun(electorate, run, steps) && k < |steps|
    ensures WellFormed(run[k]) && Enabled(run[k], electorate, steps[k])
    ensures run[k + 1] == Apply(run[k], electorate, steps[k])
  {
    hide Apply, Enabled, WellFormed, Init;
    assert Leads(electorate, run[k], steps[k], run[k + 1]);
  }

  ghost predicate Reachable(electorate: Electorate, s: State) {
    exists run, steps :: IsRun(electorate, run, steps) && run[|steps|] == s
  }

  lemma ReachableInit(electorate: Electorate, s: State)
    requires Init(s)
    ensures Reachable(electorate, s)
  {
    assert IsRun(electorate, [s], []);
  }

  lemma RunStep(electorate: Electorate, run: seq<State>, steps: seq<Step>, step: Step, s': State)
    requires IsRun(electorate, run, steps) && Leads(electorate, run[|steps|], step, s')
    ensures IsRun(electorate, run + [s'], steps + [step])
  {
    hide Init, Leads;
    var run', steps' := run + [s'], steps + [step];
    forall i | 0 <= i < |steps'| ensures Leads(electorate, run'[i], steps'[i], run'[i + 1]) {
      if i < |steps| {
        assert Leads(electorate, run[i], steps[i], run[i + 1]);
      }
    }
  }

  lemma ReachableStep(electorate: Electorate, s: State, step: Step)
    requires Reachable(electorate, s)
    requires WellFormed(s) && Enabled(s, electorate, step)
    ensures Reachable(electorate, Apply(s, electorate, step))
  {
    hide Apply, Enabled, WellFormed, Init;
    var run, steps :| IsRun(electorate, run, steps) && run[|steps|] == s;
    var s' := Apply(s, electorate, step);
    RunStep(electorate, run, steps, step, s');
    assert IsRun(electorate, run + [s'], steps + [step]);
  }
}
