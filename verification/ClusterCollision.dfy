/** Config epoch collisions: they are resolved after boundedly many moves, and resolved for good. */
module ClusterCollision {
  import opened Common
  import opened ClusterBus
  import opened ClusterEpochs

  function Own(s: State, n: Name): nat
    requires n in s.nodes && n in s.nodes[n].config
  {
    s.nodes[n].config[n]
  }

  // Steps that leave a node's own config epoch to collision handling, among masters only.
  predicate CollisionOnly(step: Step) {
    match step
    case Reconfigure(_, role, _) => role.Master?
    case SetConfigEpoch(_, _) => false
    case Bump(_) => false
    case Promote(_) => false
    case Receive(m, choice) => m.Ping? || m.Update? ==> !choice
    case _ => true
  }

  ghost predicate MasterRun(electorate: Electorate, run: seq<State>, steps: seq<Step>) {
    && IsRun(electorate, run, steps)
    && (forall n | n in run[0].nodes :: run[0].nodes[n].role.Master?)
    && (forall n, x | n in run[0].nodes && x in run[0].nodes[n].config && x in run[0].nodes ::
          run[0].nodes[n].config[x] <= Own(run[0], x))
    && (forall i | 0 <= i < |steps| :: CollisionOnly(steps[i]))
  }

  // What anyone knows of a master's epoch is at most that epoch.
  ghost predicate Known(s: State, x: Name, epoch: nat)
    requires WellFormed(s)
  {
    x in s.nodes ==> epoch <= Own(s, x)
  }

  ghost predicate KnowledgeInv(s: State) {
    && EpochInv(s)
    && (forall n | n in s.nodes :: s.nodes[n].role.Master?)
    && (forall n, x | n in s.nodes && x in s.nodes[n].config :: Known(s, x, s.nodes[n].config[x]))
    && (forall m | m in s.net :: Known(s, m.hdr.from, m.hdr.configEpoch))
    && (forall m | m in s.net && m.Update? :: Known(s, m.about, m.epoch))
    && (forall m | m in s.net && m.Ping? :: m.fromMaster)
  }

  // A collision makes the acting node move.
  predicate Moves(s: State, step: Step) {
    && step.Receive? && step.m.Ping? && step.m.to in s.nodes
    && var n := s.nodes[step.m.to];
       && step.m.hdr.from in n.config && step.m.to in n.config
       && Collides(step.m.to, Absorb(n, step.m.hdr), step.m.hdr, step.m.fromMaster)
  }

  // The acting node's own epoch changes exactly when it moves, and then to one it has not seen.
  lemma OwnAfter(s: State, electorate: Electorate, step: Step)
    requires KnowledgeInv(s) && Enabled(s, electorate, step) && CollisionOnly(step)
    ensures var me := Actor(step);
            var n' := NodeAfter(me, s.nodes[me], electorate, step);
            && n'.role.Master? && me in n'.config
            && (!Moves(s, step) ==> n'.config[me] == Own(s, me))
            && (Moves(s, step) ==> n'.config[me] == n'.currentEpoch > s.nodes[me].currentEpoch >= Own(s, me))
            && (Moves(s, step) ==> n'.currentEpoch > step.m.hdr.currentEpoch)
            && (Moves(s, step) ==> step.m.hdr.configEpoch == Own(s, me) && step.m.hdr.from > me)
  {
    var me := Actor(step);
    assert Bounded(s.nodes[me]);
    if step.Receive? {
      assert step.m.Update? ==> Known(s, step.m.about, step.m.epoch);
    }
  }

  lemma OwnStep(s: State, electorate: Electorate, step: Step, n: Name)
    requires KnowledgeInv(s) && Enabled(s, electorate, step) && CollisionOnly(step) && n in s.nodes
    requires WellFormed(Apply(s, electorate, step)) && n in Apply(s, electorate, step).nodes
    ensures var s' := Apply(s, electorate, step);
            && (Own(s', n) != Own(s, n) <==> Moves(s, step) && Actor(step) == n)
            && Own(s', n) >= Own(s, n)
            && (Own(s', n) != Own(s, n) ==> Own(s', n) > s.nodes[n].currentEpoch)
  {
    hide EpochInv;
    OwnAfter(s, electorate, step);
  }

  // Everything the acting node knows afterwards, it knew before or was told.
  lemma ConfigAfter(s: State, electorate: Electorate, step: Step, x: Name)
    requires KnowledgeInv(s) && Enabled(s, electorate, step) && CollisionOnly(step)
    requires var me := Actor(step); x in NodeAfter(me, s.nodes[me], electorate, step).config && x != me
    ensures Known(s, x, NodeAfter(Actor(step), s.nodes[Actor(step)], electorate, step).config[x])
  {
    var me := Actor(step);
    assert forall y | y in s.nodes[me].config :: Known(s, y, s.nodes[me].config[y]);
    if step.Receive? {
      assert Known(s, step.m.hdr.from, step.m.hdr.configEpoch);
      assert step.m.Update? ==> Known(s, step.m.about, step.m.epoch);
    }
  }

  lemma SentKnown(s: State, electorate: Electorate, step: Step, m: Message)
    requires KnowledgeInv(s) && Enabled(s, electorate, step) && CollisionOnly(step)
    requires m in Sent(s, electorate, step)
    ensures m.hdr.from == Actor(step) && m.hdr.configEpoch == Own(s, Actor(step))
    ensures m.Update? ==> Known(s, m.about, m.epoch)
    ensures m.Ping? ==> m.fromMaster
  {
    OwnAfter(s, electorate, step);
  }

  ghost predicate OwnGrows(s: State, s': State) {
    && WellFormed(s) && WellFormed(s') && s.nodes.Keys == s'.nodes.Keys
    && forall n | n in s.nodes :: Own(s, n) <= Own(s', n)
  }

  lemma NodesKnown(s: State, electorate: Electorate, step: Step, n: Name, x: Name)
    requires KnowledgeInv(s) && Enabled(s, electorate, step) && CollisionOnly(step)
    requires OwnGrows(s, Apply(s, electorate, step))
    requires var s' := Apply(s, electorate, step); n in s'.nodes && x in s'.nodes[n].config
    ensures var s' := Apply(s, electorate, step); Known(s', x, s'.nodes[n].config[x])
  {
    hide NodeAfter, Sent, EpochInv, CollisionOnly, TallyAfter, Votes;
    if n == Actor(step) && x != n {
      ConfigAfter(s, electorate, step, x);
    }
  }

  lemma NetKnown(s: State, electorate: Electorate, step: Step, m: Message)
    requires KnowledgeInv(s) && Enabled(s, electorate, step) && CollisionOnly(step)
    requires OwnGrows(s, Apply(s, electorate, step))
    requires m in Apply(s, electorate, step).net
    ensures var s' := Apply(s, electorate, step);
            && Known(s', m.hdr.from, m.hdr.configEpoch)
            && (m.Update? ==> Known(s', m.about, m.epoch))
            && (m.Ping? ==> m.fromMaster)
  {
    hide NodeAfter, Sent, EpochInv, Enabled, CollisionOnly, TallyAfter, Votes;
    if m in Sent(s, electorate, step) {
      SentKnown(s, electorate, step, m);
    }
  }

  lemma Grows(s: State, electorate: Electorate, step: Step)
    requires KnowledgeInv(s) && Enabled(s, electorate, step) && CollisionOnly(step)
    ensures OwnGrows(s, Apply(s, electorate, step))
    ensures forall n | n in s.nodes :: Apply(s, electorate, step).nodes[n].role.Master?
  {
    hide NodeAfter, Sent, Enabled, CollisionOnly, TallyAfter, Votes;
    ApplyWellFormed(s, electorate, step);
    OwnAfter(s, electorate, step);
    forall n | n in s.nodes ensures Own(s, n) <= Own(Apply(s, electorate, step), n) {
      OwnStep(s, electorate, step, n);
    }
  }

  lemma KnowledgeStep(s: State, electorate: Electorate, step: Step)
    requires KnowledgeInv(s) && Enabled(s, electorate, step) && CollisionOnly(step)
    ensures KnowledgeInv(Apply(s, electorate, step))
  {
    hide Apply, Enabled, CollisionOnly, Known;
    var s' := Apply(s, electorate, step);
    EpochInvStep(s, electorate, step);
    Grows(s, electorate, step);
    forall n, x | n in s'.nodes && x in s'.nodes[n].config ensures Known(s', x, s'.nodes[n].config[x]) {
      NodesKnown(s, electorate, step, n, x);
    }
    forall m | m in s'.net
      ensures Known(s', m.hdr.from, m.hdr.configEpoch)
      ensures m.Update? ==> Known(s', m.about, m.epoch)
      ensures m.Ping? ==> m.fromMaster
    {
      NetKnown(s, electorate, step, m);
    }
  }

  // Whole runs.

  lemma MasterRunParts(electorate: Electorate, run: seq<State>, steps: seq<Step>, k: nat)
    requires MasterRun(electorate, run, steps) && k < |steps|
    ensures IsRun(electorate, run, steps) && |run| == |steps| + 1 && CollisionOnly(steps[k])
  {}

  lemma InitKnowledge(electorate: Electorate, run: seq<State>, steps: seq<Step>)
    requires MasterRun(electorate, run, steps)
    ensures IsRun(electorate, run, steps) && |run| == |steps| + 1 && KnowledgeInv(run[0])
  {
    InitEpochs(run[0]);
  }

  lemma {:induction false} Knowledge(electorate: Electorate, run: seq<State>, steps: seq<Step>, k: nat)
    requires MasterRun(electorate, run, steps) && k < |run|
    ensures KnowledgeInv(run[k]) && WellFormed(run[k]) && run[k].nodes.Keys == run[0].nodes.Keys
  {
    hide *;
    InitKnowledge(electorate, run, steps);
    EpochsBounded(electorate, run, steps, k);
    EpochWellFormed(run[k]);
    if k > 0 {
      Knowledge(electorate, run, steps, k - 1);
      MasterRunParts(electorate, run, steps, k - 1);
      RunLeads(electorate, run, steps, k - 1);
      KnowledgeStep(run[k - 1], electorate, steps[k - 1]);
    }
  }

  lemma EpochWellFormed(s: State)
    requires EpochInv(s)
    ensures WellFormed(s)
  {}

  // Own config epoch of `n` in state `k` of a run; zero outside it.
  function OwnAt(run: seq<State>, k: nat, n: Name): nat {
    if k < |run| && n in run[k].nodes && n in run[k].nodes[n].config then Own(run[k], n) else 0
  }

  // All config epochs `n` has had, and how often it changed.
  function Held(run: seq<State>, k: nat, n: Name): set<nat> {
    if k == 0 then {OwnAt(run, 0, n)} else Held(run, k - 1, n) + {OwnAt(run, k, n)}
  }

  function MoveCount(run: seq<State>, k: nat, n: Name): nat {
    if k == 0 then 0 else MoveCount(run, k - 1, n) + if OwnAt(run, k, n) != OwnAt(run, k - 1, n) then 1 else 0
  }

  // One step of a run as seen from node `n`.
  lemma OwnAtStep(electorate: Electorate, run: seq<State>, steps: seq<Step>, k: nat, n: Name)
    requires MasterRun(electorate, run, steps) && k < |steps| && k + 1 < |run| && n in run[0].nodes
    ensures OwnAt(run, k + 1, n) >= OwnAt(run, k, n)
    ensures n in run[k].nodes && n in run[k].nodes[n].config
    ensures OwnAt(run, k + 1, n) != OwnAt(run, k, n) ==>
              && OwnAt(run, k + 1, n) > run[k].nodes[n].currentEpoch
              && steps[k].Receive? && steps[k].m.Ping? && steps[k].m in run[k].net
              && steps[k].m.hdr.configEpoch == OwnAt(run, k, n) && steps[k].m.hdr.from > n
  {
    Knowledge(electorate, run, steps, k);
    Knowledge(electorate, run, steps, k + 1);
    MasterRunParts(electorate, run, steps, k);
    RunLeads(electorate, run, steps, k);
    OwnStep(run[k], electorate, steps[k], n);
    hide Apply, NodeAfter, IsRun, MasterRun, EpochInv, KnowledgeInv;
    if OwnAt(run, k + 1, n) != OwnAt(run, k, n) {
      OwnAfter(run[k], electorate, steps[k]);
    }
  }

  // One more epoch has been held than moves were made, and the latest one is the largest.
  ghost predicate HeldOk(run: seq<State>, k: nat, n: Name) {
    && |Held(run, k, n)| == 1 + MoveCount(run, k, n) && OwnAt(run, k, n) in Held(run, k, n)
    && forall v | v in Held(run, k, n) :: v <= OwnAt(run, k, n)
  }

  lemma {:induction false} HeldSize(electorate: Electorate, run: seq<State>, steps: seq<Step>, k: nat, n: Name)
    requires MasterRun(electorate, run, steps) && k < |run| && n in run[0].nodes
    ensures HeldOk(run, k, n)
  {
    hide *;
    if k == 0 {
      HeldFirst(run, n);
    } else {
      InitKnowledge(electorate, run, steps);
      MasterRunLength(electorate, run, steps);
      HeldSize(electorate, run, steps, k - 1, n);
      OwnAtStep(electorate, run, steps, k - 1, n);
      HeldGrows(run, k - 1, n);
    }
  }

  lemma MasterRunLength(electorate: Electorate, run: seq<State>, steps: seq<Step>)
    requires MasterRun(electorate, run, steps)
    ensures |run| == |steps| + 1
  {}

  lemma HeldFirst(run: seq<State>, n: Name)
    ensures HeldOk(run, 0, n)
  {}

  lemma HeldGrows(run: seq<State>, k: nat, n: Name)
    requires HeldOk(run, k, n) && OwnAt(run, k + 1, n) >= OwnAt(run, k, n)
    ensures HeldOk(run, k + 1, n)
  {
    hide OwnAt;
    if OwnAt(run, k + 1, n) == OwnAt(run, k, n) {
      assert Held(run, k + 1, n) == Held(run, k, n);
    }
  }

  lemma HoldsOwn(run: seq<State>, k: nat, n: Name)
    requires HeldOk(run, k, n)
    ensures OwnAt(run, k, n) in Held(run, k, n)
  {}

  lemma HeldStep(run: seq<State>, k: nat, n: Name)
    ensures Held(run, k + 1, n) == Held(run, k, n) + {OwnAt(run, k + 1, n)}
    ensures Held(run, 0, n) == {OwnAt(run, 0, n)}
  {}

  // A ping just sent carries its sender's epoch.
  lemma NewPing(electorate: Electorate, run: seq<State>, steps: seq<Step>, k: nat, m: Message)
    requires MasterRun(electorate, run, steps) && k < |steps| && k + 1 < |run|
    requires m in run[k + 1].net && m !in run[k].net && m.Ping?
    ensures m.hdr.from in run[0].nodes && m.hdr.configEpoch == OwnAt(run, k, m.hdr.from)
  {
    hide MasterRun, IsRun, Apply, KnowledgeInv, EpochInv, NodeAfter, Enabled, CollisionOnly, Sent;
    MasterRunParts(electorate, run, steps, k);
    RunLeads(electorate, run, steps, k);
    Knowledge(electorate, run, steps, k);
    NewInNet(run[k], electorate, steps[k], m);
    SentKnown(run[k], electorate, steps[k], m);
  }

  // A ping carries an epoch its sender has held.
  lemma {:induction false} PingHeld(electorate: Electorate, run: seq<State>, steps: seq<Step>, k: nat, m: Message)
    requires MasterRun(electorate, run, steps) && k < |run| && m in run[k].net && m.Ping?
    ensures m.hdr.from in run[0].nodes && m.hdr.configEpoch in Held(run, k, m.hdr.from)
  {
    hide *;
    InitKnowledge(electorate, run, steps);
    NoMessages(electorate, run, steps);
    if k > 0 {
      HeldStep(run, k - 1, m.hdr.from);
      if m in run[k - 1].net {
        PingHeld(electorate, run, steps, k - 1, m);
      } else {
        NewPing(electorate, run, steps, k - 1, m);
        HeldSize(electorate, run, steps, k - 1, m.hdr.from);
        HoldsOwn(run, k - 1, m.hdr.from);
      }
    }
  }

  lemma NoMessages(electorate: Electorate, run: seq<State>, steps: seq<Step>)
    requires MasterRun(electorate, run, steps)
    ensures run != [] && run[0].net == {}
  {}

  lemma NewInNet(s: State, electorate: Electorate, step: Step, m: Message)
    requires WellFormed(s) && Enabled(s, electorate, step)
    requires m in Apply(s, electorate, step).net && m !in s.net
    ensures m in Sent(s, electorate, step)
    ensures Actor(step) in s.nodes
  {
    hide Sent, NodeAfter, TallyAfter;
  }

  // Every epoch a node gave up had been held by a larger-named node.
  lemma {:induction false} GivenUp(
    electorate: Electorate, run: seq<State>, steps: seq<Step>, k: nat, n: Name, v: nat)
    returns (m: Name)
    requires MasterRun(electorate, run, steps) && k < |run| && n in run[0].nodes
    requires v in Held(run, k, n) && v != OwnAt(run, k, n)
    ensures m in run[0].nodes && m > n && v in Held(run, k, m)
  {
    hide *;
    InitKnowledge(electorate, run, steps);
    if k > 0 {
      HeldStep(run, k - 1, n);
      OwnAtStep(electorate, run, steps, k - 1, n);
      if v != OwnAt(run, k - 1, n) {
        m := GivenUp(electorate, run, steps, k - 1, n, v);
        HeldStep(run, k - 1, m);
      } else {
        m := steps[k - 1].m.hdr.from;
        PingHeld(electorate, run, steps, k - 1, steps[k - 1].m);
        HeldStep(run, k - 1, m);
      }
    } else {
      HeldStep(run, 0, n);
      m := n;
    }
  }

  // Counting.

  function Larger(names: set<Name>, n: Name): set<Name> { set m | m in names && m > n }

  // Everything held by the nodes in `names`.
  function AllHeld(run: seq<State>, k: nat, names: set<Name>): set<nat> {
    set m, v | m in names && v in Held(run, k, m) :: v
  }

  lemma {:induction false} LeastName(names: set<Name>) returns (n: Name)
    requires names != {}
    ensures n in names && forall m | m in names :: n <= m
  {
    var x :| x in names;
    if names - {x} == {} {
      assert names == {x};
      n := x;
    } else {
      var m := LeastName(names - {x});
      n := if m < x then m else x;
      assert forall y | y in names :: y == x || y in names - {x};
    }
  }

  lemma NothingHeld(run: seq<State>, k: nat)
    ensures AllHeld(run, k, {}) == {}
  {}

  lemma AllHeldAdd(run: seq<State>, k: nat, names: set<Name>, n: Name)
    ensures AllHeld(run, k, names + {n}) == AllHeld(run, k, names) + Held(run, k, n)
  {
    hide Held;
  }

  // The nodes above a name have held at most 2^r - 1 different epochs, r being their number.
  lemma {:induction false} HeldAbove(
    electorate: Electorate, run: seq<State>, steps: seq<Step>, k: nat, n: Name, above: set<Name>)
    requires MasterRun(electorate, run, steps) && k < |run|
    requires above == Larger(run[0].nodes.Keys, n)
    ensures |AllHeld(run, k, above)| <= Pow2(|above|) - 1
    decreases |above|
  {
    hide MasterRun, Held, AllHeld;
    if above == {} {
      NothingHeld(run, k);
    } else {
      var m := LeastName(above);
      var rest := Larger(run[0].nodes.Keys, m);
      assert above == rest + {m};
      HeldAbove(electorate, run, steps, k, m, rest);
      HeldByOne(electorate, run, steps, k, m, rest);
      AllHeldAdd(run, k, rest, m);
      UnionSize(AllHeld(run, k, rest), Held(run, k, m));
    }
  }

  lemma HeldByOne(
    electorate: Electorate, run: seq<State>, steps: seq<Step>, k: nat, n: Name, above: set<Name>)
    requires MasterRun(electorate, run, steps) && k < |run| && n in run[0].nodes
    requires above == Larger(run[0].nodes.Keys, n)
    ensures |Held(run, k, n)| <= 1 + |AllHeld(run, k, above)|
  {
    hide MasterRun, Held, OwnAt;
    var own := OwnAt(run, k, n);
    forall v | v in Held(run, k, n) - {own} ensures v in AllHeld(run, k, above) {
      var m := GivenUp(electorate, run, steps, k, n, v);
      assert m in above;
    }
    SubsetSize(Held(run, k, n) - {own}, AllHeld(run, k, above));
    HeldSize(electorate, run, steps, k, n);
  }

  /** Collision resolution terminates: a master with r larger-named masters moves at most 2^r - 1
      times, however messages are delayed, repeated or lost. */
  lemma BoundedMoves(electorate: Electorate, run: seq<State>, steps: seq<Step>, k: nat, n: Name)
    requires MasterRun(electorate, run, steps) && k < |run| && n in run[0].nodes
    ensures MoveCount(run, k, n) <= Pow2(|Larger(run[0].nodes.Keys, n)|) - 1
  {
    hide MasterRun, Held;
    var above := Larger(run[0].nodes.Keys, n);
    HeldAbove(electorate, run, steps, k, n, above);
    HeldByOne(electorate, run, steps, k, n, above);
    HeldSize(electorate, run, steps, k, n);
  }

  // Once heard, resolved.

  // The epochs `n` has received in pings from `m`.
  function Heard(run: seq<State>, steps: seq<Step>, k: nat, n: Name, m: Name): set<nat>
    requires k <= |steps|
  {
    if k == 0 then {} else
      var before := Heard(run, steps, k - 1, n, m);
      match steps[k - 1]
      case Receive(Ping(h, to, _), _) =>
        if to == n && h.from == m && k - 1 < |run| && n in run[k - 1].nodes && m in run[k - 1].nodes[n].config
        then before + {h.configEpoch} else before
      case _ => before
  }

  // A ping that repeats the receiver's own epoch makes it move, unless the sender's is newer by now.
  lemma PingResolves(s: State, electorate: Electorate, step: Step)
    requires KnowledgeInv(s) && Enabled(s, electorate, step) && CollisionOnly(step)
    requires step.Receive? && step.m.Ping? && step.m.hdr.from in s.nodes[step.m.to].config
    requires step.m.hdr.from > step.m.to
    ensures step.m.hdr.from in s.nodes
    ensures step.m.hdr.configEpoch == Own(s, step.m.to) ==> Moves(s, step) || Own(s, step.m.hdr.from) > Own(s, step.m.to)
    ensures step.m.hdr.configEpoch <= step.m.hdr.currentEpoch
              <= NodeAfter(step.m.to, s.nodes[step.m.to], electorate, step).currentEpoch
  {
    var me, h := step.m.to, step.m.hdr;
    assert Known(s, h.from, s.nodes[me].config[h.from]) && Known(s, h.from, h.configEpoch);
    assert Sane(step.m);
  }

  ghost predicate HeardInv(run: seq<State>, steps: seq<Step>, k: nat, n: Name, m: Name)
    requires k <= |steps| && k < |run|
  {
    && n in run[k].nodes
    && (forall v | v in Heard(run, steps, k, n, m) :: v <= run[k].nodes[n].currentEpoch)
    && (OwnAt(run, k, n) in Heard(run, steps, k, n, m) ==> OwnAt(run, k, m) > OwnAt(run, k, n))
  }

  lemma HeardStep(electorate: Electorate, run: seq<State>, steps: seq<Step>, k: nat, n: Name, m: Name)
    requires MasterRun(electorate, run, steps) && k < |steps| && k + 1 < |run|
    requires n in run[0].nodes && m in run[0].nodes && n < m
    requires HeardInv(run, steps, k, n, m)
    ensures HeardInv(run, steps, k + 1, n, m)
  {
    hide MasterRun, IsRun, Apply, NodeAfter, Enabled, CollisionOnly, KnowledgeInv, EpochInv, Moves, WellFormed;
    var s, step := run[k], steps[k];
    InitKnowledge(electorate, run, steps);
    Knowledge(electorate, run, steps, k);
    Knowledge(electorate, run, steps, k + 1);
    MasterRunParts(electorate, run, steps, k);
    RunLeads(electorate, run, steps, k);
    OwnAtStep(electorate, run, steps, k, n);
    OwnAtStep(electorate, run, steps, k, m);
    EpochMonotonic(electorate, run, steps, k, k + 1, n);
    if Heard(run, steps, k + 1, n, m) != Heard(run, steps, k, n, m) {
      PingResolves(s, electorate, step);
      OwnStep(s, electorate, step, n);
      ActorAfter(s, electorate, step);
      OwnAtIs(run, k, n);
      OwnAtIs(run, k, m);
      OwnAtIs(run, k + 1, n);
    }
  }

  lemma OwnAtIs(run: seq<State>, k: nat, n: Name)
    requires k < |run| && WellFormed(run[k]) && n in run[k].nodes
    ensures n in run[k].nodes[n].config && OwnAt(run, k, n) == Own(run[k], n)
  {}

  lemma ActorAfter(s: State, electorate: Electorate, step: Step)
    requires WellFormed(s) && Enabled(s, electorate, step)
    ensures Actor(step) in Apply(s, electorate, step).nodes
    ensures Apply(s, electorate, step).nodes[Actor(step)] ==
              NodeAfter(Actor(step), s.nodes[Actor(step)], electorate, step)
  {
    hide NodeAfter, Sent, TallyAfter;
  }

  lemma {:induction false} HeardSafe(
    electorate: Electorate, run: seq<State>, steps: seq<Step>, k: nat, n: Name, m: Name)
    requires MasterRun(electorate, run, steps) && k < |run| && |run| == |steps| + 1
    requires n in run[0].nodes && m in run[0].nodes && n < m
    ensures HeardInv(run, steps, k, n, m)
  {
    hide MasterRun;
    if k > 0 {
      HeardSafe(electorate, run, steps, k - 1, n, m);
      HeardStep(electorate, run, steps, k - 1, n, m);
    }
  }

  /** Once every master has heard the current config epoch of every larger-named master, all config
      epochs are distinct. */
  lemma DistinctOnceHeard(
    electorate: Electorate, run: seq<State>, steps: seq<Step>, k: nat, n: Name, m: Name)
    requires MasterRun(electorate, run, steps) && k < |run| && |run| == |steps| + 1
    requires n in run[0].nodes && m in run[0].nodes && n != m
    requires forall x, y | x in run[0].nodes && y in run[0].nodes && x < y ::
               OwnAt(run, k, y) in Heard(run, steps, k, x, y)
    ensures OwnAt(run, k, n) != OwnAt(run, k, m)
  {
    hide MasterRun;
    if n < m {
      HeardSafe(electorate, run, steps, k, n, m);
    } else {
      HeardSafe(electorate, run, steps, k, m, n);
    }
  }
}
