/** Background rewrite of the append only file: parent, forked child and the pipes between them, over
    every interleaving of their steps. */
module AofRewrite {
  import opened Common
  import opened AofFormat
  import opened AofBuffers
  import opened AofLoader
  import opened AofReplay

  datatype Phase = Writing | Asked | Agreed | Finished | Dead

  // `snapshot` is what the child writes for the dataset at the fork, `diff` what it read so far.
  datatype Child = Child(phase: Phase, snapshot: Bytes, diff: Bytes)

  // Contents that stand for the first `point` fed commands.
  datatype Base = Base(bytes: Bytes, point: nat)

  datatype State = State(
    on: bool,                 // AOF_ON; otherwise waiting for the first rewrite
    file: Bytes,
    buf: Bytes,
    size: nat,
    selected: Option<nat>,    // aof_selected_db
    child: Option<Child>,
    blocks: Bytes,            // contents of the rewrite buffer
    pipe: Bytes,              // data pipe, parent to child
    stop: bool,               // aof_stop_sending_diff
    asking: bool,             // '!' on its way to the parent
    agreeing: bool,           // '!' on its way to the child
    // History
    fed: seq<Fed>,
    before: seq<Option<nat>>, // selected database when each command was fed
    base: Base,               // what the current file starts with
    forkAt: nat)              // commands fed before the fork

  datatype Step =
    | Feed(f: Fed)
    | Flush(count: nat, truncateWorks: bool)  // how much a write managed to write
    | Fork(snapshot: Bytes)
    | Send(count: nat)
    | Read(count: nat)
    | Ask
    | Agree(delivered: bool)
    | GotAgreement
    | Finish
    | Crash
    | Done(ok: bool)

  // Bytes fed from command `from` on.
  function FedBytes(s: State, from: nat): Bytes
    requires |s.before| == |s.fed|
  {
    if from <= |s.fed| then EncodeAll(AllItems(s.before[from..], s.fed[from..])) else []
  }

  predicate Alive(s: State) { s.child.Some? && s.child.value.phase != Finished && s.child.value.phase != Dead }

  predicate Enabled(s: State, step: Step) {
    match step
    case Feed(f) => !Is(f.argv, "select")
    case Flush(count, _) => count <= |s.buf|
    case Fork(_) => s.child.None?
    case Send(count) => s.child.Some? && !s.stop && count <= |s.blocks|
    case Read(count) => Alive(s) && s.child.value.phase != Asked && count <= |s.pipe|
    case Ask => Alive(s) && s.child.value.phase == Writing
    case Agree(_) => s.child.Some? && s.asking
    case GotAgreement => Alive(s) && s.child.value.phase == Asked && s.agreeing
    case Finish => Alive(s) && s.child.value.phase == Agreed && s.pipe == []
    case Crash => Alive(s)
    case Done(_) => s.child.Some? && !Alive(s)
  }

  function Become(s: State, phase: Phase): State
    requires s.child.Some?
  {
    s.(child := Some(s.child.value.(phase := phase)))
  }

  // The child is gone: its buffers and pipes go with it.
  function Cleanup(s: State): State {
    s.(child := None, blocks := [], pipe := [], asking := false, agreeing := false)
  }

  function Apply(s: State, step: Step): State
    requires Enabled(s, step)
  {
    match step
    case Feed(f) =>
      var bytes := FeedBytes(s.selected, f);
      s.(buf := if s.on then s.buf + bytes else s.buf,
         blocks := if s.child.Some? then s.blocks + bytes else s.blocks,
         selected := Some(f.db), fed := s.fed + [f], before := s.before + [s.selected])
    case Flush(count, truncateWorks) =>
      if count == |s.buf| then s.(file := s.file + s.buf, size := s.size + count, buf := [])
      else if count == 0 || truncateWorks then s
      else s.(file := s.file + s.buf[..count], size := s.size + count, buf := s.buf[count..])
    case Fork(snapshot) =>
      s.(child := Some(Child(Writing, snapshot, [])), stop := false, selected := None, forkAt := |s.fed|)
    case Send(count) => s.(pipe := s.pipe + s.blocks[..count], blocks := s.blocks[count..])
    case Read(count) =>
      s.(child := Some(s.child.value.(diff := s.child.value.diff + s.pipe[..count])), pipe := s.pipe[count..])
    case Ask => Become(s, Asked).(asking := true)
    case Agree(delivered) => s.(asking := false, stop := true, agreeing := delivered)
    case GotAgreement => Become(s, Agreed)
    case Finish => Become(s, Finished)
    case Crash => Become(s, Dead)
    case Done(ok) =>
      if ok && s.child.value.phase == Finished then
        var file := s.child.value.snapshot + s.child.value.diff + s.blocks;
        Cleanup(s.(on := true, file := file, size := |file|, buf := [], selected := None,
                   base := Base(s.child.value.snapshot, s.forkAt)))
      else Cleanup(s)
  }

  ghost predicate Init(s: State) {
    && s.child.None? && s.blocks == [] && s.pipe == [] && s.buf == [] && s.size == |s.file|
    && !s.asking && !s.agreeing && s.selected.None? && s.fed == [] && s.before == []
    && s.base == Base(s.file, 0) && s.forkAt == 0
  }

  ghost predicate IsRun(run: seq<State>, steps: seq<Step>) {
    && |run| == |steps| + 1 && Init(run[0])
    && forall i | 0 <= i < |steps| :: Enabled(run[i], steps[i]) && run[i + 1] == Apply(run[i], steps[i])
  }

  // The calls behind the steps.

  // The objects hold what the state says.
  ghost predicate Holds(f: AofFile, b: RewriteBuffer, s: State)
    reads f, b
  {
    && f.Valid() && b.Valid() && f.file == s.file && f.buf == s.buf && f.currentSize == s.size
    && b.Contents() == s.blocks
  }

  /** One command fed is one step: its bytes go to the buffer of the file while the append only file is
      on, and to the differences while there is a child. */
  method FeedCommand(f: AofFile, b: RewriteBuffer, c: Fed, on: bool, child: bool, selected: Option<nat>, ghost s: State)
    returns (selected': Option<nat>)
    requires Holds(f, b, s) && on == s.on && child == s.child.Some? && selected == s.selected
    requires !Is(c.argv, "select")
    modifies f, b
    ensures Enabled(s, Feed(c)) && Holds(f, b, Apply(s, Feed(c))) && selected' == Apply(s, Feed(c)).selected
  {
    hide FeedBytes, Is;
    var buf;
    buf, selected' := FeedAppendOnlyFile(selected, c);
    if on {
      f.Feed(buf);
    }
    if child {
      b.Append(buf);
    }
  }

  /** One flush that does not end the server is one step, for whatever the writes do. */
  method FlushFile(f: AofFile, b: RewriteBuffer, writes: seq<WriteResult>, truncateWorks: bool, ghost s: State)
    returns (exit: bool)
    requires Holds(f, b, s)
    modifies f
    ensures var step := Flush(Written(writes, |s.buf|), truncateWorks);
            Enabled(s, step) && (!exit ==> Holds(f, b, Apply(s, step)))
  {
    hide Written;
    ghost var n := Written(writes, |s.buf|);
    exit := f.Flush(writes, truncateWorks);
    if !exit {
      FlushMatches(s, n, truncateWorks, f.file, f.buf);
    }
  }

  lemma FlushMatches(s: State, n: nat, truncateWorks: bool, file: Bytes, buf: Bytes)
    requires n <= |s.buf| && s.size == |s.file| && file + buf == s.file + s.buf
    requires s.buf == [] ==> file == s.file
    requires s.buf != [] && n == |s.buf| ==> file == s.file + s.buf
    requires s.buf != [] && n < |s.buf| ==> file == s.file + (if truncateWorks then [] else s.buf[..n])
    ensures var s' := Apply(s, Flush(n, truncateWorks));
            file == s'.file && buf == s'.buf && s'.size == |file| && s'.blocks == s.blocks
  {
    assert buf == (s.file + s.buf)[|file|..];
  }

  /** One write to the pipe is one step while there is a child that has not asked to stop. */
  method SendDifferences(f: AofFile, b: RewriteBuffer, stop: bool, writes: seq<WriteResult>, ghost s: State)
    returns (sent: Bytes)
    requires Holds(f, b, s) && s.child.Some? && stop == s.stop
    modifies b
    ensures !stop ==> Enabled(s, Send(|sent|)) && Holds(f, b, Apply(s, Send(|sent|))) && sent == s.blocks[..|sent|]
    ensures stop ==> sent == [] && Holds(f, b, s)
  {
    sent := b.ChildWriteDiffData(stop, writes);
    assert s.blocks[..|sent|] == sent && s.blocks[|sent|..] == b.Contents();
  }

  // Every fed byte is in exactly one place, in order.

  ghost predicate FileInv(s: State) {
    && |s.before| == |s.fed| && s.size == |s.file| && s.base.point <= |s.fed|
    && (s.on ==> s.file + s.buf == s.base.bytes + FedBytes(s, s.base.point))
    && (!s.on ==> s.buf == [])
  }

  ghost predicate ChildInv(s: State) {
    match s.child
    case None => s.blocks == [] && s.pipe == [] && !s.asking && !s.agreeing
    case Some(c) =>
      && |s.before| == |s.fed| && s.forkAt <= |s.fed|
      && c.diff + s.pipe + s.blocks == FedBytes(s, s.forkAt)
      && (s.agreeing || c.phase == Agreed || c.phase == Finished ==> s.stop)
      && (c.phase == Writing ==> !s.asking && !s.agreeing && !s.stop)
      && (c.phase == Finished ==> s.pipe == [])
  }

  ghost predicate SelectInv(s: State) {
    && |s.before| == |s.fed| && s.base.point <= |s.fed| && (s.child.Some? ==> s.forkAt <= |s.fed|)
    && (forall i | 0 <= i < |s.fed| :: !Is(s.fed[i].argv, "select"))
    && (forall i | 0 < i < |s.fed| :: s.before[i].Some? ==> s.before[i].value == s.fed[i - 1].db)
    && (s.selected.Some? ==> s.fed != [] && s.selected.value == s.fed[|s.fed| - 1].db)
    && FreshAt(s, s.base.point) && (s.child.Some? ==> FreshAt(s, s.forkAt))
  }

  // The command fed at `p` did not, or will not, rely on an earlier SELECT.
  ghost predicate FreshAt(s: State, p: nat)
    requires |s.before| == |s.fed|
  {
    if p < |s.fed| then s.before[p].None? else s.selected.None?
  }

  ghost predicate Inv(s: State) { FileInv(s) && ChildInv(s) && SelectInv(s) }

  lemma FedBytesFeed(s: State, f: Fed, p: nat)
    requires |s.before| == |s.fed| && p <= |s.fed| && Enabled(s, Feed(f))
    ensures FedBytes(Apply(s, Feed(f)), p) == FedBytes(s, p) + FeedBytes(s.selected, f)
  {
    hide EncodeAll, Items;
    var s' := Apply(s, Feed(f));
    var k := |s'.fed[p..]| - 1;
    assert s'.fed[p..][..k] == s.fed[p..] && s'.before[p..][..k] == s.before[p..];
    EncodeAppend(AllItems(s.before[p..], s.fed[p..]), Items(s.selected, f));
  }

  lemma FedBytesFrom(s: State)
    requires |s.before| == |s.fed|
    ensures FedBytes(s, |s.fed|) == []
  {
    assert s.fed[|s.fed|..] == [] && s.before[|s.fed|..] == [];
  }

  // Only feeding changes the record of what was fed.
  lemma FedBytesSame(s: State, s': State, p: nat)
    requires |s.before| == |s.fed| && s'.before == s.before && s'.fed == s.fed
    ensures FedBytes(s', p) == FedBytes(s, p)
  {}

  lemma FileFeed(s: State, f: Fed)
    requires FileInv(s) && Enabled(s, Feed(f))
    ensures FileInv(Apply(s, Feed(f)))
  {
    hide FedBytes, FeedBytes;
    FedBytesFeed(s, f, s.base.point);
    var bytes := FeedBytes(s.selected, f);
    assert s.file + (s.buf + bytes) == (s.file + s.buf) + bytes;
    assert s.base.bytes + (FedBytes(s, s.base.point) + bytes) == s.base.bytes + FedBytes(s, s.base.point) + bytes;
  }

  lemma FileFlush(s: State, count: nat, truncateWorks: bool)
    requires FileInv(s) && Enabled(s, Flush(count, truncateWorks))
    ensures FileInv(Apply(s, Flush(count, truncateWorks)))
  {
    hide FedBytes;
    var s' := Apply(s, Flush(count, truncateWorks));
    FedBytesSame(s, s', s.base.point);
    if count == |s.buf| {
      assert (s.file + s.buf) + [] == s.file + s.buf;
    } else if count > 0 && !truncateWorks {
      SplitTail(s.file, s.buf, count);
    }
  }

  lemma FileDone(s: State, ok: bool)
    requires FileInv(s) && ChildInv(s) && Enabled(s, Done(ok))
    ensures FileInv(Apply(s, Done(ok)))
  {
    hide FedBytes;
    var s', c := Apply(s, Done(ok)), s.child.value;
    FedBytesSame(s, s', s.base.point);
    FedBytesSame(s, s', s.forkAt);
    if c.phase == Finished {
      assert c.diff + s.pipe == c.diff;
      assert c.snapshot + c.diff + s.blocks + [] == c.snapshot + (c.diff + s.blocks);
    }
  }

  lemma FileInvStep(s: State, step: Step)
    requires Inv(s) && Enabled(s, step)
    ensures FileInv(Apply(s, step))
  {
    hide FedBytes, FeedBytes, Is;
    match step
    case Feed(f) => FileFeed(s, f);
    case Flush(count, truncateWorks) => FileFlush(s, count, truncateWorks);
    case Done(ok) => FileDone(s, ok);
    case _ => FedBytesSame(s, Apply(s, step), s.base.point);
  }

  lemma ChildFeed(s: State, f: Fed)
    requires FileInv(s) && ChildInv(s) && Enabled(s, Feed(f))
    ensures ChildInv(Apply(s, Feed(f)))
  {
    hide FedBytes, FeedBytes;
    if s.child.Some? {
      FedBytesFeed(s, f, s.forkAt);
      var c, bytes := s.child.value, FeedBytes(s.selected, f);
      assert c.diff + s.pipe + (s.blocks + bytes) == (c.diff + s.pipe + s.blocks) + bytes;
    }
  }

  lemma ChildSend(s: State, n: nat)
    requires ChildInv(s) && Enabled(s, Send(n))
    ensures ChildInv(Apply(s, Send(n)))
  {
    hide FedBytes, FeedBytes, Is;
    FedBytesSame(s, Apply(s, Send(n)), s.forkAt);
    MovedLeft(s.child.value.diff, s.pipe, s.blocks, n);
  }

  lemma ChildRead(s: State, n: nat)
    requires ChildInv(s) && Enabled(s, Read(n))
    ensures ChildInv(Apply(s, Read(n)))
  {
    hide FedBytes, FeedBytes, Is;
    FedBytesSame(s, Apply(s, Read(n)), s.forkAt);
    MovedLeft([], s.child.value.diff, s.pipe, n);
    assert [] + s.child.value.diff == s.child.value.diff;
    assert [] + (s.child.value.diff + s.pipe[..n]) == s.child.value.diff + s.pipe[..n];
  }

  lemma MovedLeft(a: Bytes, b: Bytes, c: Bytes, n: nat)
    requires n <= |c|
    ensures a + (b + c[..n]) + c[n..] == a + b + c
  {}

  lemma ChildInvStep(s: State, step: Step)
    requires Inv(s) && Enabled(s, step)
    ensures ChildInv(Apply(s, step))
  {
    hide FedBytes, FeedBytes, Is;
    match step
    case Feed(f) => ChildFeed(s, f);
    case Send(n) => ChildSend(s, n);
    case Read(n) => ChildRead(s, n);
    case Fork(_) => FedBytesFrom(Apply(s, step));
    case _ => FedBytesSame(s, Apply(s, step), s.forkAt);
  }

  lemma SelectFeed(s: State, f: Fed)
    requires SelectInv(s) && Enabled(s, Feed(f))
    ensures SelectInv(Apply(s, Feed(f)))
  {
    hide FeedBytes, Is;
    var s' := Apply(s, Feed(f));
    forall i | 0 < i < |s'.fed| ensures s'.before[i].Some? ==> s'.before[i].value == s'.fed[i - 1].db {}
  }

  // Steps that feed nothing may only forget the selected database and move the marks.
  lemma SelectKept(s: State, s': State)
    requires SelectInv(s) && s'.fed == s.fed && s'.before == s.before
    requires s'.selected == s.selected || s'.selected.None?
    requires s'.base.point == s.base.point || (s.child.Some? && s'.base.point == s.forkAt)
    requires s'.child.Some? ==>
               (s.child.Some? && s'.forkAt == s.forkAt) || (s'.forkAt == |s.fed| && s'.selected.None?)
    ensures SelectInv(s')
  {
    hide Is;
  }

  lemma SelectInvStep(s: State, step: Step)
    requires Inv(s) && Enabled(s, step)
    ensures SelectInv(Apply(s, step))
  {
    hide SelectInv, FileInv, ChildInv;
    match step
    case Feed(f) => SelectFeed(s, f);
    case _ => SelectKept(s, Apply(s, step));
  }

  lemma InvStep(s: State, step: Step)
    requires Inv(s) && Enabled(s, step)
    ensures Inv(Apply(s, step))
  {
    hide Apply, FileInv, ChildInv, SelectInv;
    FileInvStep(s, step);
    ChildInvStep(s, step);
    SelectInvStep(s, step);
  }

  lemma InitInv(s: State)
    requires Init(s)
    ensures Inv(s)
  {
    FedBytesFrom(s);
    assert s.file + [] == s.file;
  }

  /** In every state of every run, nothing fed is lost, repeated or reordered. */
  lemma {:induction false} Conserved(run: seq<State>, steps: seq<Step>, k: nat)
    requires IsRun(run, steps) && k < |run|
    ensures Inv(run[k])
  {
    hide Apply, Inv, Init, Enabled;
    if k == 0 {
      InitInv(run[0]);
    } else {
      Conserved(run, steps, k - 1);
      InvStep(run[k - 1], steps[k - 1]);
    }
  }

  /** The bytes fed since the fork are the child's, the pipe's and the parent's, in this order. */
  lemma DiffIsSplit(run: seq<State>, steps: seq<Step>, k: nat)
    requires IsRun(run, steps) && k < |run| && run[k].child.Some?
    ensures |run[k].before| == |run[k].fed|
    ensures run[k].child.value.diff + run[k].pipe + run[k].blocks == FedBytes(run[k], run[k].forkAt)
  {
    hide IsRun, FedBytes;
    Conserved(run, steps, k);
  }

  /** A successful rewrite leaves the fork's snapshot followed by every byte fed since, once and in
      order; dropping aof_buf loses nothing. */
  lemma Rewritten(run: seq<State>, steps: seq<Step>, k: nat)
    requires IsRun(run, steps) && k < |steps| && steps[k] == Done(true)
    requires run[k].child.Some? && run[k].child.value.phase == Finished
    ensures |run[k].before| == |run[k].fed|
    ensures run[k + 1].file == run[k].child.value.snapshot + FedBytes(run[k], run[k].forkAt)
    ensures run[k + 1].buf == [] && run[k + 1].size == |run[k + 1].file| && run[k + 1].on
    ensures run[k + 1].fed == run[k].fed
  {
    hide FedBytes;
    Conserved(run, steps, k);
    var s, c := run[k], run[k].child.value;
    assert c.diff + s.pipe == c.diff;
    assert c.snapshot + c.diff + s.blocks == c.snapshot + (c.diff + s.blocks);
  }

  /** A rewrite that fails, in the child or when the parent takes over, leaves the log as it was: the
      file, what waits for it, and what it stands for. */
  lemma NotRewritten(run: seq<State>, steps: seq<Step>, k: nat)
    requires IsRun(run, steps) && k < |steps| && steps[k].Done? && run[k].child.Some?
    requires !steps[k].ok || run[k].child.value.phase == Dead
    ensures run[k + 1] == run[k].(child := None, blocks := [], pipe := [], asking := false, agreeing := false)
    ensures run[k + 1].on ==>
              && |run[k].before| == |run[k].fed|
              && run[k + 1].file + run[k + 1].buf == run[k].base.bytes + FedBytes(run[k], run[k].base.point)
  {
    hide FedBytes;
    Conserved(run, steps, k);
  }

  // The steps lead from one state to the other.
  ghost predicate Path(s: State, steps: seq<Step>, s': State)
    decreases steps
  {
    if steps == [] then s' == s else Enabled(s, steps[0]) && Path(Apply(s, steps[0]), steps[1..], s')
  }

  lemma PathFirst(s: State, step: Step, steps: seq<Step>, s': State)
    requires Enabled(s, step) && Path(Apply(s, step), steps, s')
    ensures Path(s, [step] + steps, s')
  {
    hide Apply, Enabled;
    assert ([step] + steps)[1..] == steps;
  }

  // The child has been told to stop reading: it reads what is left, and the rewrite is over.
  lemma Completes(s: State) returns (s': State)
    requires s.child.Some? && s.child.value.phase == Agreed
    ensures Path(s, [Read(|s.pipe|), Finish, Done(true)], s')
    ensures s'.child.None? && s'.on && s'.buf == [] && s'.fed == s.fed
    ensures s'.file == s.child.value.snapshot + (s.child.value.diff + s.pipe) + s.blocks
  {
    var s1 := Apply(s, Read(|s.pipe|));
    assert s1.pipe == [] && s1.child.value.diff == s.child.value.diff + s.pipe;
    var s2 := Apply(s1, Finish);
    s' := Apply(s2, Done(true));
    hide Apply, Enabled;
    PathFirst(s2, Done(true), [], s');
    PathFirst(s1, Finish, [Done(true)], s');
    PathFirst(s, Read(|s.pipe|), [Finish] + [Done(true)], s');
    assert [Read(|s.pipe|)] + ([Finish] + [Done(true)]) == [Read(|s.pipe|), Finish, Done(true)];
  }

  // The state after the child asked the parent to stop sending, and the parent agreed.
  function Agreement(s: State): State
    requires s.child.Some?
  {
    Become(s, Agreed).(asking := false, stop := true, agreeing := true)
  }

  lemma Handshakes(s: State, rest: seq<Step>, end: State)
    requires s.child.Some? && s.child.value.phase == Writing && Path(Agreement(s), rest, end)
    ensures Path(s, [Ask] + ([Agree(true)] + ([GotAgreement] + rest)), end)
  {
    hide Path;
    var s1 := Apply(s, Ask);
    var s2 := Apply(s1, Agree(true));
    assert Apply(s2, GotAgreement) == Agreement(s);
    PathFirst(s2, GotAgreement, rest, end);
    PathFirst(s1, Agree(true), [GotAgreement] + rest, end);
    PathFirst(s, Ask, [Agree(true)] + ([GotAgreement] + rest), end);
  }

  lemma DiffAt(s: State)
    requires Inv(s) && s.child.Some?
    ensures |s.before| == |s.fed| && s.child.value.diff + s.pipe + s.blocks == FedBytes(s, s.forkAt)
  {}

  /** No rewrite gets stuck: while the child is writing, whatever is in its pipe and in the blocks,
      parent and child can complete the rewrite without waiting for anything else. */
  lemma CanFinish(run: seq<State>, steps: seq<Step>, k: nat) returns (rest: seq<Step>, s': State)
    requires IsRun(run, steps) && k < |run| && run[k].child.Some? && run[k].child.value.phase == Writing
    ensures Path(run[k], rest, s') && s'.child.None? && s'.on && s'.buf == [] && s'.fed == run[k].fed
    ensures |run[k].before| == |run[k].fed|
    ensures s'.file == run[k].child.value.snapshot + FedBytes(run[k], run[k].forkAt)
  {
    Conserved(run, steps, k);
    DiffAt(run[k]);
    hide IsRun, Inv, Path, FedBytes;
    var s, c := run[k], run[k].child.value;
    s' := Completes(Agreement(s));
    rest := [Read(|s.pipe|), Finish, Done(true)];
    Handshakes(s, rest, s');
    rest := [Ask] + ([Agree(true)] + ([GotAgreement] + rest));
    Regrouped(c.snapshot, c.diff, s.pipe, s.blocks);
  }

  lemma Regrouped(a: Bytes, b: Bytes, c: Bytes, d: Bytes)
    ensures a + (b + c) + d == a + (b + c + d)
  {}

  // From bytes back to commands.

  // The commands logged since the snapshot the file starts with.
  function Logged(s: State): seq<Argv>
    requires |s.before| == |s.fed| && s.base.point <= |s.fed|
  {
    AllItems(s.before[s.base.point..], s.fed[s.base.point..])
  }

  /** Replaying the log runs each command in its database, and so does the diff of a running rewrite,
      whatever database the snapshot before it ends in. */
  lemma ReplaysInOrder(run: seq<State>, steps: seq<Step>, k: nat, db: nat)
    requires IsRun(run, steps) && k < |run|
    ensures |run[k].before| == |run[k].fed| && run[k].base.point <= |run[k].fed|
    ensures Replay(Logged(run[k]), db) == run[k].fed[run[k].base.point..]
    ensures run[k].child.Some? ==>
              && run[k].forkAt <= |run[k].fed|
              && Replay(AllItems(run[k].before[run[k].forkAt..], run[k].fed[run[k].forkAt..]), db)
                 == run[k].fed[run[k].forkAt..]
  {
    hide IsRun, Replay, AllItems, Is;
    Conserved(run, steps, k);
    StretchTracked(run[k], run[k].base.point);
    ReplayAll(run[k].before[run[k].base.point..], run[k].fed[run[k].base.point..], db);
    if run[k].child.Some? {
      StretchTracked(run[k], run[k].forkAt);
      ReplayAll(run[k].before[run[k].forkAt..], run[k].fed[run[k].forkAt..], db);
    }
  }

  lemma StretchTracked(s: State, p: nat)
    requires SelectInv(s) && p <= |s.fed| && FreshAt(s, p)
    ensures Tracked(s.before[p..], s.fed[p..])
  {
    hide Is;
    var before, fed := s.before[p..], s.fed[p..];
    assert forall i | 0 <= i < |fed| :: fed[i] == s.fed[p + i] && before[i] == s.before[p + i];
  }

  /** Crash consistency: cut the file, and whatever of the buffer had reached it, anywhere. Loading then
      runs the commands up to some point of snapshot and log, no transaction in part. Those logged since
      the snapshot replay to the first commands fed since then, each in its database. With nothing cut
      off and no transaction open, that is all of them. */
  lemma CrashConsistent(
    run: seq<State>, steps: seq<Step>, k: nat, snapshot: seq<Argv>, p: Bytes, db: nat)
    returns (m: nat, n: nat)
    requires IsRun(run, steps) && k < |run| && run[k].on
    requires run[k].base.bytes == EncodeAll(snapshot)
    requires |run[k].before| == |run[k].fed| && run[k].base.point <= |run[k].fed|
    requires AllEncodable(snapshot + Logged(run[k])) && WellNested(snapshot + Logged(run[k]))
    requires p <= run[k].file + run[k].buf
    ensures RunsUpTo(snapshot + Logged(run[k]), p, m)
    ensures m <= |snapshot| ==> Load(p, 0, Fresh, true).ran == Plain(snapshot[..m])
    ensures var logged, fed := Logged(run[k]), run[k].fed[run[k].base.point..];
            m >= |snapshot| ==>
              && Load(p, 0, Fresh, true).ran == Plain(snapshot) + Plain(logged[..m - |snapshot|])
              && n <= |fed| && Replay(Plain(logged[..m - |snapshot|]), db) == PlainFed(fed[..n])
    ensures var logged, fed := Logged(run[k]), run[k].fed[run[k].base.point..];
            p == run[k].file + run[k].buf && After(snapshot + logged).multi.None? ==>
              m == |snapshot| + |logged| && n == |fed|
  {
    hide IsRun, EncodeAll, Load, Replay, AllItems, Encodable, Is, SelectInv, ChildInv, After, WellNested, Plain, PlainFed;
    var s, items := run[k], Logged(run[k]);
    Conserved(run, steps, k);
    EncodeAppend(snapshot, items);
    var log := snapshot + items;
    assert s.file + s.buf == EncodeAll(log);
    m := LoadWhole(log, p);
    n := 0;
    if m <= |snapshot| {
      assert log[..m] == snapshot[..m];
    }
    if m >= |snapshot| {
      var i := m - |snapshot|;
      assert log[..m] == snapshot + items[..i];
      PlainAppend(snapshot, items[..i]);
      ReplaysInOrder(run, steps, k, db);
      n := FirstReplayed(items, s.fed[s.base.point..], i, db);
    }
    if p == EncodeAll(log) && After(log).multi.None? {
      assert log[..|log|] == log;
      assert items[..|items|] == items;
    }
  }

  // Replaying the first items gives the first fed commands.
  lemma FirstReplayed(items: seq<Argv>, fed: seq<Fed>, i: nat, db: nat) returns (n: nat)
    requires i <= |items| && Replay(items, db) == fed
    ensures n <= |fed| && Replay(Plain(items[..i]), db) == PlainFed(fed[..n])
    ensures i == |items| ==> n == |fed|
  {
    hide Replay, Plain, PlainFed;
    assert items == items[..i] + items[i..];
    ReplayAppend(items[..i], items[i..], db);
    ReplayPlain(items[..i], db);
    n := |Replay(items[..i], db)|;
    assert fed[..n] == Replay(items[..i], db);
    if i == |items| { assert items[..i] == items; }
  }
}
