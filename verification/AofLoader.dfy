/** Replaying an append only file, and cutting off what a crash left unfinished. */
module AofLoader {
  import opened Common
  import opened AofFormat

  // The loading client: commands run so far, an open transaction, and the two offsets to cut at.
  datatype Client = Client(ran: seq<Argv>, multi: Option<seq<Argv>>, validUpTo: nat, beforeMulti: nat)

  const Fresh: Client := Client([], None, 0, 0)

  predicate Is(argv: Argv, name: string) { argv != [] && LowerAll(argv[0]) == name }

  // One command of the file; inside a transaction everything but EXEC is queued.
  function Run(c: Client, argv: Argv): Client {
    var c1 := if Is(argv, "multi") then c.(beforeMulti := c.validUpTo) else c;
    match c1.multi
    case Some(queue) =>
      if Is(argv, "exec") then c1.(ran := c1.ran + queue, multi := None) else c1.(multi := Some(queue + [argv]))
    case None =>
      if Is(argv, "multi") then c1.(multi := Some([]))
      else if Is(argv, "exec") then c1
      else c1.(ran := c1.ran + [argv])
  }

  datatype Outcome =
    | Loaded(ran: seq<Argv>)
    | LoadedCut(ran: seq<Argv>, length: nat)  // the file was shortened to `length`
    | Refused

  // `truncated` is the aof-load-truncated option; without it no offset is tracked.
  function Load(file: Bytes, pos: nat, c: Client, truncated: bool): Outcome
    requires pos <= |file|
    decreases |file| - pos
  {
    match ParseCommand(file[pos..])
    case Complete(argv, used) =>
      var c1 := Run(c, argv);
      Load(file, pos + used, if truncated then c1.(validUpTo := pos + used) else c1, truncated)
    case AtEnd =>
      if c.multi.None? then Loaded(c.ran)
      else if truncated then LoadedCut(c.ran, c.beforeMulti)
      else Refused
    case Torn => if truncated then LoadedCut(c.ran, c.validUpTo) else Refused
    case _ => Refused
  }

  method RunCommand(c: Client, argv: Argv) returns (r: Client)
    ensures r == Run(c, argv)
  {
    r := c;
    if Is(argv, "multi") {
      r := r.(beforeMulti := r.validUpTo);
    }
    if r.multi.Some? && !Is(argv, "exec") {
      r := r.(multi := Some(r.multi.value + [argv]));
    } else if r.multi.Some? {
      r := r.(ran := r.ran + r.multi.value, multi := None);
    } else if Is(argv, "multi") {
      r := r.(multi := Some([]));
    } else if !Is(argv, "exec") {
      r := r.(ran := r.ran + [argv]);
    }
  }

  /** loadAppendOnlyFile after the RDB preamble, of which this file has none. */
  method LoadAppendOnlyFile(file: Bytes, truncated: bool) returns (r: Outcome)
    ensures r == Load(file, 0, Fresh, truncated)
  {
    hide ParseCommand, Run;
    var c, pos := Fresh, 0;
    while true
      invariant pos <= |file| && Load(file, pos, c, truncated) == Load(file, 0, Fresh, truncated)
      decreases |file| - pos
    {
      match ParseCommand(file[pos..]) {
        case Complete(argv, used) =>
          c := RunCommand(c, argv);
          pos := pos + used;
          if truncated {
            c := c.(validUpTo := pos);
          }
        case AtEnd =>
          if c.multi.Some? {
            return if truncated then LoadedCut(c.ran, c.beforeMulti) else Refused;
          }
          return Loaded(c.ran);
        case Torn =>
          return if truncated then LoadedCut(c.ran, c.validUpTo) else Refused;
        case Malformed =>
          return Refused;
        case Unreadable =>
          return Refused;
      }
    }
  }

  // The reference: commands run one after the other, with the offset after each.
  function RunAll(c: Client, cmds: seq<Argv>, pos: nat): Client
    decreases cmds
  {
    if cmds == [] then c else
      var next := pos + |Encode(cmds[0])|;
      RunAll(Run(c, cmds[0]).(validUpTo := next), cmds[1..], next)
  }

  ghost predicate AllEncodable(cmds: seq<Argv>) { forall c | c in cmds :: Encodable(c) }

  // Without the option the offsets make no difference.
  lemma {:induction false} OffsetsUnused(file: Bytes, pos: nat, c: Client, d: Client)
    requires pos <= |file| && c.ran == d.ran && c.multi == d.multi
    ensures Load(file, pos, c, false) == Load(file, pos, d, false)
    decreases |file| - pos
  {
    hide ParseCommand, Is;
    var p := ParseCommand(file[pos..]);
    if p.Complete? {
      OffsetsUnused(file, pos + p.used, Run(c, p.argv), Run(d, p.argv));
    }
  }

  lemma LoadStep(file: Bytes, pos: nat, c: Client, argv: Argv, used: nat, truncated: bool)
    requires pos <= |file| && ParseCommand(file[pos..]) == Complete(argv, used)
    ensures pos + used <= |file|
    ensures Load(file, pos, c, truncated)
         == Load(file, pos + used, Run(c, argv).(validUpTo := pos + used), truncated)
  {
    hide ParseCommand, Run;
    if !truncated {
      OffsetsUnused(file, pos + used, Run(c, argv), Run(c, argv).(validUpTo := pos + used));
    }
  }

  // Loading from a position where written commands and then `tail` follow.
  lemma {:induction false} LoadEncoded(pre: Bytes, c: Client, cmds: seq<Argv>, tail: Bytes, truncated: bool)
    requires AllEncodable(cmds)
    ensures var file := pre + EncodeAll(cmds) + tail;
            Load(file, |pre|, c, truncated)
            == Load(file, |pre| + |EncodeAll(cmds)|, RunAll(c, cmds, |pre|), truncated)
    decreases cmds
  {
    hide Encodable, Encode, ParseCommand, Run, Load;
    if cmds != [] {
      var x, rest := Encode(cmds[0]), EncodeAll(cmds[1..]);
      var file := pre + EncodeAll(cmds) + tail;
      assert file == pre + (x + (rest + tail)) == (pre + x) + rest + tail;
      assert file[|pre|..] == x + (rest + tail);
      ParseEncoded(cmds[0], rest + tail);
      LoadStep(file, |pre|, c, cmds[0], |x|, truncated);
      LoadEncoded(pre + x, Run(c, cmds[0]).(validUpTo := |pre| + |x|), cmds[1..], tail, truncated);
    }
  }

  lemma {:induction false} EncodeAppend(a: seq<Argv>, b: seq<Argv>)
    ensures EncodeAll(a + b) == EncodeAll(a) + EncodeAll(b)
  {
    hide Encode;
    if a == [] {
      assert a + b == b;
    } else {
      assert (a + b)[1..] == a[1..] + b;
      EncodeAppend(a[1..], b);
    }
  }

  lemma {:induction false} RunAppend(c: Client, a: seq<Argv>, b: seq<Argv>, pos: nat)
    ensures RunAll(c, a + b, pos) == RunAll(RunAll(c, a, pos), b, pos + |EncodeAll(a)|)
    decreases a
  {
    hide Run, Encode;
    if a == [] {
      assert a + b == b;
    } else {
      assert (a + b)[1..] == a[1..] + b;
      var next := pos + |Encode(a[0])|;
      RunAppend(Run(c, a[0]).(validUpTo := next), a[1..], b, next);
    }
  }

  // The client after a whole log.
  function After(cmds: seq<Argv>): Client { RunAll(Fresh, cmds, 0) }

  lemma AfterLast(cmds: seq<Argv>, x: Argv)
    ensures After(cmds + [x]) == Run(After(cmds), x).(validUpTo := |EncodeAll(cmds + [x])|)
  {
    hide Run, Encode;
    RunAppend(Fresh, cmds, [x], 0);
    EncodeAppend(cmds, [x]);
    assert EncodeAll([x]) == Encode(x) + EncodeAll([]);
    var c := After(cmds);
    var next := |EncodeAll(cmds)| + |Encode(x)|;
    assert RunAll(c, [x], |EncodeAll(cmds)|) == RunAll(Run(c, x).(validUpTo := next), [], next);
  }

  lemma {:induction false} AfterOffset(cmds: seq<Argv>)
    ensures After(cmds).validUpTo == |EncodeAll(cmds)|
  {
    if cmds != [] {
      AfterLast(cmds[..|cmds| - 1], cmds[|cmds| - 1]);
      assert cmds == cmds[..|cmds| - 1] + [cmds[|cmds| - 1]];
    }
  }

  // How a log that ends after `cmds`, or inside the command after them, is loaded.
  function Expected(cmds: seq<Argv>, torn: bool): Outcome {
    var c := After(cmds);
    if torn then LoadedCut(c.ran, |EncodeAll(cmds)|)
    else if c.multi.Some? then LoadedCut(c.ran, c.beforeMulti)
    else Loaded(c.ran)
  }

  lemma LoadRest(cmds: seq<Argv>, tail: Bytes, truncated: bool)
    requires AllEncodable(cmds)
    ensures var file := EncodeAll(cmds) + tail;
            && file[|EncodeAll(cmds)|..] == tail
            && Load(file, 0, Fresh, truncated) == Load(file, |EncodeAll(cmds)|, After(cmds), truncated)
  {
    hide Encodable, Run, EncodeAll, RunAll, ParseCommand, Load;
    LoadEncoded([], Fresh, cmds, tail, truncated);
    assert [] + EncodeAll(cmds) + tail == EncodeAll(cmds) + tail;
  }

  lemma LoadTail(cmds: seq<Argv>, tail: Bytes)
    requires AllEncodable(cmds)
    requires tail == [] || ParseCommand(tail) == Torn
    ensures Load(EncodeAll(cmds) + tail, 0, Fresh, true) == Expected(cmds, tail != [])
  {
    hide Encodable, Run, EncodeAll, RunAll, ParseCommand;
    LoadRest(cmds, tail, true);
    AfterOffset(cmds);
    EndOfFile();
  }

  /** Without the truncation option a log is loaded exactly if it ends between two commands and
      outside of all transactions. */
  lemma StrictTail(cmds: seq<Argv>, tail: Bytes)
    requires AllEncodable(cmds)
    requires tail == [] || ParseCommand(tail) == Torn
    ensures Load(EncodeAll(cmds) + tail, 0, Fresh, false) ==
              if tail == [] && After(cmds).multi.None? then Loaded(After(cmds).ran) else Refused
  {
    hide Encodable, Run, EncodeAll, RunAll, ParseCommand, After;
    LoadRest(cmds, tail, false);
    EndOfFile();
  }

  lemma FormatError(cmds: seq<Argv>, tail: Bytes, truncated: bool)
    requires AllEncodable(cmds) && (ParseCommand(tail).Malformed? || ParseCommand(tail).Unreadable?)
    ensures Load(EncodeAll(cmds) + tail, 0, Fresh, truncated) == Refused
  {
    hide Encodable, Run, EncodeAll, RunAll, ParseCommand, After;
    LoadRest(cmds, tail, truncated);
  }

  /** What is not a command is never taken for a torn one: whatever came before it and whatever the
      option says, the file is refused. */
  lemma BadStartRefused(cmds: seq<Argv>, tail: Bytes, truncated: bool)
    requires AllEncodable(cmds) && tail != [] && tail[0] != '*'
    ensures Load(EncodeAll(cmds) + tail, 0, Fresh, truncated) == Refused
  {
    hide Encodable, Load, EncodeAll, ParseArgs;
    FormatError(cmds, tail, truncated);
  }

  /** Nor is a line that breaks off in a zero byte, unless the file ends there. */
  lemma NulRefused(cmds: seq<Argv>, tail: Bytes, e: nat, truncated: bool)
    requires AllEncodable(cmds) && 2 < e < |tail| && e <= LINE_MAX && tail[0] == '*' && tail[1] == '\0'
    requires tail[e - 1] == '\n' && forall i | 0 <= i < e - 1 :: tail[i] != '\n'
    ensures Load(EncodeAll(cmds) + tail, 0, Fresh, truncated) == Refused
  {
    hide Encodable, Load, EncodeAll, ParseArgs;
    LineEndIs(tail, 0, e);
    FormatError(cmds, tail, truncated);
  }

  /** Nor is a command without arguments. */
  lemma NoArgumentsRefused(cmds: seq<Argv>, rest: Bytes, truncated: bool)
    requires AllEncodable(cmds)
    ensures Load(EncodeAll(cmds) + (HeaderLine('*', 0) + rest), 0, Fresh, truncated) == Refused
  {
    hide *;
    ParseNoCommand(rest);
    FormatError(cmds, HeaderLine('*', 0) + rest, truncated);
  }

  /** Nor is a command that breaks off into something else, after any number of its arguments. */
  lemma BadArgumentRefused(cmds: seq<Argv>, n: nat, args: Argv, rest: Bytes, truncated: bool)
    requires AllEncodable(cmds)
    requires n < Pow10(MAX_DIGITS) && forall a | a in args :: |a| < Pow10(MAX_DIGITS)
    requires |args| < n && rest != [] && rest[0] != '$'
    ensures Load(EncodeAll(cmds) + (HeaderLine('*', n) + (EncodeArgs(args) + rest)), 0, Fresh, truncated) == Refused
  {
    hide *;
    ParseBadArgument(n, args, rest);
    FormatError(cmds, HeaderLine('*', n) + (EncodeArgs(args) + rest), truncated);
  }

  lemma EndOfFile()
    ensures ParseCommand([]) == AtEnd
  {}

  // The commands that are completely inside a prefix of a log, and what remains after them.
  lemma {:induction false} SplitPrefix(cmds: seq<Argv>, p: Bytes) returns (k: nat, t: Bytes)
    requires p <= EncodeAll(cmds)
    ensures k <= |cmds| && p == EncodeAll(cmds[..k]) + t
    ensures if k == |cmds| then t == [] else t < Encode(cmds[k])
  {
    hide Encode;
    if cmds == [] {
      k, t := 0, [];
    } else {
      var x, rest := Encode(cmds[0]), EncodeAll(cmds[1..]);
      if |p| < |x| {
        k, t := 0, p;
        assert p < x;
      } else {
        var q := p[|x|..];
        assert p == x + q && q <= rest;
        k, t := SplitPrefix(cmds[1..], q);
        assert cmds[..k + 1][1..] == cmds[1..][..k];
        assert p == (x + EncodeAll(cmds[1..][..k])) + t;
        k := k + 1;
      }
    }
  }

  /** Any byte prefix of any log: the loader runs exactly what the complete commands in it run, and
      cuts the file after them, or, where it ends between the commands of a transaction, before it. */
  lemma LoadPrefix(cmds: seq<Argv>, p: Bytes) returns (k: nat, t: Bytes)
    requires AllEncodable(cmds) && p <= EncodeAll(cmds)
    ensures k <= |cmds| && p == EncodeAll(cmds[..k]) + t
    ensures if k == |cmds| then t == [] else t < Encode(cmds[k])
    ensures Load(p, 0, Fresh, true) == Expected(cmds[..k], t != [])
  {
    hide Encodable, Encode, EncodeAll, Load, ParseCommand, Run, RunAll, Expected;
    k, t := SplitPrefix(cmds, p);
    if t != [] {
      ParseCut(cmds[k], t);
    }
    LoadTail(cmds[..k], t);
  }

  // Logs without transactions.

  ghost predicate MultiFree(cmds: seq<Argv>) { forall c | c in cmds :: !Is(c, "multi") && !Is(c, "exec") }

  lemma {:induction false} MultiFreeRuns(cmds: seq<Argv>)
    requires MultiFree(cmds)
    ensures After(cmds).ran == cmds && After(cmds).multi == None
  {
    hide Encode, Is;
    if cmds != [] {
      var k := |cmds| - 1;
      assert cmds == cmds[..k] + [cmds[k]];
      AfterLast(cmds[..k], cmds[k]);
      MultiFreeRuns(cmds[..k]);
    }
  }

  /** For a log without transactions: whatever the cut, exactly the complete commands are run, and the
      file is cut at their end, if at all. */
  lemma LoadMultiFreePrefix(cmds: seq<Argv>, p: Bytes) returns (k: nat)
    requires AllEncodable(cmds) && MultiFree(cmds) && p <= EncodeAll(cmds)
    ensures k <= |cmds| && EncodeAll(cmds[..k]) <= p
    ensures k < |cmds| ==> !(EncodeAll(cmds[..k + 1]) <= p)
    ensures Load(p, 0, Fresh, true) ==
              if p == EncodeAll(cmds[..k]) then Loaded(cmds[..k]) else LoadedCut(cmds[..k], |EncodeAll(cmds[..k])|)
  {
    hide Encodable, Encode, EncodeAll, Load, RunAll;
    var t;
    k, t := LoadPrefix(cmds, p);
    MultiFreeRuns(cmds[..k]);
    if k < |cmds| {
      assert cmds[..k + 1] == cmds[..k] + [cmds[k]];
      EncodeAppend(cmds[..k], [cmds[k]]);
      EncodeOne(cmds[k]);
    }
  }

  lemma EncodeOne(x: Argv)
    ensures EncodeAll([x]) == Encode(x)
  {
    assert EncodeAll([x]) == Encode(x) + EncodeAll([]);
  }

  /** A log without transactions is read back as its commands. */
  lemma RoundTrip(cmds: seq<Argv>)
    requires AllEncodable(cmds) && MultiFree(cmds)
    ensures Load(EncodeAll(cmds), 0, Fresh, true) == Loaded(cmds)
  {
    hide Encodable, Encode, EncodeAll, Load, RunAll;
    LoadTail(cmds, []);
    MultiFreeRuns(cmds);
    assert EncodeAll(cmds) + [] == EncodeAll(cmds);
  }

  // Logs with transactions, as the server writes them: MULTI never inside a transaction.

  ghost predicate WellNested(cmds: seq<Argv>) {
    forall m | 0 <= m < |cmds| && Is(cmds[m], "multi") :: After(cmds[..m]).multi.None?
  }

  // An open transaction began at the offset the loader remembers, and nothing has run since.
  lemma {:induction false} OpenTransaction(cmds: seq<Argv>) returns (m: nat)
    requires WellNested(cmds) && After(cmds).multi.Some?
    ensures m < |cmds| && After(cmds).beforeMulti == |EncodeAll(cmds[..m])|
    ensures After(cmds[..m]).multi.None? && After(cmds[..m]).ran == After(cmds).ran
    ensures forall j | m < j <= |cmds| :: After(cmds[..j]).multi.Some?
  {
    hide Encode, EncodeAll, RunAll, Is;
    FreshAfter();
    var k := |cmds| - 1;
    var ds, x := cmds[..k], cmds[k];
    assert cmds == ds + [x];
    AfterLast(ds, x);
    assert cmds[..|cmds|] == cmds;
    if After(ds).multi.None? {
      AfterOffset(ds);
      m := k;
    } else {
      assert forall i | 0 <= i <= k :: ds[..i] == cmds[..i];
      m := OpenTransaction(ds);
      assert forall j | m < j <= k :: After(ds[..j]).multi.Some?;
    }
  }

  // The commands of a log without the brackets of its transactions.
  function Plain(cmds: seq<Argv>): seq<Argv> {
    if cmds == [] then [] else
      (if Is(cmds[0], "multi") || Is(cmds[0], "exec") then [] else [cmds[0]]) + Plain(cmds[1..])
  }

  lemma {:induction false} PlainAppend(a: seq<Argv>, b: seq<Argv>)
    ensures Plain(a + b) == Plain(a) + Plain(b)
  {
    hide Is;
    if a == [] {
      assert a + b == b;
    } else {
      assert (a + b)[1..] == a[1..] + b;
      PlainAppend(a[1..], b);
    }
  }

  lemma PlainOne(x: Argv)
    ensures Plain([x]) == if Is(x, "multi") || Is(x, "exec") then [] else [x]
  {
    hide Is;
    assert [x][1..] == [];
    assert Plain([x][1..]) == [];
  }

  // What has run and what is queued are all the commands so far, in order.
  lemma {:induction false} RanIsPlain(cmds: seq<Argv>)
    requires WellNested(cmds)
    ensures var c := After(cmds); Plain(cmds) == c.ran + if c.multi.Some? then c.multi.value else []
  {
    hide Encode, EncodeAll, RunAll, Is, Plain;
    FreshAfter();
    if cmds == [] {
      PlainNone();
    } else {
      var k := |cmds| - 1;
      var ds, x := cmds[..k], cmds[k];
      assert cmds == ds + [x];
      assert forall i | 0 <= i < k :: ds[..i] == cmds[..i];
      RanIsPlain(ds);
      AfterLast(ds, x);
      PlainAppend(ds, [x]);
      PlainOne(x);
      NotBoth(x);
    }
  }

  lemma PlainNone()
    ensures Plain([]) == []
  {}

  lemma NotBoth(x: Argv)
    ensures !(Is(x, "multi") && Is(x, "exec"))
  {}

  /** A log whose transactions are closed is read back as its commands, brackets left out. */
  lemma RoundTripNested(cmds: seq<Argv>)
    requires AllEncodable(cmds) && WellNested(cmds) && After(cmds).multi.None?
    ensures Load(EncodeAll(cmds), 0, Fresh, true) == Loaded(Plain(cmds))
  {
    hide Encodable, Encode, EncodeAll, Load, RunAll, Plain;
    LoadTail(cmds, []);
    RanIsPlain(cmds);
    assert EncodeAll(cmds) + [] == EncodeAll(cmds);
  }

  /** Without the truncation option, any byte prefix of any log: loaded, as all of its commands, if it
      ends between two commands and outside of all transactions, and refused otherwise. */
  lemma StrictPrefix(cmds: seq<Argv>, p: Bytes) returns (k: nat)
    requires AllEncodable(cmds) && WellNested(cmds) && p <= EncodeAll(cmds)
    ensures k <= |cmds| && EncodeAll(cmds[..k]) <= p
    ensures k < |cmds| ==> |p| < |EncodeAll(cmds[..k + 1])|
    ensures Load(p, 0, Fresh, false) ==
              if p == EncodeAll(cmds[..k]) && After(cmds[..k]).multi.None? then Loaded(Plain(cmds[..k])) else Refused
  {
    hide Encodable, Encode, EncodeAll, Load, ParseCommand, Run, RunAll, After, WellNested, Plain;
    var t;
    k, t := SplitPrefix(cmds, p);
    if t != [] {
      ParseCut(cmds[k], t);
    }
    StrictTail(cmds[..k], t);
    NestedPrefix(cmds, k);
    RanIsPlain(cmds[..k]);
    if k < |cmds| {
      TooLong(cmds, k, t, k + 1);
    }
  }

  // What the loader runs from `p` are the first `m` commands of the log. They end outside of all
  // transactions, and no later point of that kind is inside `p`.
  ghost predicate RunsUpTo(log: seq<Argv>, p: Bytes, m: nat) {
    && m <= |log| && EncodeAll(log[..m]) <= p && After(log[..m]).multi.None?
    && (forall j | m < j <= |log| && EncodeAll(log[..j]) <= p :: After(log[..j]).multi.Some?)
    && var o := Load(p, 0, Fresh, true); !o.Refused? && o.ran == Plain(log[..m])
  }

  /** From any byte prefix of any log a transaction runs as a whole or not at all. */
  lemma LoadWhole(cmds: seq<Argv>, p: Bytes) returns (m: nat)
    requires AllEncodable(cmds) && WellNested(cmds) && p <= EncodeAll(cmds)
    ensures RunsUpTo(cmds, p, m)
  {
    hide Encodable, Encode, EncodeAll, Load, ParseCommand, Run, RunAll, After, WellNested, Plain;
    var k, t := LoadPrefix(cmds, p);
    var ds := cmds[..k];
    NestedPrefix(cmds, k);
    RanIsPlain(ds);
    if After(ds).multi.None? {
      m := k;
      assert ds[..k] == ds;
    } else {
      m := OpenTransaction(ds);
      assert ds[..m] == cmds[..m];
      NestedPrefix(cmds, m);
      RanIsPlain(cmds[..m]);
      assert forall j | m < j <= k :: ds[..j] == cmds[..j];
    }
    LeftOpen(ds, m);
    assert ds[..m] == cmds[..m];
    forall j | k < j <= |cmds| ensures !(EncodeAll(cmds[..j]) <= p) {
      TooLong(cmds, k, t, j);
    }
  }

  lemma NestedPrefix(cmds: seq<Argv>, k: nat)
    requires WellNested(cmds) && k <= |cmds|
    ensures WellNested(cmds[..k])
  {
    hide Is, After;
    assert forall i | 0 <= i <= k :: cmds[..k][..i] == cmds[..i];
  }

  lemma TooLong(cmds: seq<Argv>, k: nat, t: Bytes, j: nat)
    requires k < j <= |cmds| && t < Encode(cmds[k])
    ensures |EncodeAll(cmds[..j])| > |EncodeAll(cmds[..k]) + t|
  {
    hide Encode, EncodeAll;
    assert cmds[..k + 1] == cmds[..k] + [cmds[k]];
    EncodeAppend(cmds[..k], [cmds[k]]);
    EncodeOne(cmds[k]);
    assert cmds[..j][..k + 1] == cmds[..k + 1];
    LeftOpen(cmds[..j], k + 1);
  }

  lemma FreshAfter()
    ensures After([]) == Fresh
  {}

  // The file after loading: cut if the loader said so.
  function Left(p: Bytes, o: Outcome): Bytes {
    if o.LoadedCut? && o.length <= |p| then p[..o.length] else p
  }

  lemma LeftOpen(cmds: seq<Argv>, m: nat)
    requires m <= |cmds|
    ensures |EncodeAll(cmds[..m])| <= |EncodeAll(cmds)|
    ensures EncodeAll(cmds)[..|EncodeAll(cmds[..m])|] == EncodeAll(cmds[..m])
  {
    hide EncodeAll;
    assert cmds == cmds[..m] + cmds[m..];
    EncodeAppend(cmds[..m], cmds[m..]);
  }

  /** The file left behind loads again, without a further cut, as what was just loaded: exactly when
      the log was not torn inside a transaction. */
  lemma LeftFileIsClosed(cmds: seq<Argv>, t: Bytes)
    requires AllEncodable(cmds) && WellNested(cmds)
    requires t == [] || ParseCommand(t) == Torn
    ensures var o := Load(EncodeAll(cmds) + t, 0, Fresh, true);
            && !o.Refused?
            && (Load(Left(EncodeAll(cmds) + t, o), 0, Fresh, true) == Loaded(o.ran)
                <==> t == [] || After(cmds).multi.None?)
  {
    hide Encodable, EncodeAll, Load, Is, ParseCommand, WellNested, After;
    var p := EncodeAll(cmds) + t;
    var o := Load(p, 0, Fresh, true);
    LoadTail(cmds, t);
    LoadTail(cmds, []);
    assert EncodeAll(cmds) + [] == EncodeAll(cmds);
    if t != [] {
      assert Left(p, o) == EncodeAll(cmds);
    } else if After(cmds).multi.Some? {
      var m := OpenTransaction(cmds);
      LeftOpen(cmds, m);
      LoadTail(cmds[..m], []);
      assert EncodeAll(cmds[..m]) + [] == EncodeAll(cmds[..m]);
      assert Left(p, o) == EncodeAll(cmds[..m]);
    }
  }

  lemma {:induction false} OpenStaysOpen(cmds: seq<Argv>, more: seq<Argv>)
    requires After(cmds).multi.Some? && forall c | c in more :: !Is(c, "exec")
    ensures After(cmds + more).multi.Some? && After(cmds + more).ran == After(cmds).ran
  {
    hide After, Is;
    if more == [] {
      assert cmds + more == cmds;
    } else {
      var k := |more| - 1;
      OpenStaysOpen(cmds, more[..k]);
      AfterLast(cmds + more[..k], more[k]);
      assert cmds + more == (cmds + more[..k]) + [more[k]];
    }
  }

  /** A log torn inside a transaction: commands appended to the file left behind are never run again,
      up to the next EXEC. */
  lemma TornTransactionSwallows(cmds: seq<Argv>, t: Bytes, more: seq<Argv>)
    requires AllEncodable(cmds) && AllEncodable(more)
    requires ParseCommand(t) == Torn && After(cmds).multi.Some?
    requires forall c | c in more :: !Is(c, "exec")
    ensures var p := EncodeAll(cmds) + t;
            var o := Load(p, 0, Fresh, true);
            && !o.Refused?
            && var o' := Load(Left(p, o) + EncodeAll(more), 0, Fresh, true);
               !o'.Refused? && o'.ran == o.ran
  {
    EndOfFile();
    hide Encodable, EncodeAll, Load, Is, ParseCommand, After;
    var p := EncodeAll(cmds) + t;
    LoadTail(cmds, t);
    assert Left(p, Load(p, 0, Fresh, true)) == EncodeAll(cmds);
    LoadTail(cmds + more, []);
    OpenStaysOpen(cmds, more);
    EncodeAppend(cmds, more);
    assert EncodeAll(cmds + more) + [] == EncodeAll(cmds) + EncodeAll(more);
  }

  /** Such logs exist: a transaction cut inside its second command. */
  lemma TornTransactionExample() returns (cmds: seq<Argv>, t: Bytes)
    ensures AllEncodable(cmds) && WellNested(cmds) && ParseCommand(t) == Torn && After(cmds).multi.Some?
  {
    cmds, t := [["MULTI"]], "*";
    assert LowerAll("MULTI") == "multi";
    assert Pow10(MAX_DIGITS) >= 10 by {
      PowGrows(MAX_DIGITS);
    }
    FreshAfter();
    AfterLast([], ["MULTI"]);
    assert [] + [["MULTI"]] == cmds;
    LineEndEof(t, 0);
  }

  lemma {:induction false} PowGrows(k: nat)
    requires k > 0
    ensures Pow10(k) >= 10
  {
    if k > 1 {
      PowGrows(k - 1);
    }
  }
}
