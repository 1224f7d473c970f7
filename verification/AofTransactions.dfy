/** The loader on whole logs: commands and transactions, the last one possibly still open or torn. */
module AofTransactions {
  import opened Common
  import opened AofFormat
  import opened AofLoader

  // An entry as it is logged: a command by itself, or commands between MULTI and EXEC.
  datatype Entry = Command(argv: Argv) | Transaction(first: Argv, body: seq<Argv>, last: Argv)

  ghost predicate EntryOk(e: Entry) {
    match e
    case Command(argv) => MultiFree([argv])
    case Transaction(first, body, last) => Is(first, "multi") && MultiFree(body) && Is(last, "exec")
  }

  function LoggedAs(e: Entry): seq<Argv> {
    match e
    case Command(argv) => [argv]
    case Transaction(first, body, last) => [first] + body + [last]
  }

  function CommandsOf(e: Entry): seq<Argv> {
    match e
    case Command(argv) => [argv]
    case Transaction(_, body, _) => body
  }

  function Logged(entries: seq<Entry>): seq<Argv> {
    if entries == [] then [] else Logged(entries[..|entries| - 1]) + LoggedAs(entries[|entries| - 1])
  }

  function Commands(entries: seq<Entry>): seq<Argv> {
    if entries == [] then [] else Commands(entries[..|entries| - 1]) + CommandsOf(entries[|entries| - 1])
  }

  // A transaction under way: its commands are queued, and its beginning is remembered.
  lemma {:induction false} AfterOpen(ds: seq<Argv>, first: Argv, body: seq<Argv>)
    requires After(ds).multi.None? && Is(first, "multi") && MultiFree(body)
    ensures var c := After(ds + [first] + body);
            c.ran == After(ds).ran && c.multi == Some(body) && c.beforeMulti == |EncodeAll(ds)|
  {
    hide After, Is, EncodeAll;
    if body == [] {
      AfterLast(ds, first);
      AfterOffset(ds);
      NotBoth(first);
      assert ds + [first] + body == ds + [first];
    } else {
      var k := |body| - 1;
      AfterOpen(ds, first, body[..k]);
      AfterLast(ds + [first] + body[..k], body[k]);
      assert ds + [first] + body == (ds + [first] + body[..k]) + [body[k]];
      assert body == body[..k] + [body[k]];
      assert body[k] in body;
    }
  }

  lemma AfterEntry(ds: seq<Argv>, e: Entry)
    requires After(ds).multi.None? && EntryOk(e)
    ensures After(ds + LoggedAs(e)).multi.None? && After(ds + LoggedAs(e)).ran == After(ds).ran + CommandsOf(e)
  {
    hide After, Is;
    match e
    case Command(argv) =>
      assert argv in [argv];
      AfterLast(ds, argv);
    case Transaction(first, body, last) =>
      AfterOpen(ds, first, body);
      AfterLast(ds + [first] + body, last);
      NotBoth(last);
      assert ds + LoggedAs(e) == (ds + [first] + body) + [last];
  }

  lemma {:induction false} AfterEntries(entries: seq<Entry>)
    requires forall e | e in entries :: EntryOk(e)
    ensures After(Logged(entries)).multi.None? && After(Logged(entries)).ran == Commands(entries)
  {
    hide After, EntryOk;
    if entries == [] {
      FreshAfter();
    } else {
      var k := |entries| - 1;
      AfterEntries(entries[..k]);
      AfterEntry(Logged(entries[..k]), entries[k]);
    }
  }

  // A log that stops inside a transaction: MULTI and some of the commands.
  function Unfinished(open: Option<(Argv, seq<Argv>)>): seq<Argv> {
    match open
    case None => []
    case Some((first, body)) => [first] + body
  }

  /** Every log, however it ends: after an entry, inside a transaction, or inside a command. The
      commands of the finished entries are run and no others. The file is cut behind the last entry if
      it ends between the commands of a transaction, behind the last command if it ends inside one; or
      it is refused in both cases, without the truncation option. */
  lemma LoadEntries(entries: seq<Entry>, open: Option<(Argv, seq<Argv>)>, tail: Bytes, truncated: bool)
    requires forall e | e in entries :: EntryOk(e)
    requires open.Some? ==> Is(open.value.0, "multi") && MultiFree(open.value.1)
    requires tail == [] || ParseCommand(tail) == Torn
    requires AllEncodable(Logged(entries) + Unfinished(open))
    ensures var done, log := EncodeAll(Logged(entries)), EncodeAll(Logged(entries) + Unfinished(open));
            Load(log + tail, 0, Fresh, truncated) ==
              if tail == [] && open.None? then Loaded(Commands(entries))
              else if !truncated then Refused
              else LoadedCut(Commands(entries), if tail == [] then |done| else |log|)
  {
    hide After, EncodeAll, Encodable, EntryOk, Is, Load, ParseCommand, Logged, Commands;
    var ds := Logged(entries);
    AfterEntries(entries);
    if open.Some? {
      AfterOpen(ds, open.value.0, open.value.1);
      assert ds + Unfinished(open) == ds + [open.value.0] + open.value.1;
    } else {
      assert ds + Unfinished(open) == ds;
    }
    if truncated {
      LoadTail(ds + Unfinished(open), tail);
    } else {
      StrictTail(ds + Unfinished(open), tail);
    }
  }
}
