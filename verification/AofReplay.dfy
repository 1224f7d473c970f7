/** SELECT bookkeeping: every logged command is replayed in the database it was fed for. */
module AofReplay {
  import opened Common
  import opened AofFormat
  import opened AofLoader

  datatype Fed = Fed(db: nat, argv: Argv)

  function Select(db: nat): Argv { ["SELECT", Decimal(db)] }

  // The commands logged for `f` when the log's last database is `selected`.
  function Items(selected: Option<nat>, f: Fed): seq<Argv> {
    if selected == Some(f.db) then [f.argv] else [Select(f.db), f.argv]
  }

  function FeedBytes(selected: Option<nat>, f: Fed): Bytes { EncodeAll(Items(selected, f)) }

  /** feedAppendOnlyFile: the bytes appended, and the database the log is in afterwards. */
  method FeedAppendOnlyFile(selected: Option<nat>, f: Fed) returns (buf: Bytes, selected': Option<nat>)
    ensures buf == FeedBytes(selected, f) && selected' == Some(f.db)
    ensures selected == Some(f.db) ==> buf == Encode(f.argv)
    ensures selected != Some(f.db) ==> buf == Encode(["SELECT", Decimal(f.db)]) + Encode(f.argv)
  {
    buf := [];
    if selected != Some(f.db) {
      var seldb := Decimal(f.db);
      buf := "*2\r\n$6\r\nSELECT\r\n$" + Decimal(|seldb|) + CRLF + seldb + CRLF;
      SelectBytes(f.db);
    }
    ghost var prefix := buf;
    buf := CatAppendOnlyGenericCommand(buf, f.argv);
    selected' := Some(f.db);
    hide Encode;
    EncodeOne(f.argv);
    if selected != Some(f.db) {
      EncodeOne(Select(f.db));
      EncodeAppend([Select(f.db)], [f.argv]);
      assert [Select(f.db)] + [f.argv] == Items(selected, f);
    }
  }

  lemma SelectBytes(db: nat)
    ensures Encode(Select(db))
         == "*2\r\n$6\r\nSELECT\r\n$" + Decimal(|Decimal(db)|) + CRLF + Decimal(db) + CRLF
  {
    var d := Decimal(db);
    SelectWord();
    TwoArgs("SELECT", d);
    var head, word := "*2\r\n", "$6\r\nSELECT\r\n";
    assert head + word + "$" == "*2\r\n$6\r\nSELECT\r\n$";
    Regroup(head, word, Decimal(|d|), d);
    hide Decimal, EncodeArgs, Encode;
  }

  lemma TwoArgs(a: string, b: string)
    ensures Encode([a, b]) == "*" + Decimal(2) + CRLF + (EncodeArg(a) + EncodeArg(b))
  {
    hide Decimal, EncodeArg;
    assert [a, b][1..] == [b];
    assert EncodeArgs([b]) == EncodeArg(b) + EncodeArgs([]);
  }

  lemma Regroup(head: Bytes, word: Bytes, len: Bytes, d: Bytes)
    ensures head + (word + ("$" + len + CRLF + d + CRLF)) == (head + word + "$") + len + CRLF + d + CRLF
  {}

  lemma SelectWord()
    ensures Decimal(2) == "2"
    ensures EncodeArg("SELECT") == "$6\r\nSELECT\r\n"
  {
    assert Decimal(6) == "6";
  }

  // What the commands of a log do: SELECT switches, anything else runs in the current database.
  function Replay(items: seq<Argv>, db: nat): seq<Fed>
    decreases items
  {
    if items == [] then []
    else if Is(items[0], "select") then
      Replay(items[1..], if |items[0]| == 2 && Atoi(items[0][1]) >= 0 then Atoi(items[0][1]) else db)
    else [Fed(db, items[0])] + Replay(items[1..], db)
  }

  function Database(items: seq<Argv>, db: nat): nat
    decreases items
  {
    if items == [] then db
    else if Is(items[0], "select") then
      Database(items[1..], if |items[0]| == 2 && Atoi(items[0][1]) >= 0 then Atoi(items[0][1]) else db)
    else Database(items[1..], db)
  }

  lemma {:induction false} ReplayAppend(a: seq<Argv>, b: seq<Argv>, db: nat)
    ensures Replay(a + b, db) == Replay(a, db) + Replay(b, Database(a, db))
    ensures Database(a + b, db) == Database(b, Database(a, db))
    decreases a
  {
    hide Is, Atoi;
    if a == [] {
      assert a + b == b;
    } else {
      assert (a + b)[1..] == a[1..] + b;
      var db' := if Is(a[0], "select") && |a[0]| == 2 && Atoi(a[0][1]) >= 0 then Atoi(a[0][1]) else db;
      ReplayAppend(a[1..], b, db');
    }
  }

  // Feeding one command to a log that is in database `db`.
  lemma ReplayItems(selected: Option<nat>, f: Fed, db: nat)
    requires !Is(f.argv, "select") && (selected.Some? ==> selected.value == db)
    ensures Replay(Items(selected, f), db) == [f]
    ensures Database(Items(selected, f), db) == f.db
  {
    assert LowerAll("SELECT") == "select";
    AtoiDecimal(f.db, []);
    assert Decimal(f.db) + [] == Decimal(f.db);
    assert Replay([f.argv], f.db) == [f] + Replay([], f.db);
    assert Database([f.argv], f.db) == Database([], f.db);
    if selected != Some(f.db) {
      assert Items(selected, f)[1..] == [f.argv];
      assert Replay(Items(selected, f), db) == Replay([f.argv], f.db);
      assert Database(Items(selected, f), db) == Database([f.argv], f.db);
    }
  }

  // Fed commands without the brackets of transactions.
  function PlainFed(fed: seq<Fed>): seq<Fed> {
    if fed == [] then [] else
      (if Is(fed[0].argv, "multi") || Is(fed[0].argv, "exec") then [] else [fed[0]]) + PlainFed(fed[1..])
  }

  lemma OneName(x: Argv)
    ensures Is(x, "select") ==> !Is(x, "multi") && !Is(x, "exec")
  {}

  // Leaving the brackets out changes neither the commands nor their databases.
  lemma {:induction false} ReplayPlain(items: seq<Argv>, db: nat)
    ensures Replay(Plain(items), db) == PlainFed(Replay(items, db))
    decreases items
  {
    hide Is, Atoi;
    if items != [] {
      var x, rest := items[0], items[1..];
      OneName(x);
      var db' := if Is(x, "select") && |x| == 2 && Atoi(x[1]) >= 0 then Atoi(x[1]) else db;
      ReplayPlain(rest, db');
      if !Is(x, "multi") && !Is(x, "exec") {
        assert Plain(items)[0] == x && Plain(items)[1..] == Plain(rest);
        if !Is(x, "select") {
          assert Replay(items, db)[0] == Fed(db, x) && Replay(items, db)[1..] == Replay(rest, db);
        }
      } else {
        assert Plain(items) == Plain(rest);
        assert Replay(items, db)[0] == Fed(db, x) && Replay(items, db)[1..] == Replay(rest, db);
        assert PlainFed(Replay(items, db)) == [] + PlainFed(Replay(rest, db));
      }
    }
  }

  // A stretch of the log: `before[i]` is the selected database when fed[i] was logged.
  function AllItems(before: seq<Option<nat>>, fed: seq<Fed>): seq<Argv>
    requires |before| == |fed|
  {
    if fed == [] then [] else
      AllItems(before[..|fed| - 1], fed[..|fed| - 1]) + Items(before[|fed| - 1], fed[|fed| - 1])
  }

  // Where the log is trusted to be in a database, it is; the first command does not trust it.
  ghost predicate Tracked(before: seq<Option<nat>>, fed: seq<Fed>) {
    && |before| == |fed|
    && (fed != [] ==> before[0].None?)
    && (forall i | 0 < i < |fed| :: before[i].Some? ==> before[i].value == fed[i - 1].db)
    && (forall f | f in fed :: !Is(f.argv, "select"))
  }

  /** Replaying a stretch runs each command in the database it was fed for, whatever database the
      reader was in before. */
  lemma {:induction false} ReplayAll(before: seq<Option<nat>>, fed: seq<Fed>, db: nat)
    requires Tracked(before, fed)
    ensures Replay(AllItems(before, fed), db) == fed
    ensures fed != [] ==> Database(AllItems(before, fed), db) == fed[|fed| - 1].db
  {
    hide Is, Items;
    if fed != [] {
      var k := |fed| - 1;
      var items := AllItems(before[..k], fed[..k]);
      ReplayAll(before[..k], fed[..k], db);
      ReplayAppend(items, Items(before[k], fed[k]), db);
      ReplayItems(before[k], fed[k], Database(items, db));
      assert fed == fed[..k] + [fed[k]];
    }
  }
}
