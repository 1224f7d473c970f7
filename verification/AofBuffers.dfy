/** The in-memory buffers of aof.c and the writes that empty them. */
module AofBuffers {
  import opened AofFormat

  const BLOCK_SIZE: nat := 10 * 1024 * 1024

  // What a write call may do: fail, be interrupted, or take some of the bytes offered.
  datatype WriteResult = Interrupted | Failed | Wrote(count: nat)

  function Min(a: nat, b: nat): nat { if a < b then a else b }

  function Concat(blocks: seq<Bytes>): Bytes {
    if blocks == [] then [] else blocks[0] + Concat(blocks[1..])
  }

  lemma {:induction false} ConcatAppend(a: seq<Bytes>, b: seq<Bytes>)
    ensures Concat(a + b) == Concat(a) + Concat(b)
  {
    if a == [] {
      assert a + b == b;
    } else {
      assert (a + b)[1..] == a[1..] + b;
      ConcatAppend(a[1..], b);
    }
  }

  // The last block grows.
  lemma ConcatLast(blocks: seq<Bytes>, s: Bytes)
    requires blocks != []
    ensures var k := |blocks| - 1; Concat(blocks[k := blocks[k] + s]) == Concat(blocks) + s
  {
    var k := |blocks| - 1;
    var x := blocks[k];
    ConcatAppend(blocks[..k], [x]);
    ConcatAppend(blocks[..k], [x + s]);
    assert blocks == blocks[..k] + [x];
    assert blocks[k := x + s] == blocks[..k] + [x + s];
    assert Concat([x]) == x + [] && Concat([x + s]) == (x + s) + [];
  }

  lemma ConcatNew(blocks: seq<Bytes>)
    ensures Concat(blocks + [[]]) == Concat(blocks)
  {
    ConcatAppend(blocks, [[]]);
    assert Concat([[]]) == [];
  }

  lemma ConcatNone()
    ensures Concat([]) == []
  {}

  lemma ConcatDrop(blocks: seq<Bytes>)
    requires blocks != [] && blocks[0] == []
    ensures Concat(blocks[1..]) == Concat(blocks)
  {
    assert Concat(blocks) == [] + Concat(blocks[1..]);
  }

  lemma SplitTail(a: Bytes, s: Bytes, n: nat)
    requires n <= |s|
    ensures a + s == (a + s[..n]) + s[n..]
  {}

  // The first block shrinks.
  lemma ConcatFirst(blocks: seq<Bytes>, n: nat)
    requires blocks != [] && n <= |blocks[0]|
    ensures blocks[0][..n] + Concat(blocks[0 := blocks[0][n..]]) == Concat(blocks)
  {
    assert blocks[0 := blocks[0][n..]][1..] == blocks[1..];
    assert blocks[0] == blocks[0][..n] + blocks[0][n..];
  }

  // Every write takes something.
  ghost predicate Willing(writes: seq<WriteResult>) { forall w | w in writes :: w.Wrote? && w.count > 0 }

  // Every block that holds something is written by one call.
  predicate AllWhole(blocks: seq<Bytes>, writes: seq<WriteResult>)
    decreases blocks
  {
    if blocks == [] then true
    else if blocks[0] == [] then AllWhole(blocks[1..], writes)
    else writes != [] && writes[0].Wrote? && writes[0].count >= |blocks[0]| && AllWhole(blocks[1..], writes[1..])
  }

  // How many of `left` bytes the calls write before one fails.
  function Written(writes: seq<WriteResult>, left: nat): (n: nat)
    ensures n <= left
    decreases writes
  {
    if left == 0 || writes == [] || writes[0].Failed? then 0
    else if writes[0].Interrupted? then Written(writes[1..], left)
    else
      var n := Min(writes[0].count, left);
      n + Written(writes[1..], left - n)
  }

  function Total(writes: seq<WriteResult>): nat {
    if writes == [] then 0 else (if writes[0].Wrote? then writes[0].count else 0) + Total(writes[1..])
  }

  /** Interrupted calls are repeated and short ones continued: what is written is what the calls
      before the first failure take, as far as there is something to write. */
  lemma {:induction false} WrittenIs(writes: seq<WriteResult>, left: nat, k: nat)
    requires k <= |writes| && (k == |writes| || writes[k].Failed?)
    requires forall i | 0 <= i < k :: !writes[i].Failed?
    ensures Written(writes, left) == Min(Total(writes[..k]), left)
    decreases k
  {
    if k > 0 {
      assert writes[..k][1..] == writes[1..][..k - 1];
      if left > 0 {
        var n := if writes[0].Wrote? then Min(writes[0].count, left) else 0;
        WrittenIs(writes[1..], left - n, k - 1);
      }
    }
  }

  function Filled(blocks: seq<Bytes>): seq<Bytes> {
    if blocks == [] then [] else (if blocks[0] == [] then [] else [blocks[0]]) + Filled(blocks[1..])
  }

  /** One call for each block that holds something, and none of them short. */
  lemma {:induction false} AllWholeIff(blocks: seq<Bytes>, writes: seq<WriteResult>)
    ensures AllWhole(blocks, writes) <==>
            && |Filled(blocks)| <= |writes|
            && forall i | 0 <= i < |Filled(blocks)| :: writes[i].Wrote? && writes[i].count >= |Filled(blocks)[i]|
    decreases blocks
  {
    if blocks != [] {
      var rest := Filled(blocks[1..]);
      if blocks[0] == [] {
        AllWholeIff(blocks[1..], writes);
        assert Filled(blocks) == rest;
      } else if writes != [] {
        AllWholeIff(blocks[1..], writes[1..]);
        assert Filled(blocks) == [blocks[0]] + rest;
        assert forall i | 0 <= i < |rest| :: Filled(blocks)[i + 1] == rest[i];
        assert forall i | 0 < i < |Filled(blocks)| :: Filled(blocks)[i] == rest[i - 1];
        if |rest| < |writes| {
          assert forall i | 0 <= i < |rest| :: writes[1..][i] == writes[i + 1];
        }
      }
    }
  }

  /** The differences a rewrite child has not received yet, in blocks of bounded size. */
  class RewriteBuffer {
    var blocks: seq<Bytes>

    ghost predicate Valid()
      reads this
    {
      forall b | b in blocks :: |b| <= BLOCK_SIZE
    }

    ghost function Contents(): Bytes
      reads this
    {
      Concat(blocks)
    }

    constructor ()
      ensures Valid() && Contents() == []
    {
      blocks := [];
    }

    method Append(s: Bytes)
      requires Valid()
      modifies this
      ensures Valid() && Contents() == old(Contents()) + s
    {
      hide Concat;
      var rest := s;
      while rest != []
        invariant Valid() && Contents() + rest == old(Contents()) + s
        decreases |rest|, if blocks == [] || |blocks[|blocks| - 1]| == BLOCK_SIZE then 1 else 0
      {
        if blocks != [] {
          var last := |blocks| - 1;
          var n := Min(BLOCK_SIZE - |blocks[last]|, |rest|);
          if n > 0 {
            ConcatLast(blocks, rest[..n]);
            SplitTail(Contents(), rest, n);
            blocks := blocks[last := blocks[last] + rest[..n]];
            rest := rest[n..];
          }
        }
        if rest != [] {
          ConcatNew(blocks);
          blocks := blocks + [[]];
        }
      }
    }

    /** Sends blocks down the pipe until it is full or the child asked to stop: nothing is lost,
        repeated or reordered, and nothing is sent after the stop. */
    method ChildWriteDiffData(stop: bool, writes: seq<WriteResult>) returns (sent: Bytes)
      requires Valid()
      modifies this
      ensures Valid() && sent + Contents() == old(Contents())
      ensures stop ==> sent == []
      ensures !stop && Willing(writes) && |writes| >= |old(Contents())| ==> Contents() == []
    {
      hide Concat;
      sent := [];
      var i := 0;
      while true
        invariant Valid() && sent + Contents() == old(Contents()) && i <= |writes|
        invariant stop ==> sent == []
        invariant Willing(writes) ==> i <= |sent|
        decreases |writes| - i, |blocks|
      {
        if stop || blocks == [] {
          ConcatNone();
          return;
        }
        var block := blocks[0];
        if block != [] {
          if i == |writes| || !writes[i].Wrote? || writes[i].count == 0 {
            return;
          }
          var n := Min(writes[i].count, |block|);
          ConcatFirst(blocks, n);
          blocks := blocks[0 := block[n..]];
          assert sent + (block[..n] + Contents()) == (sent + block[..n]) + Contents();
          assert |block[..n]| > 0;
          sent := sent + block[..n];
          i := i + 1;
        }
        if blocks[0] == [] {
          ConcatDrop(blocks);
          blocks := blocks[1..];
        }
      }
    }

    /** Writes everything to the rewritten file; a short or failed write reports an error. */
    method Write(writes: seq<WriteResult>) returns (ok: bool, written: Bytes)
      ensures written <= Contents() && (ok ==> written == Contents())
      ensures ok <==> AllWhole(blocks, writes)
    {
      written := [];
      var i := 0;
      for k := 0 to |blocks|
        invariant written + Concat(blocks[k..]) == Contents() && i <= |writes|
        invariant AllWhole(blocks, writes) == AllWhole(blocks[k..], writes[i..])
      {
        assert blocks[k..][1..] == blocks[k + 1..];
        if blocks[k] != [] {
          if i == |writes| || !writes[i].Wrote? || writes[i].count < |blocks[k]| {
            ok := false;
            return;
          }
          ghost var before := written;
          written := written + blocks[k];
          assert written + Concat(blocks[k + 1..]) == before + Concat(blocks[k..]);
          i := i + 1;
        }
      }
      ok := true;
      assert blocks[|blocks|..] == [];
    }
  }

  datatype Policy = Always | EverySec | No

  /** The append only file and the bytes waiting for it. */
  class AofFile {
    var file: Bytes
    var buf: Bytes
    var currentSize: nat
    var policy: Policy
    ghost var fed: Bytes  // every byte ever handed over

    ghost predicate Valid()
      reads this
    {
      file + buf == fed && currentSize == |file|
    }

    constructor (initial: Bytes, p: Policy)
      ensures Valid() && fed == initial && file == initial
    {
      file, buf, currentSize, policy, fed := initial, [], |initial|, p, initial;
    }

    method Feed(s: Bytes)
      requires Valid()
      modifies this
      ensures Valid() && fed == old(fed) + s && file == old(file) && buf == old(buf) + s && policy == old(policy)
    {
      assert (file + buf) + s == file + (buf + s);
      buf := buf + s;
      fed := fed + s;
    }

    // Retries until everything is written or a write fails.
    method AofWrite(writes: seq<WriteResult>) returns (nwritten: int)
      requires buf != []
      modifies this`file
      ensures nwritten == if Written(writes, |buf|) == 0 then -1 else Written(writes, |buf|)
      ensures file == old(file) + buf[..Written(writes, |buf|)]
    {
      var done, i := 0, 0;
      while done < |buf|
        invariant 0 <= done <= |buf| && i <= |writes| && file == old(file) + buf[..done]
        invariant Written(writes, |buf|) == done + Written(writes[i..], |buf| - done)
        decreases |writes| - i
      {
        if i < |writes| { assert writes[i..][1..] == writes[i + 1..]; }
        if i == |writes| || writes[i].Failed? {
          nwritten := if done > 0 then done else -1;
          return;
        }
        if writes[i].Wrote? {
          var n := Min(writes[i].count, |buf| - done);
          file := file + buf[done..done + n];
          assert buf[..done] + buf[done..done + n] == buf[..done + n];
          done := done + n;
        }
        i := i + 1;
      }
      nwritten := done;
    }

    /** Whatever the write and truncate calls do, no fed byte is lost, repeated or reordered and the
        recorded size is the file's length; only under policy Always does an error end the server. */
    method Flush(writes: seq<WriteResult>, truncateWorks: bool) returns (exit: bool)
      requires Valid()
      modifies this
      ensures fed == old(fed) && policy == old(policy)
      ensures !exit ==> Valid()
      ensures exit ==> policy == Always
      ensures !exit && policy == Always ==> buf == []
      ensures old(buf) == [] ==> !exit && file == old(file)
      ensures old(buf) != [] && Written(writes, |old(buf)|) == |old(buf)| ==> !exit && file == old(file) + old(buf)
      ensures old(buf) != [] && Written(writes, |old(buf)|) < |old(buf)| ==>
                && exit == (policy == Always)
                && file == old(file) + (if truncateWorks then [] else old(buf)[..Written(writes, |old(buf)|)])
    {
      exit := false;
      if buf == [] {
        return;
      }
      var nwritten := AofWrite(writes);
      if nwritten != |buf| {
        if nwritten != -1 && truncateWorks {
          file := file[..currentSize];
          nwritten := -1;
        }
        if policy == Always {
          return true;
        }
        if nwritten > 0 {
          currentSize := currentSize + nwritten;
          assert buf == buf[..nwritten] + buf[nwritten..];
          buf := buf[nwritten..];
        }
        return;
      }
      currentSize := currentSize + nwritten;
      buf := [];
    }
  }
}
