/** The slice-by-8 form of crcspeed.c, for both byte orders. */
module CrcSpeed {
  import opened Common
  import opened Words
  import opened Crc64

  function ByteAt(x: Word, k: nat): Byte
    requires k < 8
  {
    x[8 * k..8 * k + 8]
  }

  // Entry for byte `b` of table `k`: the checksum of `b` followed by `k` zero bytes.
  function Entry(p: Word, k: nat, b: Byte): Word { Iter(p, 8 * (k + 1), Extend(b)) }

  /** The table recurrence: one byte step is a lookup and a shift. */
  lemma TableStep(p: Word, x: Word)
    ensures Iter(p, 8, x) == Xor(Entry(p, 0, ByteAt(x, 0)), Shr(x, 8))
  {
    var low: Word, high: Word := Extend(ByteAt(x, 0)), Zero(8) + x[8..];
    EarlyInput(p, 8, low, high);
    assert Xor(low, high) == x;
    assert Shr(high, 8) == Shr(x, 8);
  }

  // The low `k` bytes of a word.
  function Part(x: Word, k: nat): Word
    requires k <= 8
  {
    x[..8 * k] + Zero(64 - 8 * k)
  }

  lemma PartStep(p: Word, x: Word, k: nat)
    requires k < 8
    ensures Iter(p, 64, Part(x, k + 1)) == Xor(Iter(p, 64, Part(x, k)), Entry(p, 7 - k, ByteAt(x, k)))
  {
    var only: Word := Zero(8 * k) + ByteAt(x, k) + Zero(56 - 8 * k);
    assert Xor(Part(x, k), only) == Part(x, k + 1);
    IterLinear(p, 64, Part(x, k), only);
    IterAdd(p, 8 * k, 64 - 8 * k, only);
    ShiftOut(p, 8 * k, only);
    assert Shr(only, 8 * k) == Extend(ByteAt(x, k));
  }

  // t[0] ^ t[1] ^ ..., from the left.
  function XorAll(t: seq<Word>): Word
    requires t != []
  {
    if |t| == 1 then t[0] else Xor(XorAll(t[..|t| - 1]), t[|t| - 1])
  }

  // The eight table entries selected by the bytes of `x`, lowest byte first.
  function Lookups(p: Word, x: Word): (t: seq<Word>)
    ensures |t| == 8
  {
    seq(8, k requires 0 <= k < 8 => Entry(p, 7 - k, ByteAt(x, k)))
  }

  lemma {:induction false} SlicePart(p: Word, x: Word, k: nat)
    requires 1 <= k <= 8
    ensures Iter(p, 64, Part(x, k)) == XorAll(Lookups(p, x)[..k])
  {
    var t := Lookups(p, x)[..k];
    if k == 1 {
      assert Part(x, 1) == Extend(ByteAt(x, 0));
    } else {
      SlicePart(p, x, k - 1);
      PartStep(p, x, k - 1);
      assert t[..k - 1] == Lookups(p, x)[..k - 1];
    }
  }

  /** Sixty-four register steps are the exclusive-or of eight lookups. */
  lemma SliceBy8(p: Word, x: Word)
    ensures Iter(p, 64, x) == XorAll(Lookups(p, x))
  {
    SlicePart(p, x, 8);
    assert Part(x, 8) == x;
    assert Lookups(p, x)[..8] == Lookups(p, x);
  }

  lemma {:induction false} XorAllFirst(a: Word, t: seq<Word>)
    requires t != []
    ensures XorAll([a] + t) == Xor(a, XorAll(t))
  {
    var n := |t| - 1;
    assert ([a] + t)[..n + 1] == [a] + t[..n];
    if n > 0 {
      XorAllFirst(a, t[..n]);
      XorAssoc(a, XorAll(t[..n]), t[n]);
    }
  }

  // Byte order.

  /** The word with its bytes in the opposite order. */
  function Rev8(x: Word): Word {
    seq(64, i requires 0 <= i < 64 => x[8 * (7 - i / 8) + i % 8])
  }

  lemma Rev8Bytes(x: Word, k: nat)
    requires k < 8
    ensures ByteAt(Rev8(x), k) == ByteAt(x, 7 - k)
  {
    forall i | 0 <= i < 8 ensures ByteAt(Rev8(x), k)[i] == ByteAt(x, 7 - k)[i] {
      assert (8 * k + i) / 8 == k && (8 * k + i) % 8 == i;
    }
  }

  lemma Rev8Involutive(x: Word)
    ensures Rev8(Rev8(x)) == x
  {
    forall i | 0 <= i < 64 ensures Rev8(Rev8(x))[i] == x[i] {
      var j := 8 * (7 - i / 8) + i % 8;
      assert j / 8 == 7 - i / 8 && j % 8 == i % 8;
    }
  }

  lemma Rev8Xor(x: Word, y: Word)
    ensures Rev8(Xor(x, y)) == Xor(Rev8(x), Rev8(y))
  {}

  lemma Rev8Shift(x: Word)
    ensures Shl(Rev8(x), 8) == Rev8(Shr(x, 8))
  {
    forall i | 0 <= i < 64 ensures Shl(Rev8(x), 8)[i] == Rev8(Shr(x, 8))[i] {
      assert i >= 8 ==> (i - 8) / 8 == i / 8 - 1 && (i - 8) % 8 == i % 8;
    }
  }

  lemma {:induction false} Rev8XorAll(t: seq<Word>, u: seq<Word>)
    requires |t| == |u| > 0
    requires forall k | 0 <= k < |u| :: u[k] == Rev8(t[|t| - 1 - k])
    ensures XorAll(u) == Rev8(XorAll(t))
  {
    var n := |t| - 1;
    if n > 0 {
      Rev8XorAll(t[..n], u[1..]);
      XorAllFirst(u[0], u[1..]);
      assert u == [u[0]] + u[1..];
      Rev8Xor(XorAll(t[..n]), t[n]);
      assert Xor(u[0], XorAll(u[1..])) == Xor(XorAll(u[1..]), u[0]);
    }
  }

  // Tables.

  ghost predicate Shape(t: array2<Word>) { t.Length0 == 8 && t.Length1 == 256 }

  ghost predicate LittleTable(p: Word, t: array2<Word>)
    reads t
  {
    Shape(t) && forall k, n | 0 <= k < 8 && 0 <= n < 256 :: t[k, n] == Entry(p, k, ByteOf(n))
  }

  ghost predicate BigTable(p: Word, t: array2<Word>)
    reads t
  {
    Shape(t) && forall k, n | 0 <= k < 8 && 0 <= n < 256 :: t[k, n] == Rev8(Entry(p, k, ByteOf(n)))
  }

  // A byte as a table index.
  function Index(b: Byte): (n: nat)
    ensures n < 256 && ByteOf(n) == b
  {
    BitsOfNatOf(b);
    assert Pow2(8) == 256;
    NatOf(b)
  }

  ghost predicate FirstTable(p: Word, t: array2<Word>, n: nat)
    requires Shape(t) && n <= 256
    reads t
  {
    forall m | 0 <= m < n :: t[0, m] == Entry(p, 0, ByteOf(m))
  }

  /** Fills the tables: table 0 from single-byte checksums, table k by k further zero bytes. */
  method LittleInit(p: Word, t: array2<Word>)
    requires Shape(t)
    modifies t
    ensures LittleTable(p, t)
  {
    for n := 0 to 256
      invariant FirstTable(p, t, n)
    {
      var c := BitwiseCrc(p, Zero(64), [ByteOf(n)]);
      FirstEntry(p, ByteOf(n));
      t[0, n] := c;
    }
    for n := 0 to 256
      invariant FirstTable(p, t, 256)
      invariant forall k, m | 0 <= k < 8 && 0 <= m < n :: t[k, m] == Entry(p, k, ByteOf(m))
    {
      FillColumn(p, t, n);
    }
  }

  // The inner loop: column `n` of tables 1 to 7.
  method FillColumn(ghost p: Word, t: array2<Word>, n: nat)
    requires Shape(t) && n < 256
    requires FirstTable(p, t, 256)
    modifies t
    ensures forall k | 0 <= k < 8 :: t[k, n] == Entry(p, k, ByteOf(n))
    ensures forall k, m | 0 <= k < 8 && 0 <= m < 256 && m != n :: t[k, m] == old(t[k, m])
    ensures FirstTable(p, t, 256)
  {
    hide Iter, BitsOf, Xor, Shr, NatOf;
    var crc := t[0, n];
    for k := 1 to 8
      invariant crc == Entry(p, k - 1, ByteOf(n))
      invariant FirstTable(p, t, 256)
      invariant forall j, m | 0 <= j < 8 && 0 <= m < 256 && m != n :: t[j, m] == old(t[j, m])
      invariant forall j | 0 <= j < k :: t[j, n] == Entry(p, j, ByteOf(n))
    {
      TableStep(p, crc);
      IterAdd(p, 8 * k, 8, Extend(ByteOf(n)));
      crc := Xor(t[0, Index(ByteAt(crc, 0))], Shr(crc, 8));
      t[k, n] := crc;
    }
  }

  lemma FirstEntry(p: Word, b: Byte)
    ensures Fold(p, Reverse(Zero(64)), [b]) == Entry(p, 0, b)
  {
    assert Xor(Reverse(Zero(64)), Extend(b)) == Extend(b);
    assert Fold(p, Reverse(Zero(64)), [b]) == Fold(p, Entry(p, 0, b), []);
  }

  method BigInit(p: Word, t: array2<Word>)
    requires Shape(t)
    modifies t
    ensures BigTable(p, t)
  {
    hide Iter, BitsOf, Rev8;
    LittleInit(p, t);
    for k := 0 to 8
      invariant forall j, m | 0 <= j < k && 0 <= m < 256 :: t[j, m] == Rev8(Entry(p, j, ByteOf(m)))
      invariant forall j, m | k <= j < 8 && 0 <= m < 256 :: t[j, m] == Entry(p, j, ByteOf(m))
    {
      for n := 0 to 256
        invariant forall j, m | 0 <= j < k && 0 <= m < 256 :: t[j, m] == Rev8(Entry(p, j, ByteOf(m)))
        invariant forall m | 0 <= m < n :: t[k, m] == Rev8(Entry(p, k, ByteOf(m)))
        invariant forall m | n <= m < 256 :: t[k, m] == Entry(p, k, ByteOf(m))
        invariant forall j, m | k < j < 8 && 0 <= m < 256 :: t[j, m] == Entry(p, j, ByteOf(m))
      {
        t[k, n] := Rev8(t[k, n]);
      }
    }
  }

  // Checksums. `address` is where the buffer starts; the fast loop runs on aligned words only.

  lemma ByteInput(c: Word, b: Byte)
    ensures ByteAt(Xor(c, Extend(b)), 0) == Xor(ByteAt(c, 0), b)
    ensures Shr(Xor(c, Extend(b)), 8) == Shr(c, 8)
  {}

  method LittleByte(ghost p: Word, t: array2<Word>, crc: Word, b: Byte) returns (r: Word)
    requires LittleTable(p, t)
    ensures r == Iter(p, 8, Xor(crc, Extend(b)))
  {
    var x: Word := Xor(crc, Extend(b));
    TableStep(p, x);
    ByteInput(crc, b);
    r := Xor(t[0, Index(ByteAt(x, 0))], Shr(crc, 8));
  }

  method LittleWord(ghost p: Word, t: array2<Word>, x: Word) returns (r: Word)
    requires LittleTable(p, t)
    ensures r == Iter(p, 64, x)
  {
    var u := [t[7, Index(ByteAt(x, 0))], t[6, Index(ByteAt(x, 1))],
              t[5, Index(ByteAt(x, 2))], t[4, Index(ByteAt(x, 3))],
              t[3, Index(ByteAt(x, 4))], t[2, Index(ByteAt(x, 5))],
              t[1, Index(ByteAt(x, 6))], t[0, Index(ByteAt(x, 7))]];
    r := XorAll(u);
    assert u == Lookups(p, x);
    SliceBy8(p, x);
  }

  lemma FoldStep(p: Word, r: Word, buf: seq<Byte>, next: nat)
    requires next < |buf|
    ensures Fold(p, r, buf[next..]) == Fold(p, Iter(p, 8, Xor(r, Extend(buf[next]))), buf[next + 1..])
  {
    assert buf[next..][1..] == buf[next + 1..];
  }

  lemma FoldWord(p: Word, r: Word, buf: seq<Byte>, next: nat)
    requires next + 8 <= |buf|
    ensures Fold(p, r, buf[next..])
         == Fold(p, Iter(p, 64, Xor(r, LoadWord(buf[next..next + 8]))), buf[next + 8..])
  {
    assert buf[next..] == buf[next..next + 8] + buf[next + 8..];
    FoldAppend(p, r, buf[next..next + 8], buf[next + 8..]);
    FoldWindow(p, r, buf[next..next + 8]);
  }

  /** The little-endian path computes the reference checksum at every length, alignment and
      initial value. */
  method Little(ghost p: Word, t: array2<Word>, crc: Word, buf: seq<Byte>, address: nat) returns (r: Word)
    requires LittleTable(p, t)
    ensures r == Fold(p, crc, buf)
  {
    r := crc;
    var next := 0;
    while next < |buf| && (address + next) % 8 != 0
      invariant next <= |buf| && Fold(p, r, buf[next..]) == Fold(p, crc, buf)
    {
      FoldStep(p, r, buf, next);
      r := LittleByte(p, t, r, buf[next]);
      next := next + 1;
    }
    while |buf| - next >= 8
      invariant next <= |buf| && Fold(p, r, buf[next..]) == Fold(p, crc, buf)
    {
      FoldWord(p, r, buf, next);
      r := LittleWord(p, t, Xor(r, LoadWord(buf[next..next + 8])));
      next := next + 8;
    }
    while next < |buf|
      invariant next <= |buf| && Fold(p, r, buf[next..]) == Fold(p, crc, buf)
    {
      FoldStep(p, r, buf, next);
      r := LittleByte(p, t, r, buf[next]);
      next := next + 1;
    }
  }

  method BigByte(ghost p: Word, t: array2<Word>, crc: Word, b: Byte) returns (r: Word)
    requires BigTable(p, t)
    ensures r == Rev8(Iter(p, 8, Xor(Rev8(crc), Extend(b))))
  {
    r := Xor(t[0, Index(Xor(ByteAt(crc, 7), b))], Shl(crc, 8));
    BigByteStep(p, crc, b);
  }

  // One byte of the big-endian path, entry and shifted register both byte-reversed.
  lemma BigByteStep(p: Word, crc: Word, b: Byte)
    ensures Xor(Rev8(Entry(p, 0, Xor(ByteAt(crc, 7), b))), Shl(crc, 8)) == Rev8(Iter(p, 8, Xor(Rev8(crc), Extend(b))))
  {
    hide Entry, Iter, Rev8, Xor, Shr, Shl, ByteAt, Extend;
    var c := Rev8(crc);
    var x: Word := Xor(c, Extend(b));
    Rev8Involutive(crc);
    Rev8Bytes(crc, 0);
    ByteInput(c, b);
    TableStep(p, x);
    Rev8Shift(c);
    Rev8Xor(Entry(p, 0, ByteAt(x, 0)), Shr(x, 8));
  }

  method BigWord(ghost p: Word, t: array2<Word>, x: Word) returns (r: Word)
    requires BigTable(p, t)
    ensures r == Rev8(Iter(p, 64, Rev8(x)))
  {
    var u := [t[0, Index(ByteAt(x, 0))], t[1, Index(ByteAt(x, 1))],
              t[2, Index(ByteAt(x, 2))], t[3, Index(ByteAt(x, 3))],
              t[4, Index(ByteAt(x, 4))], t[5, Index(ByteAt(x, 5))],
              t[6, Index(ByteAt(x, 6))], t[7, Index(ByteAt(x, 7))]];
    r := XorAll(u);
    ghost var y := Rev8(x);
    forall k | 0 <= k < 8 ensures u[k] == Rev8(Lookups(p, y)[7 - k]) {
      Rev8Bytes(x, 7 - k);
    }
    Rev8XorAll(Lookups(p, y), u);
    SliceBy8(p, y);
  }

  /** The big-endian path, on byte-reversed tables and big-endian loads, returns the same value. */
  method Big(ghost p: Word, t: array2<Word>, crc: Word, buf: seq<Byte>, address: nat) returns (r: Word)
    requires BigTable(p, t)
    ensures r == Fold(p, crc, buf)
  {
    r := Rev8(crc);
    Rev8Involutive(crc);
    var next := 0;
    while next < |buf| && (address + next) % 8 != 0
      invariant next <= |buf| && Fold(p, Rev8(r), buf[next..]) == Fold(p, crc, buf)
    {
      FoldStep(p, Rev8(r), buf, next);
      Rev8Involutive(Iter(p, 8, Xor(Rev8(r), Extend(buf[next]))));
      r := BigByte(p, t, r, buf[next]);
      next := next + 1;
    }
    while |buf| - next >= 8
      invariant next <= |buf| && Fold(p, Rev8(r), buf[next..]) == Fold(p, crc, buf)
    {
      FoldWord(p, Rev8(r), buf, next);
      ghost var word := LoadWord(buf[next..next + 8]);
      Rev8Xor(r, Rev8(word));
      Rev8Involutive(word);
      Rev8Involutive(Iter(p, 64, Xor(Rev8(r), word)));
      r := BigWord(p, t, Xor(r, Rev8(LoadWord(buf[next..next + 8]))));
      next := next + 8;
    }
    while next < |buf|
      invariant next <= |buf| && Fold(p, Rev8(r), buf[next..]) == Fold(p, crc, buf)
    {
      FoldStep(p, Rev8(r), buf, next);
      Rev8Involutive(Iter(p, 8, Xor(Rev8(r), Extend(buf[next]))));
      r := BigByte(p, t, r, buf[next]);
      next := next + 1;
    }
    r := Rev8(r);
  }

  // Endianness dispatch.

  ghost predicate NativeTable(p: Word, t: array2<Word>, bigEndian: bool)
    reads t
  {
    if bigEndian then BigTable(p, t) else LittleTable(p, t)
  }

  method NativeInit(p: Word, t: array2<Word>, bigEndian: bool)
    requires Shape(t)
    modifies t
    ensures NativeTable(p, t, bigEndian)
  {
    if bigEndian {
      BigInit(p, t);
    } else {
      LittleInit(p, t);
    }
  }

  method Native(ghost p: Word, t: array2<Word>, bigEndian: bool, crc: Word, buf: seq<Byte>, address: nat)
    returns (r: Word)
    requires NativeTable(p, t, bigEndian)
    ensures r == Fold(p, crc, buf)
  {
    if bigEndian {
      r := Big(p, t, crc, buf, address);
    } else {
      r := Little(p, t, crc, buf, address);
    }
  }

  // crc64.c: the polynomial, and the comparison its self test makes.

  function Poly(): Word { VectorBits(0xad93d23594c935a9, 64) }

  method Crc64Test(data: seq<Byte>, bigEndian: bool, address: nat) returns (calculated: Word, fast: Word)
    ensures calculated == fast == Fold(Poly(), Zero(64), data)
  {
    var t := new Word[8, 256];
    NativeInit(Poly(), t, bigEndian);
    calculated := BitwiseCrc(Poly(), Zero(64), data);
    assert Reverse(Zero(64)) == Zero(64);
    fast := Native(Poly(), t, bigEndian, Zero(64), data, address);
  }
}
