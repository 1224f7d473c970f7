/**
 * redisBitpos and the computation of BITOP: both take whole words where they can and fall back to
 * bytes and bits, and both treat a string as followed by zeros. (src/bitops.c)
 */
module BitScan {
  import opened Common
  import opened Words
  import opened BitField

  // ---- BITPOS -----------------------------------------------------------------------------------

  // The byte without the bit looked for: 0 for a one, UCHAR_MAX for a zero.
  function SkipByte(bit: bool): Byte { seq(8, _ => !bit) }

  ghost predicate Skipped(s: seq<Byte>, n: nat, bit: bool) {
    n <= |s| && forall k | 0 <= k < n :: s[k] == SkipByte(bit)
  }

  // Where scanning stops there is a byte with the bit, or the string ends.
  ghost predicate Stopped(s: seq<Byte>, i: nat, bit: bool) {
    Skipped(s, i, bit) && (i + 8 <= |s| ==> exists k | i <= k < i + 8 :: s[k] != SkipByte(bit))
  }

  lemma SkippedHasNone(s: seq<Byte>, n: nat, bit: bool)
    requires Skipped(s, n, bit)
    ensures forall k: nat | k < 8 * n :: (k in Tape(s)) != bit
  {
    forall k: nat | k < 8 * n ensures (k in Tape(s)) != bit {
      assert s[k / 8] == SkipByte(bit);
    }
  }

  // Word b bits from the bottom is position 63 - b of the tape from byte i on.
  ghost predicate Loaded(s: seq<Byte>, i: nat, word: Word) {
    forall b | 0 <= b < 64 :: word[b] == (8 * i + 63 - b in Tape(s))
  }

  // The eight bytes from position i on, the first one on top, zeros where there are none.
  method LoadBigEndian(s: seq<Byte>, i: nat) returns (word: Word)
    ensures Loaded(s, i, word)
  {
    word := Zero(64);
    for j := 0 to 8
      invariant forall b | 0 <= b < 64 :: word[b] == (b < 8 * j && (8 * i + (8 * j - 1 - b)) in Tape(s))
    {
      ghost var was := word;
      word := Shl(word, 8);
      if i + j < |s| {
        var byte := Extend(s[i + j]);
        var shifted := word;
        word := seq(64, b requires 0 <= b < 64 => shifted[b] || byte[b]);
      }
      forall b | 0 <= b < 64
        ensures word[b] == (b < 8 * (j + 1) && (8 * i + (8 * (j + 1) - 1 - b)) in Tape(s))
      {
        if b < 8 {
          assert (8 * i + (8 * (j + 1) - 1 - b)) / 8 == i + j && (8 * i + (8 * (j + 1) - 1 - b)) % 8 == 7 - b;
        } else {
          assert word[b] == was[b - 8];
        }
      }
    }
  }

  /** The first position of the bit in the tape of s, whose bytes start at the given address; -1 for
      a one when there is none. */
  method RedisBitpos(s: seq<Byte>, address: nat, bit: bool) returns (pos: int)
    ensures pos == -1 ==> bit && Tape(s) == iset{}
    ensures pos != -1 ==> 0 <= pos <= 8 * |s| && (pos in Tape(s)) == bit
    ensures pos != -1 ==> forall k: nat | k < pos :: (k in Tape(s)) != bit
  {
    hide Tape, SkipByte;
    var i, found := SkipBytes(s, address, bit);
    if !found { i := SkipWords(s, i, bit); }
    SkippedHasNone(s, i, bit);
    var word := LoadBigEndian(s, i);
    if bit && word == Zero(64) {
      NothingLeft(s, i, word);
      return -1;
    }
    SomethingLeft(s, i, bit, word);
    pos := 8 * i;
    var one := 63;
    while one >= 0
      invariant -1 <= one <= 63 && pos == 8 * i + 63 - one
      invariant forall b | one < b < 64 :: word[b] != bit
      invariant forall k: nat | k < pos :: (k in Tape(s)) != bit
    {
      if word[one] == bit {
        Within(s, bit, pos);
        return;
      }
      pos := pos + 1;
      one := one - 1;
    }
    assert false;
  }

  method SkipBytes(s: seq<Byte>, address: nat, bit: bool) returns (i: nat, found: bool)
    ensures Skipped(s, i, bit) && (found ==> i < |s| && s[i] != SkipByte(bit))
  {
    i, found := 0, false;
    while (address + i) % 8 != 0 && i < |s|
      invariant Skipped(s, i, bit)
      decreases |s| - i
    {
      if s[i] != SkipByte(bit) { return i, true; }
      i := i + 1;
    }
  }

  method SkipWords(s: seq<Byte>, start: nat, bit: bool) returns (i: nat)
    requires Skipped(s, start, bit)
    ensures Stopped(s, i, bit)
  {
    i := start;
    while i + 8 <= |s|
      invariant Skipped(s, i, bit)
    {
      var word := s[i..i + 8];
      if word != seq(8, _ => SkipByte(bit)) {
        var k :| 0 <= k < 8 && word[k] != SkipByte(bit);
        assert s[i + k] != SkipByte(bit);
        return;
      }
      forall k | i <= k < i + 8 ensures s[k] == SkipByte(bit) { assert word[k - i] == SkipByte(bit); }
      i := i + 8;
    }
  }

  // A byte that is not skipped holds the bit.
  lemma ByteHolds(s: seq<Byte>, k: nat, bit: bool) returns (m: nat)
    requires k < |s| && s[k] != SkipByte(bit)
    ensures 8 * k <= m < 8 * k + 8 && (m in Tape(s)) == bit
  {
    var b :| 0 <= b < 8 && s[k][b] == bit;
    m := 8 * k + 7 - b;
    assert m / 8 == k && m % 8 == 7 - b;
  }

  lemma Beyond(s: seq<Byte>, k: nat)
    requires k >= 8 * |s|
    ensures k !in Tape(s)
  {}

  lemma LoadedAt(s: seq<Byte>, i: nat, word: Word, m: nat)
    requires Loaded(s, i, word) && 8 * i <= m < 8 * i + 64
    ensures word[63 - (m - 8 * i)] == (m in Tape(s))
  {}

  lemma AtTheEnd(s: seq<Byte>, i: nat, word: Word)
    requires Stopped(s, i, true) && word == Zero(64) && Loaded(s, i, word)
    ensures |s| < i + 8
  {
    hide Tape, SkipByte;
    if i + 8 <= |s| {
      var j :| i <= j < i + 8 && s[j] != SkipByte(true);
      var m := ByteHolds(s, j, true);
      LoadedAt(s, i, word, m);
    }
  }

  lemma NothingLeft(s: seq<Byte>, i: nat, word: Word)
    requires Stopped(s, i, true) && word == Zero(64)
    requires Loaded(s, i, word)
    ensures Tape(s) == iset{}
  {
    hide Tape, SkipByte;
    SkippedHasNone(s, i, true);
    AtTheEnd(s, i, word);
    forall k: nat ensures k !in Tape(s) {
      if k >= 8 * |s| {
        Beyond(s, k);
      } else if k >= 8 * i {
        assert !word[63 - (k - 8 * i)];
      }
    }
  }

  lemma SomethingLeft(s: seq<Byte>, i: nat, bit: bool, word: Word)
    requires Stopped(s, i, bit) && (bit ==> word != Zero(64))
    requires Loaded(s, i, word)
    ensures exists b | 0 <= b < 64 :: word[b] == bit
  {
    hide Tape, SkipByte;
    if bit {
      var b :| 0 <= b < 64 && word[b] != Zero(64)[b];
    } else if i + 8 <= |s| {
      var k :| i <= k < i + 8 && s[k] != SkipByte(bit);
      var m := ByteHolds(s, k, bit);
      assert word[63 - (m - 8 * i)] == bit;
    } else {
      Beyond(s, 8 * i + 63);
      assert word[0] == bit;
    }
  }

  lemma Within(s: seq<Byte>, bit: bool, pos: nat)
    requires (pos in Tape(s)) == bit
    requires forall k: nat | k < pos :: (k in Tape(s)) != bit
    ensures pos <= 8 * |s|
  {
    hide Tape;
    Beyond(s, 8 * |s|);
    if pos > 8 * |s| { Beyond(s, pos); }
  }

  // ---- BITOP ------------------------------------------------------------------------------------

  datatype BitOp = BitAnd | BitOr | BitXor | BitNot

  // A missing key counts as an empty string, a short string as followed by zeros.
  function Length(key: Option<seq<Byte>>): nat { if key.Some? then |key.value| else 0 }

  function ByteOfKey(key: Option<seq<Byte>>, j: nat): Byte {
    if key.Some? && j < |key.value| then key.value[j] else Zero(8)
  }

  function Combine(op: BitOp, x: Byte, y: Byte): Byte
  {
    match op
    case BitAnd => seq(8, b requires 0 <= b < 8 => x[b] && y[b])
    case BitOr => seq(8, b requires 0 <= b < 8 => x[b] || y[b])
    case BitXor => seq(8, b requires 0 <= b < 8 => x[b] != y[b])
    case BitNot => x
  }

  function Complement(x: Byte): Byte { seq(8, b requires 0 <= b < 8 => !x[b]) }

  // Byte j of the first n keys.
  function Folded(op: BitOp, keys: seq<Option<seq<Byte>>>, n: nat, j: nat): Byte
    requires 1 <= n <= |keys|
  {
    if n == 1 then
      if op == BitNot then Complement(ByteOfKey(keys[0], j)) else ByteOfKey(keys[0], j)
    else
      Combine(op, Folded(op, keys, n - 1, j), ByteOfKey(keys[n - 1], j))
  }

  function CountSet(keys: seq<Option<seq<Byte>>>, n: nat, j: nat, b: nat): nat
    requires n <= |keys| && b < 8
  {
    if n == 0 then 0 else CountSet(keys, n - 1, j, b) + if ByteOfKey(keys[n - 1], j)[b] then 1 else 0
  }

  /** What a bit of the result says about that bit in the sources. */
  ghost predicate BitMeans(op: BitOp, keys: seq<Option<seq<Byte>>>, n: nat, j: nat, b: nat, r: bool)
    requires 1 <= n <= |keys| && b < 8
  {
    match op
    case BitAnd => r <==> forall i | 0 <= i < n :: ByteOfKey(keys[i], j)[b]
    case BitOr => r <==> exists i | 0 <= i < n :: ByteOfKey(keys[i], j)[b]
    case BitXor => r <==> CountSet(keys, n, j, b) % 2 == 1
    case BitNot => r <==> !ByteOfKey(keys[0], j)[b]
  }

  lemma {:induction false} FoldedMeans(op: BitOp, keys: seq<Option<seq<Byte>>>, n: nat, j: nat, b: nat)
    requires 1 <= n <= |keys| && b < 8
    ensures BitMeans(op, keys, n, j, b, Folded(op, keys, n, j)[b])
  {
    hide ByteOfKey;
    if n == 1 {
      assert CountSet(keys, 1, j, b) == if ByteOfKey(keys[0], j)[b] then 1 else 0;
    } else {
      FoldedMeans(op, keys, n - 1, j, b);
    }
  }

  lemma {:induction false} FoldedStays(op: BitOp, keys: seq<Option<seq<Byte>>>, m: nat, n: nat, j: nat)
    requires 1 <= m <= n <= |keys|
    requires (op == BitAnd && Folded(op, keys, m, j) == Zero(8)) ||
             (op == BitOr && Folded(op, keys, m, j) == SkipByte(false))
    ensures Folded(op, keys, n, j) == Folded(op, keys, m, j)
  {
    if m < n {
      FoldedStays(op, keys, m, n - 1, j);
      assert Combine(op, Folded(op, keys, m, j), ByteOfKey(keys[n - 1], j)) == Folded(op, keys, m, j);
    }
  }

  // One byte of the result, leaving early once it cannot change any more.
  method CombineByte(op: BitOp, keys: seq<Option<seq<Byte>>>, j: nat) returns (output: Byte)
    requires keys != [] && (op == BitNot ==> |keys| == 1)
    ensures output == Folded(op, keys, |keys|, j)
  {
    hide ByteOfKey, Combine;
    output := ByteOfKey(keys[0], j);
    if op == BitNot { output := Complement(output); }
    for i := 1 to |keys|
      invariant output == Folded(op, keys, i, j)
    {
      output := Combine(op, output, ByteOfKey(keys[i], j));
      var skip := (op == BitAnd && output == Zero(8)) || (op == BitOr && output == SkipByte(false));
      if skip {
        FoldedStays(op, keys, i + 1, |keys|, j);
        return;
      }
    }
  }

  method Lengths(keys: seq<Option<seq<Byte>>>) returns (minlen: nat, maxlen: nat)
    requires keys != []
    ensures forall i | 0 <= i < |keys| :: minlen <= Length(keys[i]) <= maxlen
    ensures exists i | 0 <= i < |keys| :: maxlen == Length(keys[i])
  {
    minlen, maxlen := 0, 0;
    for j := 0 to |keys|
      invariant forall i | 0 <= i < j :: minlen <= Length(keys[i]) <= maxlen
      invariant if j == 0 then maxlen == 0 else exists i | 0 <= i < j :: maxlen == Length(keys[i])
    {
      if keys[j].None? {
        minlen := 0;
      } else {
        var len := |keys[j].value|;
        if len > maxlen { maxlen := len; }
        if j == 0 || len < minlen { minlen := len; }
      }
      assert j > 0 || maxlen == Length(keys[0]);
    }
  }

  // res holds the combination of the first n keys in [from, to).
  ghost predicate Done(op: BitOp, keys: seq<Option<seq<Byte>>>, n: nat, res: seq<Byte>, from: nat, to: nat)
    requires 1 <= n <= |keys|
  {
    to <= |res| && forall k | from <= k < to :: res[k] == Folded(op, keys, n, k)
  }

  // Four words of eight bytes at position j, combined with key i.
  method CombineWords(op: BitOp, res: array<Byte>, src: seq<Byte>, j: nat)
    requires j + 32 <= res.Length && j + 32 <= |src|
    modifies res
    ensures forall k | 0 <= k < res.Length ::
      res[k] == if j <= k < j + 32 then Combine(op, old(res[k]), src[k]) else old(res[k])
  {
    for w := 0 to 4
      invariant forall k | 0 <= k < res.Length ::
        res[k] == if j <= k < j + 8 * w then Combine(op, old(res[k]), src[k]) else old(res[k])
    {
      forall b | j + 8 * w <= b < j + 8 * w + 8 { res[b] := Combine(op, res[b], src[b]); }
    }
  }

  method NegateWords(res: array<Byte>, j: nat)
    requires j + 32 <= res.Length
    modifies res
    ensures forall k | 0 <= k < res.Length :: res[k] == if j <= k < j + 32 then Complement(old(res[k])) else old(res[k])
  {
    for w := 0 to 4
      invariant forall k | 0 <= k < res.Length ::
        res[k] == if j <= k < j + 8 * w then Complement(old(res[k])) else old(res[k])
    {
      forall b | j + 8 * w <= b < j + 8 * w + 8 { res[b] := Complement(res[b]); }
    }
  }

  // One round of the fast path: 32 bytes of every key.
  method FastBlock(op: BitOp, keys: seq<Option<seq<Byte>>>, res: array<Byte>, j: nat)
    requires keys != [] && (op == BitNot ==> |keys| == 1)
    requires forall i | 0 <= i < |keys| :: keys[i].Some? && j + 32 <= |keys[i].value|
    requires j + 32 <= res.Length
    requires forall k | j <= k < j + 32 :: res[k] == keys[0].value[k]
    modifies res
    ensures Done(op, keys, |keys|, res[..], j, j + 32)
    ensures forall k | 0 <= k < res.Length && !(j <= k < j + 32) :: res[k] == old(res[k])
  {
    if op == BitNot {
      NegateWords(res, j);
    } else {
      for i := 1 to |keys|
        invariant Done(op, keys, i, res[..], j, j + 32)
        invariant forall k | 0 <= k < res.Length && !(j <= k < j + 32) :: res[k] == old(res[k])
      {
        CombineWords(op, res, keys[i].value, j);
      }
    }
  }

  /** The result of BITOP: as long as the longest source, nothing when all are empty. */
  method Bitop(op: BitOp, keys: seq<Option<seq<Byte>>>) returns (res: array<Byte>)
    requires keys != [] && (op == BitNot ==> |keys| == 1)
    ensures forall i | 0 <= i < |keys| :: Length(keys[i]) <= res.Length
    ensures exists i | 0 <= i < |keys| :: res.Length == Length(keys[i])
    ensures forall j, b: nat | 0 <= j < res.Length && b < 8 :: BitMeans(op, keys, |keys|, j, b, res[j][b])
  {
    hide BitMeans, Folded, Combine;
    var minlen, maxlen := Lengths(keys);
    var zero: Byte := Zero(8);
    res := new Byte[maxlen](_ => zero);
    var j := 0;
    if minlen >= 32 && |keys| <= 16 {
      j := FastPath(op, keys, res, minlen);
    }
    while j < maxlen
      invariant j <= maxlen && Done(op, keys, |keys|, res[..], 0, j)
    {
      res[j] := CombineByte(op, keys, j);
      j := j + 1;
    }
    forall k, b: nat | 0 <= k < res.Length && b < 8 ensures BitMeans(op, keys, |keys|, k, b, res[k][b]) {
      FoldedMeans(op, keys, |keys|, k, b);
      assert res[..][k] == Folded(op, keys, |keys|, k);
    }
  }

  method FastPath(op: BitOp, keys: seq<Option<seq<Byte>>>, res: array<Byte>, minlen: nat) returns (j: nat)
    requires keys != [] && (op == BitNot ==> |keys| == 1)
    requires 32 <= minlen <= res.Length && forall i | 0 <= i < |keys| :: minlen <= Length(keys[i])
    modifies res
    ensures j <= minlen && Done(op, keys, |keys|, res[..], 0, j)
  {
    hide Folded;
    forall k | 0 <= k < minlen { res[k] := keys[0].value[k]; }
    j := 0;
    while minlen - j >= 32
      invariant j <= minlen && Done(op, keys, |keys|, res[..], 0, j)
      invariant forall k | j <= k < minlen :: res[k] == keys[0].value[k]
    {
      FastBlock(op, keys, res, j);
      j := j + 32;
    }
  }
}
