/** The bit-serial checksum of crc64.c and its GF(2) theory.

    Everything is stated for an arbitrary 64-bit polynomial `p`; crc64.c fixes it to POLY. */
module Crc64 {
  import opened Words

  // Definitions: the register of crc64.c shifts towards its most significant bit.

  function MsbStep(p: Word, c: Word, bit: bool): Word {
    if c[63] != bit then Xor(Shl(c, 1), p) else Shl(c, 1)
  }

  // The first `i` bits of `b`, least significant bit first.
  function MsbByte(p: Word, c: Word, b: Byte, i: nat): Word
    requires i <= 8
  {
    if i == 0 then c else MsbStep(p, MsbByte(p, c, b, i - 1), b[i - 1])
  }

  // The mirrored register shifts towards its least significant bit.
  function Step(p: Word, x: Word): Word {
    if x[0] then Xor(Shr(x, 1), Reverse(p)) else Shr(x, 1)
  }

  function Iter(p: Word, n: nat, x: Word): Word {
    if n == 0 then x else Step(p, Iter(p, n - 1, x))
  }

  // The checksum of `data` from register `r`: the reference every other form is proved against.
  function Fold(p: Word, r: Word, data: seq<Byte>): Word
    decreases data
  {
    if data == [] then r else Fold(p, Iter(p, 8, Xor(r, Extend(data[0]))), data[1..])
  }

  // Linearity and injectivity of the register.

  lemma StepLinear(p: Word, x: Word, y: Word)
    ensures Step(p, Xor(x, y)) == Xor(Step(p, x), Step(p, y))
  {}

  lemma StepInjective(p: Word, x: Word, y: Word)
    requires p[0]
    requires Step(p, x) == Step(p, y)
    ensures x == y
  {
    var q: Word := Reverse(p);
    assert Step(p, x)[63] == x[0] && Step(p, y)[63] == y[0];
    forall i | 1 <= i < 64 ensures x[i] == y[i] {
      assert Step(p, x)[i - 1] == (x[i] != (x[0] && q[i - 1]));
      assert Step(p, y)[i - 1] == (y[i] != (y[0] && q[i - 1]));
    }
  }

  lemma {:induction false} IterLinear(p: Word, n: nat, x: Word, y: Word)
    ensures Iter(p, n, Xor(x, y)) == Xor(Iter(p, n, x), Iter(p, n, y))
  {
    if n > 0 {
      IterLinear(p, n - 1, x, y);
      StepLinear(p, Iter(p, n - 1, x), Iter(p, n - 1, y));
    }
  }

  lemma {:induction false} IterInjective(p: Word, n: nat, x: Word, y: Word)
    requires p[0]
    requires Iter(p, n, x) == Iter(p, n, y)
    ensures x == y
  {
    if n > 0 {
      StepInjective(p, Iter(p, n - 1, x), Iter(p, n - 1, y));
      IterInjective(p, n - 1, x, y);
    }
  }

  lemma {:induction false} IterAdd(p: Word, m: nat, n: nat, x: Word)
    ensures Iter(p, m + n, x) == Iter(p, n, Iter(p, m, x))
  {
    if n > 0 {
      IterAdd(p, m, n - 1, x);
    }
  }

  // As long as only zeros leave the register, a step is a plain shift.
  lemma {:induction false} ShiftOut(p: Word, n: nat, x: Word)
    requires n <= 64 && x[..n] == Zero(n)
    ensures Iter(p, n, x) == Shr(x, n)
  {
    if n > 0 {
      assert x[..n - 1] == x[..n][..n - 1] == Zero(n - 1);
      assert !x[..n][n - 1];
      ShiftOut(p, n - 1, x);
      assert Iter(p, n - 1, x)[0] == x[n - 1];
    }
  }

  // Input that only matters after `n` steps may enter the register before them.
  lemma EarlyInput(p: Word, n: nat, x: Word, late: Word)
    requires n <= 64 && late[..n] == Zero(n)
    ensures Iter(p, n, Xor(x, late)) == Xor(Iter(p, n, x), Shr(late, n))
  {
    IterLinear(p, n, x, late);
    ShiftOut(p, n, late);
  }

  // Injectivity of the whole checksum, in the register and in any window of up to eight bytes.

  lemma {:induction false} FoldAppend(p: Word, r: Word, s: seq<Byte>, t: seq<Byte>)
    ensures Fold(p, r, s + t) == Fold(p, Fold(p, r, s), t)
    decreases s
  {
    if s == [] {
      assert s + t == t;
    } else {
      assert (s + t)[1..] == s[1..] + t;
      FoldAppend(p, Iter(p, 8, Xor(r, Extend(s[0]))), s[1..], t);
    }
  }

  lemma {:induction false} FoldInjective(p: Word, x: Word, y: Word, data: seq<Byte>)
    requires p[0]
    requires Fold(p, x, data) == Fold(p, y, data)
    ensures x == y
    decreases data
  {
    if data != [] {
      var b := Extend(data[0]);
      FoldInjective(p, Iter(p, 8, Xor(x, b)), Iter(p, 8, Xor(y, b)), data[1..]);
      IterInjective(p, 8, Xor(x, b), Xor(y, b));
      XorCancelRight(x, y, b);
    }
  }

  // `n` consecutive bytes, the first one least significant: what an n-byte little-endian load reads.
  function Load(d: seq<Byte>): (x: Bits)
    ensures |x| == 8 * |d|
  {
    if d == [] then [] else d[0] + Load(d[1..])
  }

  lemma {:induction false} LoadInjective(d: seq<Byte>, e: seq<Byte>)
    requires |d| == |e| && Load(d) == Load(e)
    ensures d == e
  {
    if d != [] {
      assert d[0] == Load(d)[..8] && e[0] == Load(e)[..8];
      assert Load(d[1..]) == Load(d)[8..] && Load(e[1..]) == Load(e)[8..];
      LoadInjective(d[1..], e[1..]);
      assert d == [d[0]] + d[1..] && e == [e[0]] + e[1..];
    }
  }

  function LoadWord(d: seq<Byte>): Word
    requires |d| <= 8
  {
    Load(d) + Zero(64 - 8 * |d|)
  }

  // Up to eight bytes enter the register at once.
  lemma {:induction false} FoldWindow(p: Word, r: Word, d: seq<Byte>)
    requires |d| <= 8
    ensures Fold(p, r, d) == Iter(p, 8 * |d|, Xor(r, LoadWord(d)))
    decreases d
  {
    if d == [] {
      assert Xor(r, Zero(64)) == r;
    } else {
      var t := d[1..];
      var b: Word, rest: Word := Extend(d[0]), Zero(8) + LoadWord(t)[..56];
      var r': Word := Iter(p, 8, Xor(r, b));
      FoldWindow(p, r', t);
      EarlyInput(p, 8, Xor(r, b), rest);
      assert Shr(rest, 8) == LoadWord(t);
      assert Xor(b, rest) == LoadWord(d);
      XorAssoc(r, b, rest);
      IterAdd(p, 8, 8 * |t|, Xor(r, LoadWord(d)));
    }
  }

  lemma WindowInjective(p: Word, r: Word, d: seq<Byte>, e: seq<Byte>)
    requires p[0]
    requires |d| == |e| <= 8
    requires Fold(p, r, d) == Fold(p, r, e)
    ensures d == e
  {
    FoldWindow(p, r, d);
    FoldWindow(p, r, e);
    IterInjective(p, 8 * |d|, Xor(r, LoadWord(d)), Xor(r, LoadWord(e)));
    XorCancel(r, LoadWord(d), LoadWord(e));
    assert Load(d) == LoadWord(d)[..8 * |d|];
    assert Load(e) == LoadWord(e)[..8 * |e|];
    LoadInjective(d, e);
  }

  /** Two messages of the same length that differ only inside one window of at most eight
      consecutive bytes never have the same checksum. */
  lemma BurstDetected(p: Word, r: Word, pre: seq<Byte>, d: seq<Byte>, e: seq<Byte>, post: seq<Byte>)
    requires p[0]
    requires |d| == |e| <= 8 && d != e
    ensures Fold(p, r, pre + d + post) != Fold(p, r, pre + e + post)
  {
    if Fold(p, r, pre + d + post) == Fold(p, r, pre + e + post) {
      FoldAppend(p, r, pre + d, post);
      FoldAppend(p, r, pre + e, post);
      FoldAppend(p, r, pre, d);
      FoldAppend(p, r, pre, e);
      FoldInjective(p, Fold(p, r, pre + d), Fold(p, r, pre + e), post);
      WindowInjective(p, Fold(p, r, pre), d, e);
    }
  }

  // The two register directions agree.

  lemma ReflectStep(p: Word, c: Word, bit: bool)
    ensures Reverse(MsbStep(p, c, bit)) == Step(p, Xor(Reverse(c), [bit] + Zero(63)))
  {
    var x: Word := Xor(Reverse(c), [bit] + Zero(63));
    assert x[0] == (c[63] != bit);
    forall i | 0 <= i < 64 ensures Reverse(MsbStep(p, c, bit))[i] == Step(p, x)[i] {
      if i < 63 {
        assert x[i + 1] == c[62 - i];
      }
    }
  }

  // The first `i` bits of a byte as a word, and its bit `i` alone.
  function FirstBits(b: Byte, i: nat): Word
    requires i <= 8
  {
    b[..i] + Zero(64 - i)
  }

  function OneBit(b: Byte, i: nat): Word
    requires i < 8
  {
    Zero(i) + [b[i]] + Zero(63 - i)
  }

  lemma FirstBitsStep(b: Byte, i: nat)
    requires i < 8
    ensures Xor(FirstBits(b, i), OneBit(b, i)) == FirstBits(b, i + 1)
    ensures OneBit(b, i)[..i] == Zero(i)
    ensures Shr(OneBit(b, i), i) == [b[i]] + Zero(63)
  {}

  lemma {:induction false} ReflectBits(p: Word, c: Word, b: Byte, i: nat)
    requires i <= 8
    ensures Reverse(MsbByte(p, c, b, i)) == Iter(p, i, Xor(Reverse(c), FirstBits(b, i)))
  {
    if i == 0 {
      assert Xor(Reverse(c), FirstBits(b, 0)) == Reverse(c);
    } else {
      var k := i - 1;
      ReflectBits(p, c, b, k);
      ReflectStep(p, MsbByte(p, c, b, k), b[k]);
      FirstBitsStep(b, k);
      EarlyInput(p, k, Xor(Reverse(c), FirstBits(b, k)), OneBit(b, k));
      XorAssoc(Reverse(c), FirstBits(b, k), OneBit(b, k));
    }
  }

  lemma ReflectByte(p: Word, c: Word, b: Byte)
    ensures Reverse(MsbByte(p, c, b, 8)) == Iter(p, 8, Xor(Reverse(c), Extend(b)))
  {
    ReflectBits(p, c, b, 8);
    assert FirstBits(b, 8) == Extend(b);
  }

  // crc64.c

  /** Mirrors the low `width` bits of `data`, one bit per round. */
  method CrcReflect(data: Word, width: nat) returns (ret: Word)
    requires 1 <= width <= 64
    ensures ret == Reverse(data[..width]) + Zero(64 - width)
  {
    var d := data;
    ret := [d[0]] + Zero(63);
    for i := 1 to width
      invariant d == Shr(data, i - 1)
      invariant ret == Reverse(data[..i]) + Zero(64 - i)
    {
      d := Shr(d, 1);
      ret := [d[0]] + Shl(ret, 1)[1..];
      assert d[0] == data[i];
    }
  }

  /** The generated bit-by-bit checksum: whatever the register starts from, the mirrored result is the
      reference checksum started from the mirrored register. */
  method BitwiseCrc(p: Word, crc: Word, data: seq<Byte>) returns (r: Word)
    ensures r == Fold(p, Reverse(crc), data)
  {
    var c := crc;
    for offset := 0 to |data|
      invariant Fold(p, Reverse(c), data[offset..]) == Fold(p, Reverse(crc), data)
    {
      var b := data[offset];
      ghost var start := c;
      for i := 0 to 8
        invariant c == MsbByte(p, start, b, i)
      {
        var bit := c[63];
        if b[i] {
          bit := !bit;
        }
        c := Shl(c, 1);
        if bit {
          c := Xor(c, p);
        }
      }
      ReflectByte(p, start, b);
      assert data[offset..][1..] == data[offset + 1..];
    }
    r := CrcReflect(c, 64);
    assert c[..64] == c;
  }
}
