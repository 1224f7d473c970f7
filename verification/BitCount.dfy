/**
 * redisPopcount: seven 32-bit words at a time are counted with masked additions inside the words.
 * The lanes of the words never carry into each other, so the result is the number of ones in the
 * bytes. (src/bitops.c)
 */
module BitCount {
  import opened Common
  import opened Words
  import opened BitField

  type Word32 = w: Bits | |w| == 32 witness Zero(32)

  function One(b: bool): (n: nat)
    ensures n <= 1
  {
    if b then 1 else 0
  }

  // The value of two adjacent bits, and the number of ones among them.
  function Two(a: bool, b: bool): (n: nat)
    ensures n < 4
  {
    One(a) + 2 * One(b)
  }

  function Sum(a: bool, b: bool): (n: nat)
    ensures n <= 2
  {
    One(a) + One(b)
  }

  lemma TwoBits(a: bool, b: bool)
    ensures Two(false, false) == 0
    ensures Two(a, b) - Two(b, false) == Sum(a, b)
  {}

  function Low(b: Byte): (n: nat)
    ensures n <= 4
  {
    Sum(b[0], b[1]) + Sum(b[2], b[3])
  }

  function High(b: Byte): (n: nat)
    ensures n <= 4
  {
    Sum(b[4], b[5]) + Sum(b[6], b[7])
  }

  /** The number of ones in a byte: an entry of bitsinbyte. */
  function Ones(b: Byte): nat { Low(b) + High(b) }

  function OnesIn(s: seq<Byte>): nat {
    if s == [] then 0 else OnesIn(s[..|s| - 1]) + Ones(s[|s| - 1])
  }

  // ---- Ones as positions ------------------------------------------------------------------------

  // The positions below `k` that hold a one.
  ghost function Below(t: iset<nat>, k: nat): set<nat> { set j: nat | 0 <= j < k && Has(t, 0, j) }

  lemma BelowNext(t: iset<nat>, k: nat)
    ensures |Below(t, k + 1)| == |Below(t, k)| + One(k in t)
  {
    assert Below(t, k + 1) == Below(t, k) + if k in t then {k} else {};
  }

  lemma BelowBit(s: seq<Byte>, i: nat, j: nat)
    requires i < |s| && j < 8
    ensures |Below(Tape(s), 8 * i + (j + 1))| == |Below(Tape(s), 8 * i + j)| + One(s[i][7 - j])
  {
    AtPosition(s, i, j);
    hide Tape, Below;
    BelowNext(Tape(s), 8 * i + j);
  }

  lemma BelowByte(s: seq<Byte>, i: nat)
    requires i < |s|
    ensures |Below(Tape(s), 8 * i + 8)| == |Below(Tape(s), 8 * i)| + Ones(s[i])
  {
    hide Tape, Below, One;
    BelowBit(s, i, 0);
    BelowBit(s, i, 1);
    BelowBit(s, i, 2);
    BelowBit(s, i, 3);
    BelowBit(s, i, 4);
    BelowBit(s, i, 5);
    BelowBit(s, i, 6);
    BelowBit(s, i, 7);
  }

  lemma AtPosition(s: seq<Byte>, i: nat, j: nat)
    requires i < |s| && j < 8
    ensures Has(Tape(s), 8 * i, j) == s[i][7 - j]
  {
    assert (8 * i + j) / 8 == i && (8 * i + j) % 8 == j;
  }

  lemma {:induction false} OnesBelow(s: seq<Byte>, i: nat)
    requires i <= |s|
    ensures OnesIn(s[..i]) == |Below(Tape(s), 8 * i)|
  {
    hide Tape, Ones;
    if i == 0 {
      assert Below(Tape(s), 0) == {};
    } else {
      OnesBelow(s, i - 1);
      OnesNext(s, i - 1);
      BelowByte(s, i - 1);
    }
  }

  /** The count is the number of positions of the string that hold a one. */
  lemma OnesArePositions(s: seq<Byte>)
    ensures OnesIn(s) == |Below(Tape(s), 8 * |s|)|
  {
    OnesBelow(s, |s|);
    assert s[..|s|] == s;
  }

  // ---- 32-bit words ---------------------------------------------------------------------------

  function Add(x: Word32, y: Word32): Word32 { BitsOf((NatOf(x) + NatOf(y)) % Pow2(32), 32) }

  function Sub(x: Word32, y: Word32): Word32 { BitsOf((NatOf(x) - NatOf(y)) % Pow2(32), 32) }

  function And(x: Word32, y: Word32): Word32 {
    seq(32, i requires 0 <= i < 32 => x[i] && y[i])
  }

  // The masks 0x55555555, 0x33333333 and 0x0F0F0F0F: w ones, w zeros, and so on.
  function Mask(w: nat): Word32
    requires w > 0
  {
    seq(32, i => i / w % 2 == 0)
  }

  function Lane(x: Word32, i: nat): Byte
    requires i < 4
  {
    x[8 * i..8 * i + 8]
  }

  function ByteValue(b: Byte): (n: nat)
    ensures n < 256
  {
    Two(b[0], b[1]) + 4 * Two(b[2], b[3]) + 16 * Two(b[4], b[5]) + 64 * Two(b[6], b[7])
  }

  function Lanes(v: (nat, nat, nat, nat)): nat { v.0 + 0x100 * v.1 + 0x1_0000 * v.2 + 0x100_0000 * v.3 }

  function LanesOf(x: Word32): (nat, nat, nat, nat) {
    (ByteValue(Lane(x, 0)), ByteValue(Lane(x, 1)), ByteValue(Lane(x, 2)), ByteValue(Lane(x, 3)))
  }

  lemma {:induction false} NatOfFour(x: Bits)
    requires |x| >= 4
    ensures NatOf(x) == Two(x[0], x[1]) + 4 * Two(x[2], x[3]) + 16 * NatOf(x[4..])
  {
    assert NatOf(x) == One(x[0]) + 2 * NatOf(x[1..]);
    assert x[1..][1..] == x[2..];
    assert NatOf(x[1..]) == One(x[1]) + 2 * NatOf(x[2..]);
    assert x[2..][1..] == x[3..];
    assert NatOf(x[2..]) == One(x[2]) + 2 * NatOf(x[3..]);
    assert x[3..][1..] == x[4..];
    assert NatOf(x[3..]) == One(x[3]) + 2 * NatOf(x[4..]);
  }

  lemma NatOfByte(x: Bits)
    requires |x| >= 8
    ensures NatOf(x) == ByteValue(x[..8]) + 256 * NatOf(x[8..])
  {
    hide NatOf, Two;
    NatOfFour(x);
    NatOfFour(x[4..]);
    assert x[4..][4..] == x[8..];
  }

  lemma WordValue(x: Word32)
    ensures NatOf(x) == Lanes(LanesOf(x))
  {
    hide NatOf, ByteValue;
    NatOfByte(x);
    NatOfByte(x[8..]);
    NatOfByte(x[16..]);
    NatOfByte(x[24..]);
    assert x[8..][..8] == Lane(x, 1) && x[8..][8..] == x[16..];
    assert x[16..][..8] == Lane(x, 2) && x[16..][8..] == x[24..];
    assert x[24..][..8] == Lane(x, 3) && x[24..][8..] == [];
    NatOfNothing();
  }

  lemma NatOfNothing()
    ensures NatOf([]) == 0
  {}

  lemma Pow2ThirtyTwo()
    ensures Pow2(32) == 0x1_0000_0000
  {
    hide Pow2;
    Pow2Eight();
    Pow2Sum(8, 8);
    Pow2Sum(16, 16);
  }

  // A word computed to a value whose lanes do not overflow has those lanes.
  lemma LanesFit(n: int, v: (nat, nat, nat, nat))
    requires v.0 < 256 && v.1 < 256 && v.2 < 256 && v.3 < 256 && n == Lanes(v)
    ensures LanesOf(BitsOf(n % Pow2(32), 32)) == v
  {
    hide NatOf, BitsOf, Pow2, LanesOf;
    Pow2ThirtyTwo();
    LanesBound(v);
    NatOfBitsOf(n, 32);
    WordValue(BitsOf(n, 32));
    LanesSmall(BitsOf(n, 32));
    SameLanes(v, LanesOf(BitsOf(n, 32)));
  }

  lemma LanesBound(v: (nat, nat, nat, nat))
    requires v.0 < 256 && v.1 < 256 && v.2 < 256 && v.3 < 256
    ensures Lanes(v) < 0x1_0000_0000 && Lanes(v) % 0x1_0000_0000 == Lanes(v)
  {}

  lemma SameLanes(v: (nat, nat, nat, nat), w: (nat, nat, nat, nat))
    requires v.0 < 256 && v.1 < 256 && v.2 < 256 && v.3 < 256
    requires w.0 < 256 && w.1 < 256 && w.2 < 256 && w.3 < 256
    requires Lanes(v) == Lanes(w)
    ensures v == w
  {
    Digit(v.0, v.1 + 256 * v.2 + 65536 * v.3, w.0, w.1 + 256 * w.2 + 65536 * w.3);
    Digit(v.1, v.2 + 256 * v.3, w.1, w.2 + 256 * w.3);
    Digit(v.2, v.3, w.2, w.3);
  }

  lemma Digit(a: nat, c: nat, b: nat, d: nat)
    requires a < 256 && b < 256 && a + 256 * c == b + 256 * d
    ensures a == b && c == d
  {}

  lemma LanesSmall(x: Word32)
    ensures var v := LanesOf(x); v.0 < 256 && v.1 < 256 && v.2 < 256 && v.3 < 256
  {}

  lemma AddLanes(x: Word32, y: Word32)
    requires var a, b := LanesOf(x), LanesOf(y); a.0 + b.0 < 256 && a.1 + b.1 < 256 && a.2 + b.2 < 256 && a.3 + b.3 < 256
    ensures var a, b := LanesOf(x), LanesOf(y); LanesOf(Add(x, y)) == (a.0 + b.0, a.1 + b.1, a.2 + b.2, a.3 + b.3)
  {
    hide NatOf, BitsOf, Pow2, LanesOf;
    WordValue(x);
    WordValue(y);
    var a, b := LanesOf(x), LanesOf(y);
    LanesFit(NatOf(x) + NatOf(y), (a.0 + b.0, a.1 + b.1, a.2 + b.2, a.3 + b.3));
  }

  lemma SubLanes(x: Word32, y: Word32)
    requires var a, b := LanesOf(x), LanesOf(y); a.0 >= b.0 && a.1 >= b.1 && a.2 >= b.2 && a.3 >= b.3
    ensures var a, b := LanesOf(x), LanesOf(y); LanesOf(Sub(x, y)) == (a.0 - b.0, a.1 - b.1, a.2 - b.2, a.3 - b.3)
  {
    hide NatOf, BitsOf, Pow2, ByteValue;
    WordValue(x);
    WordValue(y);
    var a, b := LanesOf(x), LanesOf(y);
    LanesFit(NatOf(x) - NatOf(y), (a.0 - b.0, a.1 - b.1, a.2 - b.2, a.3 - b.3));
  }

  // ---- The three steps, one byte at a time ------------------------------------------------------

  // Ones in each pair of bits, two bits wide.
  function Pairs(b: Byte): nat {
    Sum(b[0], b[1]) + 4 * Sum(b[2], b[3]) + 16 * Sum(b[4], b[5]) + 64 * Sum(b[6], b[7])
  }

  // Ones in each half, four bits wide.
  function Halves(b: Byte): nat { Low(b) + 16 * High(b) }

  function Each(x: Word32, f: Byte -> nat): (nat, nat, nat, nat) {
    (f(Lane(x, 0)), f(Lane(x, 1)), f(Lane(x, 2)), f(Lane(x, 3)))
  }

  lemma ShiftedBits(x: Word32, i: nat)
    requires i < 4
    ensures forall k | 0 <= k < 8 :: Lane(And(Shr(x, 1), Mask(1)), i)[k] == (k % 2 == 0 && Lane(x, i)[k + 1])
  {
    var e := And(Shr(x, 1), Mask(1));
    forall k | 0 <= k < 8 ensures Lane(e, i)[k] == (k % 2 == 0 && Lane(x, i)[k + 1]) {
      assert Lane(e, i)[k] == e[8 * i + k];
      if k % 2 == 0 { assert Lane(x, i)[k + 1] == x[8 * i + k + 1] == Shr(x, 1)[8 * i + k]; }
    }
  }

  lemma MinusOdd(b: Byte, e: Byte)
    requires e[0] == b[1] && e[2] == b[3] && e[4] == b[5] && e[6] == b[7]
    requires !e[1] && !e[3] && !e[5] && !e[7]
    ensures ByteValue(b) - ByteValue(e) == Pairs(b)
  {
    assert Two(b[0], b[1]) - Two(e[0], e[1]) == Sum(b[0], b[1]) by { TwoBits(b[0], b[1]); }
    assert Two(b[2], b[3]) - Two(e[2], e[3]) == Sum(b[2], b[3]) by { TwoBits(b[2], b[3]); }
    assert Two(b[4], b[5]) - Two(e[4], e[5]) == Sum(b[4], b[5]) by { TwoBits(b[4], b[5]); }
    assert Two(b[6], b[7]) - Two(e[6], e[7]) == Sum(b[6], b[7]) by { TwoBits(b[6], b[7]); }
    hide Two, Sum;
  }

  lemma OddBits(x: Word32, i: nat)
    requires i < 4
    ensures ByteValue(Lane(x, i)) - ByteValue(Lane(And(Shr(x, 1), Mask(1)), i)) == Pairs(Lane(x, i))
  {
    hide And, Shr, Mask, Lane, ByteValue, Pairs;
    ShiftedBits(x, i);
    var b := Lane(x, i);
    MinusOdd(b, Lane(And(Shr(x, 1), Mask(1)), i));
  }

  lemma PairStep(x: Word32)
    ensures LanesOf(Sub(x, And(Shr(x, 1), Mask(1)))) == Each(x, Pairs)
  {
    hide ByteValue, Pairs, And, Shr, Mask, Lane, Sub;
    OddBits(x, 0);
    OddBits(x, 1);
    OddBits(x, 2);
    OddBits(x, 3);
    SubLanes(x, And(Shr(x, 1), Mask(1)));
  }

  lemma SamePairs(c: Byte, b: Byte)
    requires ByteValue(c) == Pairs(b)
    ensures Two(c[0], c[1]) == Sum(b[0], b[1]) && Two(c[2], c[3]) == Sum(b[2], b[3])
    ensures Two(c[4], c[5]) == Sum(b[4], b[5]) && Two(c[6], c[7]) == Sum(b[6], b[7])
  {
    hide Two, Sum;
    SameDigits(Two(c[0], c[1]), Two(c[2], c[3]), Two(c[4], c[5]), Two(c[6], c[7]),
               Sum(b[0], b[1]), Sum(b[2], b[3]), Sum(b[4], b[5]), Sum(b[6], b[7]));
  }

  lemma SameDigits(a0: nat, a1: nat, a2: nat, a3: nat, b0: nat, b1: nat, b2: nat, b3: nat)
    requires a0 < 4 && a1 < 4 && a2 < 4 && a3 < 4 && b0 < 4 && b1 < 4 && b2 < 4 && b3 < 4
    requires a0 + 4 * a1 + 16 * a2 + 64 * a3 == b0 + 4 * b1 + 16 * b2 + 64 * b3
    ensures a0 == b0 && a1 == b1 && a2 == b2 && a3 == b3
  {}

  // Bits k of the masked word and of the masked word shifted by two.
  lemma EvenPairs(y: Word32, i: nat)
    requires i < 4
    ensures forall k | 0 <= k < 8 :: Lane(And(y, Mask(2)), i)[k] == (k / 2 % 2 == 0 && Lane(y, i)[k])
  {
    forall k | 0 <= k < 8 ensures Lane(And(y, Mask(2)), i)[k] == (k / 2 % 2 == 0 && Lane(y, i)[k]) {
      assert Lane(And(y, Mask(2)), i)[k] == And(y, Mask(2))[8 * i + k] && Lane(y, i)[k] == y[8 * i + k];
    }
  }

  lemma OddPairs(y: Word32, i: nat)
    requires i < 4
    ensures forall k | 0 <= k < 8 :: Lane(And(Shr(y, 2), Mask(2)), i)[k] == (k / 2 % 2 == 0 && Lane(y, i)[k + 2])
  {
    var e := And(Shr(y, 2), Mask(2));
    forall k | 0 <= k < 8 ensures Lane(e, i)[k] == (k / 2 % 2 == 0 && Lane(y, i)[k + 2]) {
      assert Lane(e, i)[k] == e[8 * i + k];
      if k / 2 % 2 == 0 { assert Lane(y, i)[k + 2] == y[8 * i + k + 2] == Shr(y, 2)[8 * i + k]; }
    }
  }

  lemma TwoPairs(y: Word32, i: nat, b: Byte)
    requires i < 4 && ByteValue(Lane(y, i)) == Pairs(b)
    ensures ByteValue(Lane(And(y, Mask(2)), i)) + ByteValue(Lane(And(Shr(y, 2), Mask(2)), i)) == Halves(b) < 256
  {
    hide And, Shr, Mask, Lane, Two, Sum;
    TwoBits(false, false);
    EvenPairs(y, i);
    OddPairs(y, i);
    SamePairs(Lane(y, i), b);
  }

  lemma HalfStep(x: Word32, y: Word32)
    requires LanesOf(y) == Each(x, Pairs)
    ensures LanesOf(Add(And(y, Mask(2)), And(Shr(y, 2), Mask(2)))) == Each(x, Halves)
  {
    hide ByteValue, Pairs, Halves, And, Shr, Mask, Lane, Add;
    TwoPairs(y, 0, Lane(x, 0));
    TwoPairs(y, 1, Lane(x, 1));
    TwoPairs(y, 2, Lane(x, 2));
    TwoPairs(y, 3, Lane(x, 3));
    AddLanes(And(y, Mask(2)), And(Shr(y, 2), Mask(2)));
  }

  lemma SameHalves(c: Byte, b: Byte)
    requires ByteValue(c) == Halves(b)
    ensures Two(c[0], c[1]) + 4 * Two(c[2], c[3]) == Low(b)
    ensures Two(c[4], c[5]) + 4 * Two(c[6], c[7]) == High(b)
  {
    hide Two, Low, High;
    HalfDigit(Two(c[0], c[1]) + 4 * Two(c[2], c[3]), Two(c[4], c[5]) + 4 * Two(c[6], c[7]), Low(b), High(b));
  }

  lemma HalfDigit(a: nat, c: nat, b: nat, d: nat)
    requires a < 16 && b < 16 && a + 16 * c == b + 16 * d
    ensures a == b && c == d
  {}

  lemma ShiftedHalves(z: Word32, i: nat)
    requires i < 4
    ensures forall k | 0 <= k < 4 :: Lane(Shr(z, 4), i)[k] == Lane(z, i)[k + 4]
    ensures forall k | 4 <= k < 8 :: Lane(Shr(z, 4), i)[k] == (i < 3 && Lane(z, i + 1)[k - 4])
  {
    forall k | 0 <= k < 8
      ensures Lane(Shr(z, 4), i)[k] == if k < 4 then Lane(z, i)[k + 4] else i < 3 && Lane(z, i + 1)[k - 4]
    {
      assert Lane(Shr(z, 4), i)[k] == Shr(z, 4)[8 * i + k];
      if k < 4 {
        assert Lane(z, i)[k + 4] == z[8 * i + k + 4];
      } else if i < 3 {
        assert Lane(z, i + 1)[k - 4] == z[8 * (i + 1) + (k - 4)];
      }
    }
  }

  lemma ShiftedValue(z: Word32, i: nat, b: Byte, next: Byte)
    requires i < 4 && ByteValue(Lane(z, i)) == Halves(b)
    requires i < 3 ==> ByteValue(Lane(z, i + 1)) == Halves(next)
    ensures ByteValue(Lane(Shr(z, 4), i)) == High(b) + if i < 3 then 16 * Low(next) else 0
  {
    hide Shr, Lane, Two, Sum;
    TwoBits(false, false);
    ShiftedHalves(z, i);
    SameHalves(Lane(z, i), b);
    if i < 3 { SameHalves(Lane(z, i + 1), next); }
  }

  lemma LowBits(w: Word32, i: nat)
    requires i < 4
    ensures forall k | 0 <= k < 8 :: Lane(And(w, Mask(4)), i)[k] == (k < 4 && Lane(w, i)[k])
  {
    forall k | 0 <= k < 8 ensures Lane(And(w, Mask(4)), i)[k] == (k < 4 && Lane(w, i)[k]) {
      assert Lane(And(w, Mask(4)), i)[k] == And(w, Mask(4))[8 * i + k] && Lane(w, i)[k] == w[8 * i + k];
    }
  }

  lemma LowHalf(w: Word32, i: nat, low: nat, high: nat)
    requires i < 4 && ByteValue(Lane(w, i)) == low + 16 * high && low < 16 && high < 16
    ensures ByteValue(Lane(And(w, Mask(4)), i)) == low
  {
    hide And, Mask, Lane, Two;
    TwoBits(false, false);
    LowBits(w, i);
    var c := Lane(w, i);
    HalfDigit(Two(c[0], c[1]) + 4 * Two(c[2], c[3]), Two(c[4], c[5]) + 4 * Two(c[6], c[7]), low, high);
  }

  lemma ByteStep(x: Word32, z: Word32)
    requires LanesOf(z) == Each(x, Halves)
    ensures LanesOf(And(Add(z, Shr(z, 4)), Mask(4))) == Each(x, Ones)
  {
    hide ByteValue, And, Shr, Mask, Lane, Add, Low, High;
    var b0, b1, b2, b3 := Lane(x, 0), Lane(x, 1), Lane(x, 2), Lane(x, 3);
    ShiftedValue(z, 0, b0, b1);
    ShiftedValue(z, 1, b1, b2);
    ShiftedValue(z, 2, b2, b3);
    ShiftedValue(z, 3, b3, b3);
    AddLanes(z, Shr(z, 4));
    var w := Add(z, Shr(z, 4));
    LowHalf(w, 0, Low(b0) + High(b0), High(b0) + Low(b1));
    LowHalf(w, 1, Low(b1) + High(b1), High(b1) + Low(b2));
    LowHalf(w, 2, Low(b2) + High(b2), High(b2) + Low(b3));
    LowHalf(w, 3, Low(b3) + High(b3), High(b3));
  }

  // ---- The count --------------------------------------------------------------------------------

  method CountBytes(aux: Word32) returns (r: Word32)
    ensures LanesOf(r) == Each(aux, Ones)
  {
    hide *;
    r := Sub(aux, And(Shr(aux, 1), Mask(1)));
    PairStep(aux);
    HalfStep(aux, r);
    r := Add(And(r, Mask(2)), And(Shr(r, 2), Mask(2)));
    ByteStep(aux, r);
    r := And(Add(r, Shr(r, 4)), Mask(4));
  }

  function Total(v: (nat, nat, nat, nat)): nat { v.0 + v.1 + v.2 + v.3 }

  // Multiplying by 0x01010101 adds the four lanes up in the top one.
  lemma TopLane(v: (nat, nat, nat, nat))
    requires v.0 <= 56 && v.1 <= 56 && v.2 <= 56 && v.3 <= 56
    ensures (Lanes(v) * 0x0101_0101 % 0x1_0000_0000) / 0x100_0000 == Total(v)
  {
    var rest := (v.1 + v.2 + v.3) + 0x100 * (v.2 + v.3) + 0x1_0000 * v.3;
    var low := v.0 + 0x100 * (v.0 + v.1) + 0x1_0000 * (v.0 + v.1 + v.2);
    assert Lanes(v) * 0x0101_0101 == 0x1_0000_0000 * rest + 0x100_0000 * Total(v) + low;
    ModOf(Lanes(v) * 0x0101_0101, rest, 0x100_0000 * Total(v) + low, 0x1_0000_0000);
    ModOf(0x100_0000 * Total(v) + low, Total(v), low, 0x100_0000);
  }

  lemma OnesNext(s: seq<Byte>, i: nat)
    requires i < |s|
    ensures OnesIn(s[..i + 1]) == OnesIn(s[..i]) + Ones(s[i])
  {
    assert s[..i + 1][..i] == s[..i];
  }

  function LoadWord32(s: seq<Byte>, i: nat): Word32
    requires i + 4 <= |s|
  {
    var a: Bits, b: Bits, c: Bits, d: Bits := s[i], s[i + 1], s[i + 2], s[i + 3];
    a + b + c + d
  }

  lemma WordOnes(s: seq<Byte>, i: nat)
    requires i + 4 <= |s|
    ensures OnesIn(s[..i + 4]) == OnesIn(s[..i]) + Total(Each(LoadWord32(s, i), Ones))
    ensures var v := Each(LoadWord32(s, i), Ones); v.0 <= 8 && v.1 <= 8 && v.2 <= 8 && v.3 <= 8
  {
    hide Ones, OnesIn;
    var x := LoadWord32(s, i);
    assert Lane(x, 0) == s[i] && Lane(x, 1) == s[i + 1] && Lane(x, 2) == s[i + 2] && Lane(x, 3) == s[i + 3];
    OnesNext(s, i);
    OnesNext(s, i + 1);
    OnesNext(s, i + 2);
    OnesNext(s, i + 3);
    OnesAtMostEight(s[i]);
    OnesAtMostEight(s[i + 1]);
    OnesAtMostEight(s[i + 2]);
    OnesAtMostEight(s[i + 3]);
  }

  lemma OnesAtMostEight(b: Byte)
    ensures Ones(b) <= 8
  {}

  lemma NoOnes()
    ensures LanesOf(Zero(32)) == (0, 0, 0, 0) && OnesIn([]) == 0
  {
    var b := Lane(Zero(32), 0);
    assert b == Lane(Zero(32), 1) == Lane(Zero(32), 2) == Lane(Zero(32), 3) == Zero(8);
  }

  // The lanes of total add up to the ones in the k words from position i on.
  ghost predicate Counted(s: seq<Byte>, i: nat, k: nat, total: Word32)
    requires i + 4 * k <= |s|
  {
    var v := LanesOf(total);
    v.0 <= 8 * k && v.1 <= 8 * k && v.2 <= 8 * k && v.3 <= 8 * k &&
    OnesIn(s[..i + 4 * k]) == OnesIn(s[..i]) + Total(v)
  }

  lemma CountNext(s: seq<Byte>, i: nat, k: nat, total: Word32, aux: Word32)
    requires k < 7 && i + 4 * k + 4 <= |s| && Counted(s, i, k, total)
    requires LanesOf(aux) == Each(LoadWord32(s, i + 4 * k), Ones)
    ensures Counted(s, i, k + 1, Add(total, aux))
  {
    hide LanesOf, Each, LoadWord32, OnesIn, Ones, Add;
    WordOnes(s, i + 4 * k);
    AddLanes(total, aux);
  }

  lemma CountDone(s: seq<Byte>, i: nat, total: Word32)
    requires i + 28 <= |s| && Counted(s, i, 7, total)
    ensures OnesIn(s[..i + 28]) == OnesIn(s[..i]) + (NatOf(total) * 0x0101_0101 % Pow2(32)) / 0x100_0000
  {
    hide LanesOf, Lanes, OnesIn, NatOf, Pow2;
    WordValue(total);
    TopLane(LanesOf(total));
    Pow2ThirtyTwo();
  }

  // 28 bytes from position i on.
  method CountBlock(s: seq<Byte>, i: nat) returns (n: nat)
    requires i + 28 <= |s|
    ensures OnesIn(s[..i + 28]) == OnesIn(s[..i]) + n
  {
    var total: Word32 := Zero(32);
    assert Counted(s, i, 0, total) by { NoOnes(); }
    hide *;
    for k := 0 to 7
      invariant Counted(s, i, k, total)
    {
      var aux := CountBytes(LoadWord32(s, i + 4 * k));
      CountNext(s, i, k, total, aux);
      total := Add(total, aux);
    }
    CountDone(s, i, total);
    n := (NatOf(total) * 0x0101_0101 % Pow2(32)) / 0x100_0000;
  }

  /** The number of ones in the bytes, which start at the given address. */
  method RedisPopcount(s: seq<Byte>, address: nat) returns (bits: nat)
    ensures bits == OnesIn(s)
    ensures bits == |Below(Tape(s), 8 * |s|)|
  {
    OnesArePositions(s);
    hide *;
    NoOnes();
    bits := 0;
    var i := 0;
    while (address + i) % 4 != 0 && i < |s|
      invariant i <= |s| && bits == OnesIn(s[..i])
      decreases |s| - i
    {
      OnesNext(s, i);
      bits := bits + Ones(s[i]);
      i := i + 1;
    }
    while |s| - i >= 28
      invariant i <= |s| && bits == OnesIn(s[..i])
    {
      var n := CountBlock(s, i);
      bits := bits + n;
      i := i + 28;
    }
    while i < |s|
      invariant i <= |s| && bits == OnesIn(s[..i])
    {
      OnesNext(s, i);
      bits := bits + Ones(s[i]);
      i := i + 1;
    }
    assert s[..i] == s;
  }
}
