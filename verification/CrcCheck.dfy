/** The check value of the checksum: what crc64.c's self test expects of "123456789". */
module CrcCheck {
  import opened Words
  import opened Crc64
  import opened CrcSpeed

  // Bit vectors and bit strings. The vector operations have names, so that proofs that do not look
  // into them can hide them.

  function Both(x: bv64, y: bv64): bv64 { x ^ y }

  function Drop4(x: bv64): bv64 { x >> 4 }

  function Drop16(x: bv64): bv64 { x >> 16 }

  lemma HalfXor(x: bv64, y: bv64)
    ensures Half(Both(x, y)) == Both(Half(x), Half(y))
    ensures IsOdd(Both(x, y)) == (IsOdd(x) != IsOdd(y))
  {}

  lemma XorHead(p: bool, a: Bits, q: bool, b: Bits)
    requires |a| == |b|
    ensures Xor([p] + a, [q] + b) == [p != q] + Xor(a, b)
  {}

  lemma VectorNext(x: bv64, n: nat)
    requires n > 0
    ensures VectorBits(x, n) == [IsOdd(x)] + VectorBits(Half(x), n - 1)
  {
    hide IsOdd, Half;
  }

  lemma VectorNone(x: bv64)
    ensures VectorBits(x, 0) == []
  {}

  lemma {:induction false} VectorXor(x: bv64, y: bv64, n: nat)
    ensures VectorBits(Both(x, y), n) == Xor(VectorBits(x, n), VectorBits(y, n))
    decreases n
  {
    hide IsOdd, Half, Both, VectorBits;
    if n > 0 {
      HalfXor(x, y);
      VectorXor(Half(x), Half(y), n - 1);
      XorHead(IsOdd(x), VectorBits(Half(x), n - 1), IsOdd(y), VectorBits(Half(y), n - 1));
      VectorNext(x, n);
      VectorNext(y, n);
      VectorNext(Both(x, y), n);
    }
  }

  function Halves(x: bv64, k: nat): bv64
    decreases k
  {
    if k == 0 then x else Halves(Half(x), k - 1)
  }

  lemma {:induction false} VectorSplit(x: bv64, k: nat, n: nat)
    requires k <= n
    ensures VectorBits(x, n) == VectorBits(x, k) + VectorBits(Halves(x, k), n - k)
    decreases k
  {
    hide IsOdd, Half;
    if k > 0 {
      VectorSplit(Half(x), k - 1, n - 1);
    }
  }

  lemma {:induction false} HalvesAdd(x: bv64, a: nat, b: nat)
    ensures Halves(x, a + b) == Halves(Halves(x, a), b)
    decreases a
  {
    hide Half;
    if a > 0 {
      HalvesAdd(Half(x), a - 1, b);
    }
  }

  lemma HalvesFirst(x: bv64, n: nat)
    requires n > 0
    ensures Halves(x, n) == Halves(Half(x), n - 1)
  {
    hide Half;
  }

  lemma HalvesDrop4(x: bv64)
    ensures Halves(x, 4) == Drop4(x)
  {
    assert Halves(x, 4) == Half(Half(Half(Half(x)))) by {
      hide Half;
      assert Halves(x, 4) == Halves(Half(Half(x)), 2);
    }
  }

  lemma Halves16(x: bv64)
    ensures Halves(x, 16) == Drop16(x)
  {
    hide Halves, Drop16, Drop4;
    HalvesAdd(x, 4, 12);
    HalvesAdd(Drop4(x), 4, 8);
    HalvesAdd(Drop4(Drop4(x)), 4, 4);
    HalvesDrop4(x);
    HalvesDrop4(Drop4(x));
    HalvesDrop4(Drop4(Drop4(x)));
    HalvesDrop4(Drop4(Drop4(Drop4(x))));
    Drop4Four(x);
  }

  lemma Drop4Four(x: bv64)
    ensures Drop4(Drop4(Drop4(Drop4(x)))) == Drop16(x)
  {}

  lemma DropFour(x: bv64)
    ensures Drop16(Drop16(Drop16(Drop16(x)))) == 0
  {}

  // After sixty-four shifts nothing is left.
  lemma TopGone(x: bv64)
    ensures Halves(Half(x), 63) == 0
  {
    hide Halves, Half, Drop16;
    HalvesAdd(x, 16, 48);
    HalvesAdd(Drop16(x), 16, 32);
    HalvesAdd(Drop16(Drop16(x)), 16, 16);
    Halves16(x);
    Halves16(Drop16(x));
    Halves16(Drop16(Drop16(x)));
    Halves16(Drop16(Drop16(Drop16(x))));
    DropFour(x);
    HalvesFirst(x, 64);
  }

  // A shift of the register.
  lemma VectorShr(x: bv64)
    ensures Shr(VectorBits(x, 64), 1) == VectorBits(Half(x), 64)
  {
    hide IsOdd, Half, VectorBits, Halves;
    VectorNext(x, 64);
    TopGone(x);
    VectorSplit(Half(x), 63, 64);
    VectorZero(1);
  }

  lemma {:induction false} VectorZero(n: nat)
    ensures VectorBits(0, n) == Zero(n)
  {
    if n > 0 {
      VectorZero(n - 1);
      VectorNext(0, n);
    }
  }

  // Four bits at a time.

  lemma Nibble(x: bv64)
    ensures VectorBits(x, 4) == [x & 1 == 1, x & 2 == 2, x & 4 == 4, x & 8 == 8]
  {
    assert VectorBits(x, 4) == [IsOdd(x), IsOdd(Half(x)), IsOdd(Half(Half(x))), IsOdd(Half(Half(Half(x))))] by {
      hide IsOdd, Half, VectorBits;
      VectorNext(x, 4);
      VectorNext(Half(x), 3);
      VectorNext(Half(Half(x)), 2);
      VectorNext(Half(Half(Half(x))), 1);
      VectorNone(Half(Half(Half(Half(x)))));
    }
  }

  predicate MirrorImage(x: bv64, y: bv64) {
    && (x & 1 == 1) == (y & 8 == 8) && (x & 2 == 2) == (y & 4 == 4)
    && (x & 4 == 4) == (y & 2 == 2) && (x & 8 == 8) == (y & 1 == 1)
  }

  lemma NibbleMirror(x: bv64, y: bv64)
    requires MirrorImage(x, y)
    ensures Reverse(VectorBits(x, 4)) == VectorBits(y, 4)
  {
    Nibble(x);
    Nibble(y);
  }

  lemma ReverseSplit(a: Bits, b: Bits)
    ensures Reverse(a + b) == Reverse(b) + Reverse(a)
  {}

  // `m` mirrors `x` in its low `n` bits, the next four of which are those of `y`.
  ghost predicate Mirrors(x: bv64, m: bv64, y: bv64, n: nat) {
    Reverse(VectorBits(x, n)) == VectorBits(m, n) && y == Halves(m, n)
  }

  lemma MirrorStep(x: bv64, m: bv64, y: bv64, n: nat)
    requires Mirrors(Drop4(x), m, y, n) && MirrorImage(x, y)
    ensures Mirrors(x, m, Drop4(y), n + 4)
  {
    hide VectorBits, Halves, Drop4, MirrorImage, Reverse;
    NibbleMirror(x, y);
    HalvesDrop4(x);
    HalvesDrop4(y);
    VectorSplit(x, 4, n + 4);
    VectorSplit(m, n, n + 4);
    HalvesAdd(m, n, 4);
    ReverseSplit(VectorBits(x, 4), VectorBits(Drop4(x), n));
  }

  // The polynomial of crc64.c, mirrored.
  const MIRRORED: bv64 := 0x95ac9329ac4bc9b5

  lemma MirrorStart()
    ensures Mirrors(0, MIRRORED, MIRRORED, 0)
  {}

  lemma MirrorTop()
    ensures Mirrors(0xad93d235, MIRRORED, 0x95ac9329, 32)
  {
    hide Mirrors;
    MirrorStart();
    MirrorStep(0xa, MIRRORED, 0x95ac9329ac4bc9b5, 0);
    MirrorStep(0xad, MIRRORED, 0x95ac9329ac4bc9b, 4);
    MirrorStep(0xad9, MIRRORED, 0x95ac9329ac4bc9, 8);
    MirrorStep(0xad93, MIRRORED, 0x95ac9329ac4bc, 12);
    MirrorStep(0xad93d, MIRRORED, 0x95ac9329ac4b, 16);
    MirrorStep(0xad93d2, MIRRORED, 0x95ac9329ac4, 20);
    MirrorStep(0xad93d23, MIRRORED, 0x95ac9329ac, 24);
    MirrorStep(0xad93d235, MIRRORED, 0x95ac9329a, 28);
  }

  lemma MirrorAll()
    ensures Mirrors(0xad93d23594c935a9, MIRRORED, 0, 64)
  {
    hide Mirrors;
    MirrorTop();
    MirrorStep(0xad93d2359, MIRRORED, 0x95ac9329, 32);
    MirrorStep(0xad93d23594, MIRRORED, 0x95ac932, 36);
    MirrorStep(0xad93d23594c, MIRRORED, 0x95ac93, 40);
    MirrorStep(0xad93d23594c9, MIRRORED, 0x95ac9, 44);
    MirrorStep(0xad93d23594c93, MIRRORED, 0x95ac, 48);
    MirrorStep(0xad93d23594c935, MIRRORED, 0x95a, 52);
    MirrorStep(0xad93d23594c935a, MIRRORED, 0x95, 56);
    MirrorStep(0xad93d23594c935a9, MIRRORED, 0x9, 60);
  }

  lemma PolyMirrored()
    ensures Reverse(Poly()) == VectorBits(MIRRORED, 64)
  {
    MirrorAll();
    hide VectorBits, Halves;
  }

  // The register as a vector.

  function StepVector(x: bv64): bv64 { if IsOdd(x) then Both(Half(x), MIRRORED) else Half(x) }

  lemma StepIs(x: bv64)
    ensures Step(Poly(), VectorBits(x, 64)) == VectorBits(StepVector(x), 64)
  {
    hide Poly, VectorBits, Half, Both, Reverse, IsOdd;
    VectorNext(x, 64);
    VectorShr(x);
    PolyMirrored();
    VectorXor(Half(x), MIRRORED, 64);
  }

  function Steps(x: bv64, n: nat): bv64 { if n == 0 then x else StepVector(Steps(x, n - 1)) }

  lemma {:induction false} StepsAre(x: bv64, n: nat)
    ensures Iter(Poly(), n, VectorBits(x, 64)) == VectorBits(Steps(x, n), 64)
  {
    hide Poly, VectorBits, StepVector, Step;
    if n > 0 {
      StepsAre(x, n - 1);
      StepIs(Steps(x, n - 1));
    }
  }

  function Four(x: bv64): bv64 { StepVector(StepVector(StepVector(StepVector(x)))) }

  lemma StepsNext(x: bv64, n: nat)
    ensures Steps(x, 0) == x && Steps(x, n + 1) == StepVector(Steps(x, n))
  {
    hide StepVector;
  }

  lemma EightSteps(x: bv64)
    ensures Steps(x, 8) == Four(Four(x))
  {
    hide StepVector, Steps;
    StepsNext(x, 0);
    StepsNext(x, 1);
    StepsNext(x, 2);
    StepsNext(x, 3);
    assert Steps(x, 4) == Four(x);
    StepsNext(x, 4);
    StepsNext(x, 5);
    StepsNext(x, 6);
    StepsNext(x, 7);
  }

  // The bytes of "123456789" from its digit `k` on.
  function Digits(k: nat): seq<Byte>
    decreases 10 - k
  {
    if k > 9 then [] else [ByteOf(0x30 + k)] + Digits(k + 1)
  }

  predicate IsByte(d: Byte, b: bv64, y: bv64) {
    && Drop4(b) == y && Drop4(y) == 0
    && d == [b & 1 == 1, b & 2 == 2, b & 4 == 4, b & 8 == 8, y & 1 == 1, y & 2 == 2, y & 4 == 4, y & 8 == 8]
  }

  lemma ByteBits(d: Byte, b: bv64, y: bv64)
    requires IsByte(d, b, y)
    ensures VectorBits(b, 64) == Extend(d)
  {
    Nibble(b);
    Nibble(y);
    hide VectorBits, Halves;
    HalvesDrop4(b);
    HalvesDrop4(y);
    VectorSplit(b, 4, 64);
    VectorSplit(y, 4, 60);
    VectorZero(56);
  }

  lemma Bits8(n: nat)
    ensures ByteOf(n) == [n % 2 == 1, n / 2 % 2 == 1, n / 2 / 2 % 2 == 1, n / 2 / 2 / 2 % 2 == 1,
                          n / 2 / 2 / 2 / 2 % 2 == 1, n / 2 / 2 / 2 / 2 / 2 % 2 == 1,
                          n / 2 / 2 / 2 / 2 / 2 / 2 % 2 == 1, n / 2 / 2 / 2 / 2 / 2 / 2 / 2 % 2 == 1]
  {
    var m := n / 2 / 2 / 2 / 2;
    Bits4(n, 8);
    Bits4(m, 4);
  }

  lemma Bits4(n: nat, w: nat)
    requires w >= 4
    ensures BitsOf(n, w) == [n % 2 == 1, n / 2 % 2 == 1, n / 2 / 2 % 2 == 1, n / 2 / 2 / 2 % 2 == 1]
                            + BitsOf(n / 2 / 2 / 2 / 2, w - 4)
  {
    assert BitsOf(n / 2 / 2, w - 2) == [n / 2 / 2 % 2 == 1, n / 2 / 2 / 2 % 2 == 1] + BitsOf(n / 2 / 2 / 2 / 2, w - 4);
  }

  function DigitVector(k: nat): bv64
    requires 1 <= k <= 9
  {
    match k
    case 1 => 0x31
    case 2 => 0x32
    case 3 => 0x33
    case 4 => 0x34
    case 5 => 0x35
    case 6 => 0x36
    case 7 => 0x37
    case 8 => 0x38
    case 9 => 0x39
  }

  lemma DigitIsByte(k: nat)
    requires 1 <= k <= 9
    ensures IsByte(ByteOf(0x30 + k), DigitVector(k), 3)
  {
    hide ByteOf;
    Bits8(0x30 + k);
  }

  // One digit: from register `r` to register `r'`.
  lemma NextByte(k: nat, b: bv64, r: bv64, r': bv64)
    requires 1 <= k <= 9 && IsByte(ByteOf(0x30 + k), b, 3) && r' == Steps(Both(r, b), 8)
    ensures Fold(Poly(), VectorBits(r, 64), Digits(k)) == Fold(Poly(), VectorBits(r', 64), Digits(k + 1))
  {
    hide VectorBits, Poly, Steps, Both, IsByte, ByteOf;
    var d := ByteOf(0x30 + k);
    ByteBits(d, b, 3);
    VectorXor(r, b, 64);
    StepsAre(Both(r, b), 8);
    assert Digits(k) == [d] + Digits(k + 1);
    assert ([d] + Digits(k + 1))[1..] == Digits(k + 1);
  }

  lemma Digit(k: nat, b: bv64, r: bv64, half: bv64, r': bv64)
    requires 1 <= k <= 9 && b == DigitVector(k) && half == Four(Both(r, b)) && r' == Four(half)
    ensures Fold(Poly(), VectorBits(r, 64), Digits(k)) == Fold(Poly(), VectorBits(r', 64), Digits(k + 1))
  {
    DigitIsByte(k);
    hide VectorBits, Poly, Steps, Both, IsByte, ByteOf, DigitVector, Four;
    EightSteps(Both(r, b));
    NextByte(k, b, r, r');
  }

  lemma FirstDigits()
    ensures Fold(Poly(), VectorBits(0x0, 64), Digits(1)) == Fold(Poly(), VectorBits(0xd5bcfb814479b1ac, 64), Digits(4))
  {
    hide Poly, Fold, VectorBits, Digits;
    Digit(1, 0x31, 0x0, 0x7d08ff3b88be6f82, 0xfdc17184a9f739fa);
    Digit(2, 0x32, 0xfdc17184a9f739fa, 0x9a708431e6d4ba29, 0xe10364513a98ed96);
    Digit(3, 0x33, 0xe10364513a98ed96, 0xac6213c3e179cc34, 0xd5bcfb814479b1ac);
  }

  lemma MiddleDigits()
    ensures Fold(Poly(), VectorBits(0xd5bcfb814479b1ac, 64), Digits(4)) == Fold(Poly(), VectorBits(0xa3a90925b2ab4903, 64), Digits(7))
  {
    hide Poly, Fold, VectorBits, Digits;
    Digit(4, 0x34, 0xd5bcfb814479b1ac, 0x98f75c91b80c52ac, 0x43593c5dcda521f0);
    Digit(5, 0x35, 0x43593c5dcda521f0, 0xa647b6432e0a10f2, 0xf0758513239c7e0d);
    Digit(6, 0x36, 0xf0758513239c7e0d, 0x1db2ca3407b0bed5, 0xa3a90925b2ab4903);
  }

  lemma LastDigits()
    ensures Fold(Poly(), VectorBits(0xa3a90925b2ab4903, 64), Digits(7)) == Fold(Poly(), VectorBits(0xe9c6d914c4b8d9ca, 64), Digits(10))
  {
    hide Poly, Fold, VectorBits, Digits;
    Digit(7, 0x37, 0xa3a90925b2ab4903, 0xd5404a2f214499fc, 0x47824d362431ad45);
    Digit(8, 0x38, 0x47824d362431ad45, 0x33a6927c3cd8918c, 0x49ec20b315e86dc2);
    Digit(9, 0x39, 0x49ec20b315e86dc2, 0x162b506e04d7ffe9, 0xe9c6d914c4b8d9ca);
  }

  /** The checksum of "123456789" is e9c6d914c4b8d9ca. */
  lemma CheckValue()
    ensures Fold(Poly(), Zero(64), Digits(1)) == VectorBits(0xe9c6d914c4b8d9ca, 64)
  {
    hide Poly, VectorBits, Digits;
    VectorZero(64);
    FirstDigits();
    MiddleDigits();
    LastDigits();
    NoDigits();
  }

  lemma NoDigits()
    ensures Digits(10) == []
  {}
}
