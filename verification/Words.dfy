/** Machine words as bit strings, least significant bit first. */
module Words {
  import opened Common

  type Bits = seq<bool>
  type Byte = b: Bits | |b| == 8 witness Zero(8)
  type Word = w: Bits | |w| == 64 witness Zero(64)

  function Zero(n: nat): Bits { seq(n, _ => false) }

  function Xor(x: Bits, y: Bits): (r: Bits)
    requires |x| == |y|
    ensures |r| == |x|
  {
    seq(|x|, i requires 0 <= i < |x| => x[i] != y[i])
  }

  function Shr(x: Bits, k: nat): (r: Bits)
    requires k <= |x|
    ensures |r| == |x|
  {
    x[k..] + Zero(k)
  }

  function Shl(x: Bits, k: nat): (r: Bits)
    requires k <= |x|
    ensures |r| == |x|
  {
    Zero(k) + x[..|x| - k]
  }

  /** Zero extension of a byte. */
  function Extend(b: Byte): Word { b + Zero(56) }

  function Reverse(x: Bits): (r: Bits)
    ensures |r| == |x|
  {
    seq(|x|, i requires 0 <= i < |x| => x[|x| - 1 - i])
  }

  function NatOf(x: Bits): (n: nat)
    ensures n < Pow2(|x|)
  {
    if x == [] then 0 else (if x[0] then 1 else 0) + 2 * NatOf(x[1..])
  }

  function BitsOf(n: nat, w: nat): (x: Bits)
    ensures |x| == w
  {
    if w == 0 then [] else [n % 2 == 1] + BitsOf(n / 2, w - 1)
  }

  lemma {:induction false} BitsOfNatOf(x: Bits)
    ensures BitsOf(NatOf(x), |x|) == x
  {
    if x != [] {
      BitsOfNatOf(x[1..]);
    }
  }

  lemma {:induction false} NatOfBitsOf(n: nat, w: nat)
    requires n < Pow2(w)
    ensures NatOf(BitsOf(n, w)) == n
  {
    if w > 0 {
      NatOfBitsOf(n / 2, w - 1);
      assert BitsOf(n, w)[1..] == BitsOf(n / 2, w - 1);
    }
  }

  function ByteOf(n: nat): Byte { BitsOf(n, 8) }

  function IsOdd(x: bv64): bool { x & 1 == 1 }

  function Half(x: bv64): bv64 { x >> 1 }

  // The low `n` bits of a constant.
  function VectorBits(x: bv64, n: nat): (r: Bits)
    ensures |r| == n
    decreases n
  {
    if n == 0 then [] else [IsOdd(x)] + VectorBits(Half(x), n - 1)
  }

  lemma XorAssoc(x: Bits, y: Bits, z: Bits)
    requires |x| == |y| == |z|
    ensures Xor(Xor(x, y), z) == Xor(x, Xor(y, z))
  {}

  lemma XorCancel(x: Bits, y: Bits, z: Bits)
    requires |x| == |y| == |z|
    requires Xor(x, y) == Xor(x, z)
    ensures y == z
  {
    forall i | 0 <= i < |y| ensures y[i] == z[i] {
      assert Xor(x, y)[i] == Xor(x, z)[i];
    }
  }

  lemma XorCancelRight(x: Bits, y: Bits, z: Bits)
    requires |x| == |y| == |z|
    requires Xor(x, z) == Xor(y, z)
    ensures x == y
  {
    forall i | 0 <= i < |y| ensures x[i] == y[i] {
      assert Xor(x, z)[i] == Xor(y, z)[i];
    }
  }
}
