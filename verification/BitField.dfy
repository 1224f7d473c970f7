/**
 * BITFIELD: integers of 1 to 64 bits at any bit offset of a byte string, with wrapping, saturating
 * and failing overflow. The bytes, the 64-bit arithmetic and the nine byte window of GET are proved
 * to act as unbounded integers on an endless tape of bits. (src/bitops.c)
 */
module BitField {
  import opened Common
  import opened Words

  const TWO63: int := 0x8000_0000_0000_0000
  const TWO64: int := 0x1_0000_0000_0000_0000

  // ---- Arithmetic ---------------------------------------------------------------------------

  // Bit i of v in two's complement.
  predicate BitAt(v: int, i: nat)
    decreases i
  {
    if i == 0 then v % 2 == 1 else BitAt(v / 2, i - 1)
  }

  // The uint64_t and the int64_t with the same bits as x.
  function ToU64(x: int): (r: nat)
    ensures r < TWO64
  {
    x % TWO64
  }

  function ToI64(x: int): (r: int)
    ensures -TWO63 <= r < TWO63
  {
    var m := x % TWO64;
    if m >= TWO63 then m - TWO64 else m
  }

  lemma {:induction false} Pow2Sum(a: nat, b: nat)
    ensures Pow2(a + b) == Pow2(a) * Pow2(b)
  {
    if a > 0 { Pow2Sum(a - 1, b); }
  }

  lemma Pow2Sixty()
    ensures Pow2(63) == TWO63 && Pow2(64) == TWO64
  {
    hide Pow2;
    Pow2Eight();
    Pow2Sum(8, 8);
    Pow2Sum(16, 16);
    Pow2Sum(32, 32);
    Pow2Sum(1, 63);
  }

  lemma Pow2Eight()
    ensures Pow2(1) == 2 && Pow2(8) == 256
  {}

  lemma Pow2Mono(a: nat, b: nat)
    requires a <= b
    ensures Pow2(a) <= Pow2(b)
    decreases b
  {
    if a < b { Pow2Mono(a, b - 1); }
  }

  lemma HalfMod(v: int, p: nat)
    requires p > 0
    ensures (v % (2 * p)) / 2 == (v / 2) % p && (v % (2 * p)) % 2 == v % 2
  {
    var q, r := v / (2 * p), v % (2 * p);
    assert v == q * (2 * p) + r;
    assert q * (2 * p) == 2 * (q * p);
    assert v / 2 == q * p + r / 2;
    ModOf(v / 2, q, r / 2, p);
  }

  lemma ModOf(v: int, q: int, r: int, p: nat)
    requires p > 0 && 0 <= r < p && v == q * p + r
    ensures v % p == r && v / p == q
  {
    var q2, r2 := v / p, v % p;
    assert v == q2 * p + r2;
    assert (q - q2) * p == r2 - r;
    Multiple(q - q2, p);
  }

  lemma Multiple(d: int, p: nat)
    ensures d > 0 ==> d * p >= p
    ensures d < 0 ==> d * p + p <= 0
  {
    if d > 0 {
      Product(d - 1, p);
      assert d * p == (d - 1) * p + p;
    } else if d < 0 {
      Product(-d - 1, p);
      assert -(d * p) == (-d - 1) * p + p;
    }
  }

  lemma Product(a: nat, b: nat)
    ensures a * b >= 0
  {}

  lemma ModMod(x: int, n: nat)
    requires n <= 64
    ensures (x % TWO64) % Pow2(n) == x % Pow2(n)
  {
    hide Pow2;
    Pow2Sixty();
    Pow2Sum(64 - n, n);
    var p, k := Pow2(n), Pow2(64 - n);
    var q, m := x / TWO64, x % TWO64;
    var q2, r := m / p, m % p;
    Distribute(q, k, p, q2);
    assert x == q * (k * p) + q2 * p + r;
    ModOf(x, q * k + q2, r, p);
  }

  lemma Distribute(q: int, k: int, p: int, q2: int)
    ensures q * (k * p) + q2 * p == (q * k + q2) * p
  {}

  lemma {:induction false} BitMod(v: int, w: nat, i: nat)
    requires i < w
    ensures BitAt(v % Pow2(w), i) == BitAt(v, i)
    decreases i
  {
    HalfMod(v, Pow2(w - 1));
    if i > 0 { BitMod(v / 2, w - 1, i - 1); }
  }

  lemma {:induction false} BitTop(v: int, n: nat)
    ensures BitAt(v, n) <==> v % Pow2(n + 1) >= Pow2(n)
    decreases n
  {
    HalfMod(v, Pow2(n));
    if n > 0 { BitTop(v / 2, n - 1); }
  }

  // ---- The tape -----------------------------------------------------------------------------

  // The positions holding a one; the first position is the top bit of the first byte.
  ghost function Tape(s: seq<Byte>): iset<nat> {
    iset k: nat | k / 8 < |s| && s[k / 8][7 - k % 8]
  }

  ghost function Read(t: iset<nat>, offset: nat, bits: nat): (v: nat)
    ensures v < Pow2(bits)
  {
    if bits == 0 then 0 else 2 * Read(t, offset, bits - 1) + if offset + bits - 1 in t then 1 else 0
  }

  ghost function Write(t: iset<nat>, offset: nat, bits: nat, v: int): iset<nat> {
    iset k: nat | if offset <= k < offset + bits then BitAt(v, offset + bits - 1 - k) else k in t
  }

  ghost predicate Has(t: iset<nat>, offset: nat, i: nat) { offset + i in t }

  lemma {:induction false} ReadSame(t: iset<nat>, o: nat, t': iset<nat>, o': nat, bits: nat)
    requires forall i: nat | i < bits :: Has(t, o, i) == Has(t', o', i)
    ensures Read(t, o, bits) == Read(t', o', bits)
  {
    if bits > 0 {
      ReadSame(t, o, t', o', bits - 1);
      assert Has(t, o, bits - 1) == Has(t', o', bits - 1);
    }
  }

  lemma {:induction false} ReadBits(t: iset<nat>, offset: nat, bits: nat, v: int)
    requires forall i: nat | i < bits :: Has(t, offset, i) == BitAt(v, bits - 1 - i)
    ensures Read(t, offset, bits) == v % Pow2(bits)
    decreases bits
  {
    if bits > 0 {
      forall i: nat | i < bits - 1 ensures Has(t, offset, i) == BitAt(v / 2, bits - 2 - i) {
        assert Has(t, offset, i) == BitAt(v, bits - 1 - i);
      }
      ReadBits(t, offset, bits - 1, v / 2);
      HalfMod(v, Pow2(bits - 1));
      assert Has(t, offset, bits - 1) == BitAt(v, 0);
    }
  }

  /** A field reads back the low bits of what was written, and no other field changes. */
  lemma ReadWrite(t: iset<nat>, offset: nat, bits: nat, v: int)
    ensures Read(Write(t, offset, bits, v), offset, bits) == v % Pow2(bits)
    ensures forall o: nat, n: nat | o + n <= offset || offset + bits <= o ::
      Read(Write(t, offset, bits, v), o, n) == Read(t, o, n)
  {
    ReadBits(Write(t, offset, bits, v), offset, bits, v);
    forall o: nat, n: nat | o + n <= offset || offset + bits <= o
      ensures Read(Write(t, offset, bits, v), o, n) == Read(t, o, n)
    {
      ReadSame(Write(t, offset, bits, v), o, t, o, n);
    }
  }

  lemma WriteMod(t: iset<nat>, offset: nat, bits: nat, v: int, w: nat)
    requires bits <= w
    ensures Write(t, offset, bits, v % Pow2(w)) == Write(t, offset, bits, v)
  {
    forall i: nat | i < bits ensures BitAt(v % Pow2(w), i) == BitAt(v, i) {
      BitMod(v, w, i);
    }
  }

  lemma TapeUpdate(s: seq<Byte>, k: nat, b: bool)
    requires k / 8 < |s|
    ensures Tape(s[k / 8 := s[k / 8][7 - k % 8 := b]]) == if b then Tape(s) + iset{k} else Tape(s) - iset{k}
  {
    var s' := s[k / 8 := s[k / 8][7 - k % 8 := b]];
    forall j: nat ensures j in Tape(s') <==> if j == k then b else j in Tape(s) {
      if j / 8 == k / 8 && j != k { assert j % 8 != k % 8; }
    }
  }

  // ---- Fields of a byte string ----------------------------------------------------------------

  method SetUnsignedBitfield(p: array<Byte>, offset: nat, bits: nat, value: nat)
    requires bits <= 64 && value < TWO64 && offset + bits <= 8 * p.Length
    modifies p
    ensures Tape(p[..]) == Write(old(Tape(p[..])), offset, bits, value)
  {
    ghost var t := Tape(p[..]);
    for j := 0 to bits
      invariant forall k: nat :: k in Tape(p[..]) <==>
        if offset <= k < offset + j then BitAt(value, offset + bits - 1 - k) else k in t
    {
      var bitval := BitAt(value, bits - 1 - j);
      var byte := (offset + j) / 8;
      var bit := 7 - (offset + j) % 8;
      TapeUpdate(p[..], offset + j, bitval);
      ghost var was := p[..];
      p[byte] := p[byte][bit := bitval];
      assert p[..] == was[byte := was[byte][bit := bitval]];
    }
  }

  method SetSignedBitfield(p: array<Byte>, offset: nat, bits: nat, value: int)
    requires bits <= 64 && offset + bits <= 8 * p.Length
    modifies p
    ensures Tape(p[..]) == Write(old(Tape(p[..])), offset, bits, value)
  {
    SetUnsignedBitfield(p, offset, bits, ToU64(value));
    WriteMod(old(Tape(p[..])), offset, bits, value, 64);
    Pow2Sixty();
  }

  lemma ReadNone(t: iset<nat>, offset: nat)
    ensures Read(t, offset, 0) == 0
  {}

  lemma ReadNext(t: iset<nat>, offset: nat, j: nat)
    requires j < 64
    ensures 2 * Read(t, offset, j) + (if offset + j in t then 1 else 0) == Read(t, offset, j + 1) < TWO64
  {
    Pow2Mono(j + 1, 64);
    Pow2Sixty();
  }

  method GetUnsignedBitfield(p: array<Byte>, offset: nat, bits: nat) returns (value: nat)
    requires bits <= 64 && offset + bits <= 8 * p.Length
    ensures value == Read(Tape(p[..]), offset, bits)
  {
    hide Read;
    value := 0;
    ReadNone(Tape(p[..]), offset);
    for j := 0 to bits
      invariant value == Read(Tape(p[..]), offset, j)
    {
      var bitval := p[(offset + j) / 8][7 - (offset + j) % 8];
      ReadNext(Tape(p[..]), offset, j);
      assert offset + j in Tape(p[..]) <==> bitval;
      value := (2 * value + if bitval then 1 else 0) % TWO64;
    }
  }

  // The two's complement reading of the low bits of x.
  function Fold(sign: bool, bits: nat, x: int): (r: int)
    requires bits > 0
  {
    var m := x % Pow2(bits);
    if sign && m >= Pow2(bits - 1) then m - Pow2(bits) else m
  }

  lemma SignedWidths(bits: nat)
    requires 1 <= bits <= 64
    ensures Pow2(bits) == 2 * Pow2(bits - 1)
    ensures Pow2(bits) <= if bits < 64 then TWO63 else TWO64
    ensures bits == 64 ==> Pow2(bits) == TWO64
  {
    Pow2Sixty();
    Pow2Mono(bits, if bits < 64 then 63 else 64);
  }

  lemma SignExtends(m: int, p: int)
    requires 0 <= m < p && (p <= TWO63 || p == TWO64)
    ensures p <= TWO63 ==> ToI64(m) == m && (2 * m >= p ==> ToI64(m + (TWO64 - p)) == m - p)
    ensures p == TWO64 ==> ToI64(m) == if 2 * m >= p then m - p else m
  {}

  method GetSignedBitfield(p: array<Byte>, offset: nat, bits: nat) returns (value: int)
    requires 0 < bits <= 64 && offset + bits <= 8 * p.Length
    ensures value == Fold(true, bits, Read(Tape(p[..]), offset, bits))
  {
    hide Pow2, ToI64, Read, Tape, BitAt;
    var u := GetUnsignedBitfield(p, offset, bits);
    ModOf(u, 0, u, Pow2(bits));
    SignedWidths(bits);
    SignExtends(u, Pow2(bits));
    value := ToI64(u);
    if bits < 64 {
      BitTop(u, bits - 1);
      if BitAt(u, bits - 1) {
        value := ToI64(u % Pow2(bits) + (TWO64 - Pow2(bits)));
      }
    }
  }
}
