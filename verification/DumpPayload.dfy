/** The version and checksum footer of DUMP payloads (cluster.c). */
module DumpPayload {
  import opened Common
  import opened Words
  import opened Crc64
  import CrcSpeed

  const RDB_VERSION: nat := 9

  // The checksum tables crc64.c keeps for the machine's byte order.
  ghost predicate Ready(t: array2<Word>, bigEndian: bool)
    reads t
  {
    CrcSpeed.NativeTable(CrcSpeed.Poly(), t, bigEndian)
  }

  // The eight bytes of a checksum as stored, least significant first.
  function Stored(crc: Word): (s: seq<Byte>)
    ensures |s| == 8
  {
    seq(8, k requires 0 <= k < 8 => CrcSpeed.ByteAt(crc, k))
  }

  function Checksum(data: seq<Byte>): Word { Fold(CrcSpeed.Poly(), Zero(64), data) }

  function Version(low: Byte, high: Byte): nat { NatOf(low) + 256 * NatOf(high) }

  // A payload is accepted exactly when it has a footer of a known version over a matching checksum.
  ghost predicate Accepted(p: seq<Byte>) {
    && |p| >= 10
    && Version(p[|p| - 10], p[|p| - 9]) <= RDB_VERSION
    && p[|p| - 8..] == Stored(Checksum(p[..|p| - 8]))
  }

  /** Appends the footer to a serialized object. */
  method CreateDumpPayload(t: array2<Word>, bigEndian: bool, address: nat, value: seq<Byte>)
    returns (payload: seq<Byte>)
    requires Ready(t, bigEndian)
    ensures |payload| == |value| + 10 && value <= payload
    ensures Version(payload[|value|], payload[|value| + 1]) == RDB_VERSION
    ensures payload[|value|] == ByteOf(RDB_VERSION) && payload[|value| + 1] == Zero(8)
    ensures Accepted(payload)
  {
    hide VectorBits, Fold, BitsOf;
    payload := value + [ByteOf(RDB_VERSION % 256), ByteOf(RDB_VERSION / 256 % 256)];
    ghost var covered := payload;
    var crc := CrcSpeed.Native(CrcSpeed.Poly(), t, bigEndian, Zero(64), payload, address);
    payload := payload + Stored(crc);
    assert payload[..|payload| - 8] == covered;
    assert payload[|payload| - 8..] == Stored(crc);
    VersionBytes();
    VersionStored();
  }

  lemma VersionBytes()
    ensures Version(ByteOf(RDB_VERSION % 256), ByteOf(RDB_VERSION / 256 % 256)) == RDB_VERSION
  {
    assert Pow2(8) == 256;
    NatOfBitsOf(RDB_VERSION % 256, 8);
    NatOfBitsOf(RDB_VERSION / 256 % 256, 8);
  }

  lemma VersionStored()
    ensures ByteOf(RDB_VERSION % 256) == ByteOf(RDB_VERSION) && ByteOf(RDB_VERSION / 256 % 256) == Zero(8)
  {
    hide BitsOf;
    ZeroBits(8);
  }

  lemma {:induction false} ZeroBits(w: nat)
    ensures BitsOf(0, w) == Zero(w)
  {
    if w > 0 {
      ZeroBits(w - 1);
    }
  }

  /** Accepts a payload; with checksum validation skipped only length and version count. */
  method VerifyDumpPayload(t: array2<Word>, bigEndian: bool, address: nat, p: seq<Byte>, skipChecksum: bool)
    returns (ok: bool)
    requires Ready(t, bigEndian)
    ensures !skipChecksum ==> ok == Accepted(p)
    ensures skipChecksum ==> ok == (|p| >= 10 && Version(p[|p| - 10], p[|p| - 9]) <= RDB_VERSION)
    ensures ok <==>
              && |p| >= 10 && NatOf(p[|p| - 10]) + 256 * NatOf(p[|p| - 9]) <= RDB_VERSION
              && (skipChecksum || Load(p[|p| - 8..]) == Fold(CrcSpeed.Poly(), Zero(64), p[..|p| - 8]))
  {
    hide VectorBits, Fold, NatOf;
    if |p| < 10 {
      return false;
    }
    var footer := p[|p| - 10..];
    if Version(footer[0], footer[1]) > RDB_VERSION {
      return false;
    }
    if skipChecksum {
      return true;
    }
    var crc := CrcSpeed.Native(CrcSpeed.Poly(), t, bigEndian, Zero(64), p[..|p| - 8], address);
    ok := Stored(crc) == footer[2..];
    assert footer[2..] == p[|p| - 8..];
    LoadStored(crc, 0);
    assert Stored(crc)[0..] == Stored(crc) && crc[0..] == crc;
    if Load(p[|p| - 8..]) == crc {
      LoadInjective(p[|p| - 8..], Stored(crc));
    }
  }

  lemma PolyOdd()
    ensures CrcSpeed.Poly()[0]
  {}

  lemma LoadStored(c: Word, k: nat)
    requires k <= 8
    ensures Load(Stored(c)[k..]) == c[8 * k..]
    decreases 8 - k
  {
    if k < 8 {
      LoadStored(c, k + 1);
      assert Stored(c)[k..][1..] == Stored(c)[k + 1..];
      assert Stored(c)[k..][0] == c[8 * k..8 * k + 8];
    }
  }

  lemma {:induction false} IterZero(p: Word, n: nat)
    ensures Iter(p, n, Zero(64)) == Zero(64)
    decreases n
  {
    if n > 0 {
      assert Step(p, Zero(64)) == Zero(64);
      IterZero(p, n - 1);
    }
  }

  // A checksum run on over its own stored bytes leaves nothing in the register.
  lemma FoldStored(p: Word, c: Word)
    ensures Fold(p, c, Stored(c)) == Zero(64)
  {
    hide Fold, Iter, Stored;
    var d := Stored(c);
    LoadStored(c, 0);
    assert d[0..] == d && LoadWord(d) == c;
    FoldWindow(p, c, d);
    assert Xor(c, c) == Zero(64);
    IterZero(p, 64);
  }

  // So the checksum of a whole accepted payload, its stored checksum included, is zero.
  lemma AcceptedFoldsToZero(p: seq<Byte>)
    requires Accepted(p)
    ensures Fold(CrcSpeed.Poly(), Zero(64), p) == Zero(64)
  {
    hide Fold, Stored, Version;
    var n := |p| - 8;
    assert p == p[..n] + p[n..];
    FoldAppend(CrcSpeed.Poly(), Zero(64), p[..n], p[n..]);
    FoldStored(CrcSpeed.Poly(), Checksum(p[..n]));
  }

  /** Corruption is always noticed when it stays within eight consecutive bytes, wherever they lie: in
      the value, the version, the stored checksum or across them. */
  lemma CorruptionDetected(p: seq<Byte>, q: seq<Byte>, from: nat, to: nat)
    requires Accepted(p)
    requires |q| == |p| && q != p
    requires from <= to <= |p| && to - from <= 8
    requires forall i | 0 <= i < |p| && !(from <= i < to) :: q[i] == p[i]
    ensures !Accepted(q)
  {
    hide Fold, Accepted;
    var pre, post := p[..from], p[to..];
    assert p == pre + p[from..to] + post;
    assert q == pre + q[from..to] + post;
    PolyOdd();
    BurstDetected(CrcSpeed.Poly(), Zero(64), pre, p[from..to], q[from..to], post);
    AcceptedFoldsToZero(p);
    if Accepted(q) { AcceptedFoldsToZero(q); }
  }

  /** Changing exactly one byte anywhere makes an accepted payload unacceptable. */
  lemma OneByteDetected(p: seq<Byte>, i: nat, b: Byte)
    requires Accepted(p)
    requires i < |p| && p[i] != b
    ensures !Accepted(p[i := b])
  {
    assert p[i := b][i] != p[i];
    CorruptionDetected(p, p[i := b], i, i + 1);
  }
}
