/**
 * The overflow rules and the execution loop of BITFIELD, against the rules as documented: unbounded
 * integers, kept in range by wrapping, saturating or refusing. (src/bitops.c)
 */
module BitFieldCommand {
  import opened Common
  import opened Words
  import opened BitField

  datatype Overflow = Wrap | Sat | Fail
  datatype Kind = Get | Set | IncrBy
  datatype Op = Op(kind: Kind, sign: bool, bits: nat, offset: nat, i64: int, overflow: Overflow)
  datatype Reply = Number(value: int) | Null

  predicate IsI64(x: int) { -TWO63 <= x < TWO63 }

  // What parsing lets through: u1 to u63 and i1 to i64.
  predicate OpOk(op: Op) {
    1 <= op.bits <= (if op.sign then 64 else 63) && IsI64(op.i64)
  }

  /** The type argument, "i" or "u" and a width: accepted exactly for the operations modelled here. */
  method GetBitfieldType(head: char, number: Option<int>) returns (r: Option<(bool, nat)>)
    ensures r.Some? <==> (head == 'i' || head == 'u') && number.Some?
                         && 1 <= number.value && (if head == 'i' then number.value <= 64 else number.value < 64)
    ensures r.Some? ==> r.value == (head == 'i', number.value)
    ensures forall op: Op | OpOk(op) && head == (if op.sign then 'i' else 'u') && number == Some(op.bits) :: r.Some?
    ensures forall op: Op | r == Some((op.sign, op.bits)) && IsI64(op.i64) :: OpOk(op)
  {
    if head != 'i' && head != 'u' {
      return None;
    }
    var sign := head == 'i';
    if number.None? || number.value < 1 || (!sign && number.value > 63) || (sign && number.value > 64) {
      return None;
    }
    return Some((sign, number.value));
  }

  function MinOf(sign: bool, bits: nat): int
    requires bits > 0
  {
    if sign then -(Pow2(bits - 1) as int) else 0
  }

  function MaxOf(sign: bool, bits: nat): int
    requires bits > 0
  {
    if sign then Pow2(bits - 1) - 1 else Pow2(bits) - 1
  }

  // ---- The documented behaviour ---------------------------------------------------------------

  function Resolve(op: Op, x: int): Option<int>
    requires op.bits > 0
  {
    if MinOf(op.sign, op.bits) <= x <= MaxOf(op.sign, op.bits) then Some(x) else
      match op.overflow
      case Wrap => Some(Fold(op.sign, op.bits, x))
      case Sat => Some(if x > MaxOf(op.sign, op.bits) then MaxOf(op.sign, op.bits) else MinOf(op.sign, op.bits))
      case Fail => None
  }

  // A saturating SET whose far too low value is taken for one that is too high: any negative value
  // of an unsigned field, and for a signed one the values for which max - value leaves 64 bits.
  predicate Misjudged(op: Op)
    requires op.bits > 0
  {
    op.kind == Set && op.overflow == Sat &&
    if op.sign then TooLow(op.bits, op.i64) else op.i64 < 0
  }

  predicate TooLow(bits: nat, value: int)
    requires bits > 0
  {
    bits < 64 && value < Pow2(bits - 1) - TWO63
  }

  // What the code stores; None when it refuses.
  function Stored(op: Op, x: int): Option<int>
    requires op.bits > 0
  {
    if Misjudged(op) then Some(MaxOf(op.sign, op.bits)) else Resolve(op, x)
  }

  ghost function ValueAt(t: iset<nat>, op: Op): int
    requires op.bits > 0
  {
    Fold(op.sign, op.bits, Read(t, op.offset, op.bits))
  }

  // One operation on the tape, as documented or as coded.
  ghost function Effect(t: iset<nat>, op: Op, documented: bool): (iset<nat>, Reply)
    requires op.bits > 0
  {
    var was := ValueAt(t, op);
    if op.kind == Get then (t, Number(was)) else
      var x := if op.kind == Set then op.i64 else was + op.i64;
      match if documented then Resolve(op, x) else Stored(op, x)
      case None => (t, Null)
      case Some(v) => (Write(t, op.offset, op.bits, v), Number(if op.kind == Set then was else v))
  }

  ghost function Run(t: iset<nat>, ops: seq<Op>, documented: bool): (iset<nat>, seq<Reply>)
    requires forall op | op in ops :: OpOk(op)
  {
    if ops == [] then (t, []) else
      var before := Run(t, ops[..|ops| - 1], documented);
      assert OpOk(ops[|ops| - 1]);
      var (t', reply) := Effect(before.0, ops[|ops| - 1], documented);
      (t', before.1 + [reply])
  }

  // ---- The law of one operation, on the values in the field ------------------------------------

  // GET replies the value and changes nothing. SET and INCRBY are after a number: if it fits, it is
  // the new value; if not, FAIL refuses with a null reply, WRAP stores the number of the range that
  // is congruent to it, SAT the nearest end, except for a misjudged SET. SET replies the old value,
  // INCRBY the new one. No other field changes.
  ghost predicate Obeys(op: Op, before: iset<nat>, after: iset<nat>, reply: Reply)
    requires op.bits > 0
  {
    var was, now := ValueAt(before, op), ValueAt(after, op);
    var x := if op.kind == Set then op.i64 else was + op.i64;
    var lo, hi := MinOf(op.sign, op.bits), MaxOf(op.sign, op.bits);
    if op.kind == Get then after == before && reply == Number(was)
    else if op.overflow == Fail && !(lo <= x <= hi) then after == before && reply == Null
    else
      && reply == Number(if op.kind == Set then was else now)
      && lo <= now <= hi
      && (lo <= x <= hi ==> now == x)
      && (op.overflow == Wrap ==> now % Pow2(op.bits) == x % Pow2(op.bits))
      && (op.overflow == Sat && x > hi ==> now == hi)
      && (op.overflow == Sat && x < lo ==> now == if Misjudged(op) then hi else lo)
      && Elsewhere(op, before, after)
  }

  ghost predicate Elsewhere(op: Op, before: iset<nat>, after: iset<nat>) {
    forall o: nat, n: nat | o + n <= op.offset || op.offset + op.bits <= o :: Read(after, o, n) == Read(before, o, n)
  }

  lemma EffectObeys(t: iset<nat>, op: Op)
    requires OpOk(op)
    ensures Obeys(op, t, Effect(t, op, false).0, Effect(t, op, false).1)
  {
    hide Read, Write, Pow2, Fold, Elsewhere;
    var was := ValueAt(t, op);
    var x := if op.kind == Set then op.i64 else was + op.i64;
    var v := Stored(op, x);
    if Misjudged(op) {
      MisjudgedIsLow(op);
    }
    RangeOrder(op.sign, op.bits);
    FoldInRange(op.sign, op.bits, x);
    if op.kind != Get && v.Some? {
      StoredReadsBack(t, op, v.value);
      WriteElsewhere(t, op, v.value);
    }
  }

  lemma RangeOrder(sign: bool, bits: nat)
    requires bits > 0
    ensures MinOf(sign, bits) <= MaxOf(sign, bits)
  {}

  lemma WriteElsewhere(t: iset<nat>, op: Op, v: int)
    ensures Elsewhere(op, t, Write(t, op.offset, op.bits, v))
  {
    ReadWrite(t, op.offset, op.bits, v);
  }

  /** Every operation of a command obeys the law on the string as its predecessors left it, and is
      answered in its turn. */
  lemma {:induction false} RunObeys(t: iset<nat>, ops: seq<Op>, k: nat)
    requires k < |ops| && forall op | op in ops :: OpOk(op)
    ensures |Run(t, ops, false).1| == |ops|
    ensures OpOk(ops[k]) && Obeys(ops[k], Run(t, ops[..k], false).0, Run(t, ops[..k + 1], false).0, Run(t, ops, false).1[k])
    decreases ops
  {
    hide Effect, Obeys;
    var n := |ops| - 1;
    RunLength(t, ops[..n]);
    if k < n {
      RunObeys(t, ops[..n], k);
      assert ops[..n][..k] == ops[..k] && ops[..n][..k + 1] == ops[..k + 1];
    } else {
      assert ops[..k + 1] == ops;
      EffectObeys(Run(t, ops[..k], false).0, ops[k]);
    }
  }

  lemma {:induction false} RunLength(t: iset<nat>, ops: seq<Op>)
    requires forall op | op in ops :: OpOk(op)
    ensures |Run(t, ops, false).1| == |ops|
  {
    hide Effect;
    if ops != [] {
      RunLength(t, ops[..|ops| - 1]);
    }
  }

  // ---- Where the code and the documentation part ------------------------------------------------

  /** Fold is the one number in range that is congruent to x. */
  lemma FoldInRange(sign: bool, bits: nat, x: int)
    requires bits > 0
    ensures MinOf(sign, bits) <= Fold(sign, bits, x) <= MaxOf(sign, bits)
    ensures MinOf(sign, bits) <= x <= MaxOf(sign, bits) ==> Fold(sign, bits, x) == x
    ensures Fold(sign, bits, x) % Pow2(bits) == x % Pow2(bits)
  {
    var p, m := Pow2(bits), x % Pow2(bits);
    ModOf(m, 0, m, p);
    ModOf(m - p, -1, m, p);
    assert p == 2 * Pow2(bits - 1);
    if 0 <= x < p { ModOf(x, 0, x, p); }
    if -p <= x < 0 { ModOf(x, -1, x + p, p); }
  }

  /** A stored value in range is the value read back, whatever else was there. */
  lemma StoredReadsBack(t: iset<nat>, op: Op, v: int)
    requires op.bits > 0 && MinOf(op.sign, op.bits) <= v <= MaxOf(op.sign, op.bits)
    ensures ValueAt(Write(t, op.offset, op.bits, v), op) == v
  {
    hide Read, Write;
    ReadWrite(t, op.offset, op.bits, v);
    FoldInRange(op.sign, op.bits, v);
    var m := v % Pow2(op.bits);
    ModOf(m, 0, m, Pow2(op.bits));
  }

  /** One operation does as documented exactly when it is not a misjudged saturating SET. */
  lemma AsDocumentedIff(t: iset<nat>, op: Op)
    requires OpOk(op)
    ensures Effect(t, op, false) == Effect(t, op, true) <==> !Misjudged(op)
  {
    hide Read, Write, Pow2;
    if Misjudged(op) {
      var lo, hi := MinOf(op.sign, op.bits), MaxOf(op.sign, op.bits);
      MisjudgedIsLow(op);
      StoredReadsBack(t, op, lo);
      StoredReadsBack(t, op, hi);
      assert Effect(t, op, false).0 == Write(t, op.offset, op.bits, hi);
      assert Effect(t, op, true).0 == Write(t, op.offset, op.bits, lo);
    }
  }

  /** SET u8 0 -1 under SAT: zero as documented, 255 as coded. */
  lemma NegativeSetSaturatesHigh(t: iset<nat>)
    ensures var op := Op(Set, false, 8, 0, -1, Sat);
            Effect(t, op, true).0 == Write(t, 0, 8, 0) && Effect(t, op, false).0 == Write(t, 0, 8, 255)
  {
    Pow2Eight();
  }

  /** SET i8 0 with the least 64-bit number under SAT: -128 as documented, 127 as coded. */
  lemma LeastSetSaturatesHigh(t: iset<nat>)
    ensures var op := Op(Set, true, 8, 0, -TWO63, Sat);
            Effect(t, op, true).0 == Write(t, 0, 8, -128) && Effect(t, op, false).0 == Write(t, 0, 8, 127)
  {
    Pow2Eight();
  }

  lemma MisjudgedIsLow(op: Op)
    requires OpOk(op) && Misjudged(op)
    ensures op.i64 < MinOf(op.sign, op.bits) < MaxOf(op.sign, op.bits)
  {
    Pow2Sixty();
    Pow2Mono(op.bits, 63);
  }

  /** A whole command without misjudged operations does as documented. */
  lemma {:induction false} RunAsDocumented(t: iset<nat>, ops: seq<Op>)
    requires forall op | op in ops :: OpOk(op) && !Misjudged(op)
    ensures Run(t, ops, false) == Run(t, ops, true)
  {
    hide Effect;
    if ops != [] {
      RunAsDocumented(t, ops[..|ops| - 1]);
      AsDocumentedIff(Run(t, ops[..|ops| - 1], true).0, ops[|ops| - 1]);
    }
  }

  // ---- The checks -------------------------------------------------------------------------------

  lemma Cast(x: int)
    requires -TWO64 <= x < TWO64
    ensures ToI64(x) == if x >= TWO63 then x - TWO64 else if x < -TWO63 then x + TWO64 else x
  {}

  method CheckUnsignedBitfieldOverflow(value: nat, incr: int, bits: nat, owtype: Overflow, limit0: nat)
    returns (r: int, limit: nat)
    requires 1 <= bits <= 63 && value < TWO64 && IsI64(incr)
    ensures r == if value > MaxOf(false, bits) || value + incr > MaxOf(false, bits) then 1
                 else if value + incr >= 0 then 0
                 else if owtype == Wrap then 1 else -1
    ensures limit == if r == 0 || owtype == Fail then limit0
                     else if owtype == Wrap then Fold(false, bits, value + incr)
                     else if r == 1 then MaxOf(false, bits) else 0
  {
    hide Pow2, ToI64, Fold;
    SignedWidths(bits);
    var max := Pow2(bits) - 1;
    Cast(max - value);
    Cast(0 - value as int);
    var maxincr := ToI64(max - value);
    var minincr := ToI64(0 - value as int);
    limit := limit0;
    if value > max || (incr > 0 && incr > maxincr) {
      r := 1;
      if owtype == Sat { limit := max; }
    } else if incr < 0 && incr < minincr {
      r := if owtype == Wrap then 1 else -1;
      if owtype == Sat { limit := 0; }
    } else {
      return 0, limit;
    }
    if owtype == Wrap {
      limit := WrapUnsigned(value + incr, bits);
    }
  }

  method CheckSignedBitfieldOverflow(value: int, incr: int, bits: nat, owtype: Overflow, limit0: int)
    returns (r: int, limit: int)
    requires 1 <= bits <= 64 && IsI64(value) && IsI64(incr)
    requires incr == 0 || MinOf(true, bits) <= value <= MaxOf(true, bits)
    ensures r == if value + incr > MaxOf(true, bits) || TooLow(bits, value) then 1
                 else if value + incr >= MinOf(true, bits) then 0
                 else if owtype == Wrap then 1 else -1
    ensures limit == if r == 0 || owtype == Fail then limit0
                     else if owtype == Wrap then Fold(true, bits, value + incr)
                     else if r == 1 then MaxOf(true, bits) else MinOf(true, bits)
  {
    hide Pow2, Fold, ToI64;
    SignedWidths(bits);
    var max := Pow2(bits - 1) - 1;
    var min := -max - 1;
    Cast(max - value);
    Cast(min - value);
    var maxincr := ToI64(max - value);
    var minincr := ToI64(min - value);
    limit := limit0;
    if value > max || (bits != 64 && incr > maxincr) || (value >= 0 && incr > 0 && incr > maxincr) {
      r := 1;
      if owtype == Sat { limit := max; }
    } else if value < min || (bits != 64 && incr < minincr) || (value < 0 && incr < 0 && incr < minincr) {
      r := if owtype == Wrap then 1 else -1;
      if owtype == Sat { limit := min; }
    } else {
      return 0, limit;
    }
    if owtype == Wrap {
      limit := WrapSigned(value + incr, bits);
    }
  }

  method WrapUnsigned(sum: int, bits: nat) returns (limit: nat)
    requires 1 <= bits <= 63
    ensures limit == Fold(false, bits, sum)
  {
    ModMod(sum, bits);
    limit := ToU64(sum) % Pow2(bits);
  }

  method WrapSigned(sum: int, bits: nat) returns (limit: int)
    requires 1 <= bits <= 64
    ensures limit == Fold(true, bits, sum)
  {
    hide Pow2, ToI64;
    var c := ToU64(sum);
    ModMod(sum, bits);
    SignedWidths(bits);
    if bits < 64 {
      BitTop(c, bits - 1);
      SignExtends(c % Pow2(bits), Pow2(bits));
      if BitAt(c, bits - 1) {
        c := c % Pow2(bits) + (TWO64 - Pow2(bits));
      } else {
        c := c % Pow2(bits);
      }
    } else {
      SignExtends(c, TWO64);
    }
    limit := ToI64(c);
  }

  // ---- The command ------------------------------------------------------------------------------

  // The number an operation is after, given the value in the field.
  function Wish(op: Op, was: int): int { if op.kind == Set then op.i64 else was + op.i64 }

  // The value to store and the reply; stored is false when the operation is refused.
  method ComputeSigned(op: Op, oldval: int) returns (stored: bool, newval: int, retval: int)
    requires OpOk(op) && op.sign && op.kind != Get && MinOf(true, op.bits) <= oldval <= MaxOf(true, op.bits)
    ensures Stored(op, Wish(op, oldval)) == if stored then Some(newval) else None
    ensures stored ==> retval == if op.kind == Set then oldval else newval
  {
    hide Pow2, Fold, ToI64;
    SignedWidths(op.bits);
    var overflow: int;
    var wrapped: int := *;
    if op.kind == IncrBy {
      Cast(oldval + op.i64);
      newval := ToI64(oldval + op.i64);
      overflow, wrapped := CheckSignedBitfieldOverflow(oldval, op.i64, op.bits, op.overflow, wrapped);
      if overflow != 0 { newval := wrapped; }
      retval := newval;
    } else {
      newval := op.i64;
      overflow, wrapped := CheckSignedBitfieldOverflow(newval, 0, op.bits, op.overflow, wrapped);
      if overflow != 0 { newval := wrapped; }
      retval := oldval;
    }
    stored := !(overflow != 0 && op.overflow == Fail);
  }

  method ComputeUnsigned(op: Op, oldval: nat) returns (stored: bool, newval: nat, retval: nat)
    requires OpOk(op) && !op.sign && op.kind != Get && oldval <= MaxOf(false, op.bits)
    ensures newval < TWO64 || !stored
    ensures Stored(op, Wish(op, oldval)) == if stored then Some(newval as int) else None
    ensures stored ==> retval == if op.kind == Set then oldval else newval
  {
    hide Pow2, Fold, ToU64;
    SignedWidths(op.bits);
    FoldWord(op.bits, op.i64);
    FoldInRange(false, op.bits, Wish(op, oldval));
    SmallWord(oldval + op.i64);
    SmallWord(op.i64);
    var overflow: int;
    var wrapped: nat := *;
    if op.kind == IncrBy {
      newval := ToU64(oldval + op.i64);
      overflow, wrapped := CheckUnsignedBitfieldOverflow(oldval, op.i64, op.bits, op.overflow, wrapped);
      if overflow != 0 { newval := wrapped; }
      retval := newval;
    } else {
      newval := ToU64(op.i64);
      overflow, wrapped := CheckUnsignedBitfieldOverflow(newval, 0, op.bits, op.overflow, wrapped);
      if overflow != 0 { newval := wrapped; }
      retval := oldval;
    }
    stored := !(overflow != 0 && op.overflow == Fail);
  }

  lemma SmallWord(x: int)
    requires -TWO63 <= x < TWO64
    ensures ToU64(x) == if x < 0 then x + TWO64 else x
  {}

  lemma FoldWord(bits: nat, x: int)
    requires 0 < bits <= 64
    ensures Fold(false, bits, ToU64(x)) == Fold(false, bits, x)
  {
    ModMod(x, bits);
  }

  method ApplySigned(p: array<Byte>, op: Op) returns (reply: Reply)
    requires OpOk(op) && op.sign && op.kind != Get && op.offset + op.bits <= 8 * p.Length
    modifies p
    ensures (Tape(p[..]), reply) == Effect(old(Tape(p[..])), op, false)
    ensures Obeys(op, old(Tape(p[..])), Tape(p[..]), reply)
  {
    hide Read, Write, Tape, Pow2, Fold, Stored, Resolve, Obeys;
    EffectObeys(Tape(p[..]), op);
    var oldval := GetSignedBitfield(p, op.offset, op.bits);
    FoldInRange(true, op.bits, Read(Tape(p[..]), op.offset, op.bits));
    var stored, newval, retval := ComputeSigned(op, oldval);
    if stored {
      reply := Number(retval);
      SetSignedBitfield(p, op.offset, op.bits, newval);
    } else {
      reply := Null;
    }
  }

  method ApplyUnsigned(p: array<Byte>, op: Op) returns (reply: Reply)
    requires OpOk(op) && !op.sign && op.kind != Get && op.offset + op.bits <= 8 * p.Length
    modifies p
    ensures (Tape(p[..]), reply) == Effect(old(Tape(p[..])), op, false)
    ensures Obeys(op, old(Tape(p[..])), Tape(p[..]), reply)
  {
    hide Read, Write, Tape, Pow2, Fold, Stored, Resolve, Obeys;
    EffectObeys(Tape(p[..]), op);
    var oldval := GetUnsignedBitfield(p, op.offset, op.bits);
    FoldInRange(false, op.bits, oldval);
    var stored, newval, retval := ComputeUnsigned(op, oldval);
    if stored {
      reply := Number(retval);
      SetUnsignedBitfield(p, op.offset, op.bits, newval);
    } else {
      reply := Null;
    }
  }

  // A zero padded copy of the nine bytes from position `byte` on.
  method CopyWindow(src: array<Byte>, byte: nat) returns (buf: array<Byte>)
    ensures buf.Length == 9
    ensures forall k | 0 <= k < 9 :: buf[k] == if k + byte < src.Length then src[k + byte] else Zero(8)
  {
    var zero: Byte := Zero(8);
    buf := new Byte[9](_ => zero);
    var i := 0;
    while i < 9 && i + byte < src.Length
      invariant 0 <= i <= 9
      invariant i == 0 || i + byte <= src.Length
      invariant forall k | 0 <= k < 9 :: buf[k] == if k < i then src[k + byte] else zero
    {
      buf[i] := src[i + byte];
      i := i + 1;
    }
  }

  // The field is read from a copy of the bytes it can touch.
  method ApplyGet(src: array<Byte>, op: Op) returns (reply: Reply)
    requires OpOk(op) && op.kind == Get
    ensures (Tape(src[..]), reply) == Effect(Tape(src[..]), op, false)
    ensures reply == Number(ValueAt(Tape(src[..]), op))
  {
    hide Resolve, Write, Read, Tape, Pow2, Fold;
    var byte := op.offset / 8;
    var buf := CopyWindow(src, byte);
    WindowReads(src[..], buf[..], op.offset, op.bits);
    var val: int;
    if op.sign {
      val := GetSignedBitfield(buf, op.offset - byte * 8, op.bits);
    } else {
      val := GetUnsignedBitfield(buf, op.offset - byte * 8, op.bits);
      FoldInRange(false, op.bits, val);
    }
    reply := Number(val);
  }

  lemma WindowReads(s: seq<Byte>, w: seq<Byte>, offset: nat, bits: nat)
    requires bits <= 64 && |w| == 9
    requires forall k | 0 <= k < 9 :: w[k] == if k + offset / 8 < |s| then s[k + offset / 8] else Zero(8)
    ensures Read(Tape(w), offset % 8, bits) == Read(Tape(s), offset, bits)
  {
    hide Read;
    forall i: nat | i < bits ensures Has(Tape(w), offset % 8, i) == Has(Tape(s), offset, i) {
      var k := (offset % 8 + i) / 8;
      assert (offset + i) / 8 == offset / 8 + k && (offset + i) % 8 == (offset % 8 + i) % 8;
      assert w[k] == if k + offset / 8 < |s| then s[k + offset / 8] else Zero(8);
    }
    ReadSame(Tape(w), offset % 8, Tape(s), offset, bits);
  }

  method GrowForBits(src: array<Byte>, maxbit: nat) returns (dst: array<Byte>)
    ensures Tape(dst[..]) == Tape(src[..])
    ensures dst.Length >= src.Length && maxbit < 8 * dst.Length
    ensures dst == src || fresh(dst)
  {
    var size := maxbit / 8 + 1;
    if size <= src.Length { return src; }
    var zero: Byte := Zero(8);
    dst := new Byte[size](i requires 0 <= i < size reads src => if i < src.Length then src[i] else zero);
    forall k: nat ensures k in Tape(dst[..]) <==> k in Tape(src[..]) {
      if k / 8 < size { assert dst[k / 8] == if k / 8 < src.Length then src[k / 8] else zero; }
    }
  }

  ghost predicate Writes(ops: seq<Op>) { exists op :: op in ops && op.kind != Get }

  /** BITFIELD, and BITFIELD_RO when readOnly is set, on the bytes of the string at the key. */
  method Bitfield(src: array<Byte>, ops: seq<Op>, readOnly: bool)
    returns (ok: bool, dst: array<Byte>, replies: seq<Reply>)
    requires forall op | op in ops :: OpOk(op)
    modifies src
    ensures ok <==> !(readOnly && Writes(ops))
    ensures ok ==> (Tape(dst[..]), replies) == Run(old(Tape(src[..])), ops, false)
    ensures !ok ==> src[..] == old(src[..])
    ensures dst == src || (Writes(ops) && fresh(dst))
  {
    hide Effect, Tape;
    var highest, writes := 0, false;
    for j := 0 to |ops|
      invariant src[..] == old(src[..])
      invariant writes <==> Writes(ops[..j])
      invariant forall k | 0 <= k < j && ops[k].kind != Get :: ops[k].offset + ops[k].bits - 1 <= highest
    {
      assert ops[..j + 1] == ops[..j] + [ops[j]];
      if ops[j].kind != Get {
        writes := true;
        if highest < ops[j].offset + ops[j].bits - 1 { highest := ops[j].offset + ops[j].bits - 1; }
        assert ops[j] in ops[..j + 1];
      }
    }
    assert ops[..|ops|] == ops;
    dst, replies := src, [];
    if writes {
      if readOnly { return false, src, []; }
      dst := GrowForBits(src, highest);
    }
    ok := true;
    ghost var t := old(Tape(src[..]));
    for j := 0 to |ops|
      invariant dst == src || fresh(dst)
      invariant (Tape(dst[..]), replies) == Run(t, ops[..j], false)
    {
      assert ops[..j + 1][..j] == ops[..j];
      ghost var before := Tape(dst[..]);
      var reply;
      if ops[j].kind == Get {
        reply := ApplyGet(dst, ops[j]);
      } else if ops[j].sign {
        reply := ApplySigned(dst, ops[j]);
      } else {
        reply := ApplyUnsigned(dst, ops[j]);
      }
      assert (Tape(dst[..]), reply) == Effect(before, ops[j], false);
      replies := replies + [reply];
    }
    assert ops[..|ops|] == ops;
  }
}
