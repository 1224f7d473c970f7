/** The command format of the append only file: what aof.c writes and how it is read back. */
module AofFormat {

  type Bytes = string
  type Argv = seq<string>

  const CRLF: Bytes := "\r\n"

  // Decimal numbers.

  function Digit(d: nat): char
    requires d < 10
  {
    '0' + d as char
  }

  predicate IsDigit(c: char) { '0' <= c <= '9' }

  function DigitValue(c: char): nat
    requires IsDigit(c)
  {
    c as int - '0' as int
  }

  function Decimal(n: nat): (s: Bytes)
    ensures s != [] && forall i | 0 <= i < |s| :: IsDigit(s[i])
  {
    if n < 10 then [Digit(n)] else Decimal(n / 10) + [Digit(n % 10)]
  }

  // The digits `s` starts with, read from the left into `acc`, as atoi and strtol do.
  function ReadDigits(s: Bytes, acc: nat): nat {
    if s == [] || !IsDigit(s[0]) then acc else ReadDigits(s[1..], 10 * acc + DigitValue(s[0]))
  }

  predicate IsSpace(c: char) { c == ' ' || '\t' <= c <= '\r' }

  function Atoi(s: Bytes): int {
    if s == [] then 0
    else if IsSpace(s[0]) then Atoi(s[1..])
    else if s[0] == '-' then -(ReadDigits(s[1..], 0) as int)
    else if s[0] == '+' then ReadDigits(s[1..], 0)
    else ReadDigits(s, 0)
  }

  lemma {:induction false} ReadDigitsAppend(s: Bytes, t: Bytes, acc: nat)
    requires forall i | 0 <= i < |s| :: IsDigit(s[i])
    ensures ReadDigits(s + t, acc) == ReadDigits(t, ReadDigits(s, acc))
    decreases s
  {
    if s == [] {
      assert s + t == t;
    } else {
      assert (s + t)[1..] == s[1..] + t;
      ReadDigitsAppend(s[1..], t, 10 * acc + DigitValue(s[0]));
    }
  }

  lemma {:induction false} ReadDecimal(n: nat)
    ensures ReadDigits(Decimal(n), 0) == n
  {
    if n >= 10 {
      ReadDecimal(n / 10);
      ReadDigitsAppend(Decimal(n / 10), [Digit(n % 10)], 0);
    }
  }

  /** A written number is read back, whatever non-digit follows it. */
  lemma AtoiDecimal(n: nat, rest: Bytes)
    requires rest == [] || !IsDigit(rest[0])
    ensures Atoi(Decimal(n) + rest) == n
  {
    ReadDecimal(n);
    ReadDigitsAppend(Decimal(n), rest, 0);
    assert IsDigit((Decimal(n) + rest)[0]);
  }

  /** As in C: white space and a sign may come first, and what begins with anything else but a digit is
      zero. */
  lemma {:induction false} AtoiAny(space: Bytes, sign: Bytes, n: nat, rest: Bytes)
    requires forall i | 0 <= i < |space| :: space[i] as int == 32 || 9 <= space[i] as int <= 13
    requires sign in ["", "+", "-"] && (rest == [] || !IsDigit(rest[0]))
    ensures Atoi(space + (sign + (Decimal(n) + rest))) == if sign == "-" then -(n as int) else n
    decreases space
  {
    var number := Decimal(n) + rest;
    if space == [] {
      assert space + (sign + number) == sign + number;
      AtoiDecimal(n, rest);
      assert IsDigit(number[0]);
      ReadDecimal(n);
      ReadDigitsAppend(Decimal(n), rest, 0);
      if sign == "" {
        assert sign + number == number;
      } else {
        assert (sign + number)[1..] == number;
      }
    } else {
      AtoiAny(space[1..], sign, n, rest);
      assert (space + (sign + number))[1..] == space[1..] + (sign + number);
    }
  }

  lemma AtoiOther(c: char, rest: Bytes)
    requires !('0' <= c <= '9') && c != '+' && c != '-' && c as int != 32 && !(9 <= c as int <= 13)
    ensures Atoi([c] + rest) == 0
  {}

  function Pow10(k: nat): nat { if k == 0 then 1 else 10 * Pow10(k - 1) }

  lemma {:induction false} DecimalLength(n: nat, k: nat)
    requires k > 0 && n < Pow10(k)
    ensures |Decimal(n)| <= k
  {
    if n >= 10 {
      DecimalLength(n / 10, k - 1);
    }
  }

  lemma {:induction false} DecimalLeading(n: nat)
    requires n > 0
    ensures Decimal(n)[0] != '0'
  {
    if n >= 10 {
      DecimalLeading(n / 10);
    }
  }

  // Writing.

  function EncodeArg(a: string): Bytes { "$" + Decimal(|a|) + CRLF + a + CRLF }

  function EncodeArgs(args: Argv): Bytes {
    if args == [] then [] else EncodeArg(args[0]) + EncodeArgs(args[1..])
  }

  /** catAppendOnlyGenericCommand. */
  function Encode(argv: Argv): Bytes { "*" + Decimal(|argv|) + CRLF + EncodeArgs(argv) }

  function EncodeAll(cmds: seq<Argv>): Bytes {
    if cmds == [] then [] else Encode(cmds[0]) + EncodeAll(cmds[1..])
  }

  method CatAppendOnlyGenericCommand(dst: Bytes, argv: Argv) returns (r: Bytes)
    ensures r == dst + Encode(argv)
  {
    r := dst + "*" + Decimal(|argv|) + CRLF;
    for j := 0 to |argv|
      invariant r + EncodeArgs(argv[j..]) == dst + Encode(argv)
    {
      var o := argv[j];
      ghost var before := r;
      r := r + "$" + Decimal(|o|) + CRLF;
      r := r + o;
      r := r + CRLF;
      assert argv[j..][1..] == argv[j + 1..];
      assert r == before + EncodeArg(o);
      assert r + EncodeArgs(argv[j + 1..]) == before + (EncodeArg(o) + EncodeArgs(argv[j + 1..]));
    }
    assert argv[|argv|..] == [];
    assert r + [] == r;
  }

  const MAX_DIGITS: nat := 19

  // Counts and lengths of at most 19 digits: every int and every long.
  ghost predicate Encodable(argv: Argv) {
    0 < |argv| < Pow10(MAX_DIGITS) && forall a | a in argv :: |a| < Pow10(MAX_DIGITS)
  }

  // Reading. All functions look at the rest of the file from the current position.

  const LINE_MAX: nat := 127

  // How many bytes fgets with a 128 byte buffer takes: up to a newline, 127 bytes, or all there is.
  function LineEnd(s: Bytes, i: nat): (e: nat)
    requires i <= |s|
    ensures i <= e <= |s|
    decreases |s| - i
  {
    if i == |s| || i >= LINE_MAX then i
    else if s[i] == '\n' then i + 1
    else LineEnd(s, i + 1)
  }

  datatype Parse =
    | Complete(argv: Argv, used: nat)
    | AtEnd                 // end of file where a command could start
    | Torn                  // end of file inside a command
    | Malformed             // not a command
    | Unreadable            // a read error that is not the end of the file

  // `n` more arguments.
  function ParseArgs(s: Bytes, n: nat): (p: Parse)
    ensures p.Complete? ==> p.used <= |s| && |p.argv| == n
    ensures !p.AtEnd?
    decreases n
  {
    if n == 0 then Complete([], 0)
    else if s == [] then Torn
    else
      var e := LineEnd(s, 0);
      if e == 0 || s[0] != '$' then Malformed
      else
        var len := Atoi(s[1..e]);
        if len < 0 then Malformed
        else if e + len + 2 > |s| then Torn
        else
          var rest := ParseArgs(s[e + len + 2..], n - 1);
          if rest.Complete? then Complete([s[e..e + len]] + rest.argv, e + len + 2 + rest.used) else rest
  }

  /** One command of the loader's main loop. */
  function ParseCommand(s: Bytes): (p: Parse)
    ensures p.Complete? ==> 0 < p.used <= |s| && p.argv != []
    ensures p.AtEnd? <==> s == []
  {
    if s == [] then AtEnd
    else
      var e := LineEnd(s, 0);
      if s[0] != '*' then Malformed
      else if e == 1 || s[1] == '\0' then
        if e == |s| then Torn else Unreadable
      else
        var argc := Atoi(s[1..e]);
        if argc < 1 then Malformed
        else
          var p := ParseArgs(s[e..], argc);
          if p.Complete? then Complete(p.argv, e + p.used) else p
  }

  // Round trip.

  // A line that ends in its only newline is what fgets returns.
  lemma {:induction false} LineEndIs(s: Bytes, i: nat, e: nat)
    requires i < e <= |s| && e <= LINE_MAX
    requires s[e - 1] == '\n' && forall k | i <= k < e - 1 :: s[k] != '\n'
    ensures LineEnd(s, i) == e
    decreases e - i
  {
    if i < e - 1 {
      LineEndIs(s, i + 1, e);
    }
  }

  // Without a newline in reach, fgets stops at the end of a short file.
  lemma {:induction false} LineEndEof(s: Bytes, i: nat)
    requires i <= |s| <= LINE_MAX
    requires forall k | i <= k < |s| :: s[k] != '\n'
    ensures LineEnd(s, i) == |s|
    decreases |s| - i
  {
    if i < |s| {
      LineEndEof(s, i + 1);
    }
  }

  /** A line that is too long for the buffer is cut after 127 bytes. */
  lemma {:induction false} LongLine(s: Bytes, i: nat)
    requires i <= 127 <= |s| && forall k | i <= k < 127 :: s[k] != '\n'
    ensures LineEnd(s, i) == 127
    decreases 127 - i
  {
    if i < 127 {
      LongLine(s, i + 1);
    }
  }

  // A header line: a tag and a number.
  function HeaderLine(tag: char, n: nat): Bytes { [tag] + Decimal(n) + CRLF }

  lemma HeaderShape(tag: char, n: nat)
    requires n < Pow10(MAX_DIGITS) && tag != '\n'
    ensures var h := HeaderLine(tag, n);
            && 4 <= |h| <= 22 && h[|h| - 1] == '\n' && IsDigit(h[1])
            && (forall i | 0 <= i < |h| - 1 :: h[i] != '\n')
  {
    DecimalLength(n, MAX_DIGITS);
    assert HeaderLine(tag, n)[1] == Decimal(n)[0];
  }

  // What the parser sees of a header line.
  lemma ReadHeader(tag: char, n: nat, t: Bytes)
    requires n < Pow10(MAX_DIGITS) && tag != '\n'
    ensures var h := HeaderLine(tag, n);
            && |h| >= 4 && LineEnd(h + t, 0) == |h| && (h + t)[0] == tag && IsDigit((h + t)[1])
            && Atoi((h + t)[1..|h|]) == n
  {
    var h := HeaderLine(tag, n);
    HeaderShape(tag, n);
    LineEndIs(h + t, 0, |h|);
    assert (h + t)[1..|h|] == Decimal(n) + CRLF;
    AtoiDecimal(n, CRLF);
  }

  lemma ReadArg(a: string, t: Bytes)
    requires |a| < Pow10(MAX_DIGITS)
    ensures var s := EncodeArg(a) + t;
            var e := LineEnd(s, 0);
            && 1 <= e && s[0] == '$' && Atoi(s[1..e]) == |a|
            && e + |a| + 2 == |EncodeArg(a)| && s[e..e + |a|] == a && s[e + |a| + 2..] == t
  {
    var h := HeaderLine('$', |a|);
    assert EncodeArg(a) + t == h + (a + CRLF + t);
    ReadHeader('$', |a|, a + CRLF + t);
  }

  lemma {:induction false} ParseArgsEncoded(args: Argv, t: Bytes)
    requires forall a | a in args :: |a| < Pow10(MAX_DIGITS)
    ensures ParseArgs(EncodeArgs(args) + t, |args|) == Complete(args, |EncodeArgs(args)|)
  {
    hide EncodeArg, EncodeArgs, Atoi, LineEnd, Pow10, ParseArgs;
    if args != [] {
      var rest := EncodeArgs(args[1..]) + t;
      EncodeArgsHead(args, t);
      ParseArgsEncoded(args[1..], t);
      ParseArg(args[0], rest, |args|);
      assert args == [args[0]] + args[1..];
    } else {
      ParseNoArgs(t);
    }
  }

  lemma EncodeArgsHead(args: Argv, t: Bytes)
    requires args != []
    ensures EncodeArgs(args) + t == EncodeArg(args[0]) + (EncodeArgs(args[1..]) + t)
    ensures |EncodeArgs(args)| == |EncodeArg(args[0])| + |EncodeArgs(args[1..])|
  {
    hide EncodeArg;
  }

  lemma ParseNoArgs(t: Bytes)
    ensures ParseArgs(EncodeArgs([]) + t, 0) == Complete([], |EncodeArgs([])|)
  {}

  lemma ParseArg(a: string, rest: Bytes, n: nat)
    requires |a| < Pow10(MAX_DIGITS) && n > 0
    ensures var p := ParseArgs(rest, n - 1);
            ParseArgs(EncodeArg(a) + rest, n) ==
            if p.Complete? then Complete([a] + p.argv, |EncodeArg(a)| + p.used) else p
  {
    hide *;
    var s := EncodeArg(a) + rest;
    ReadArg(a, rest);
    ParseOne(s, n, LineEnd(s, 0), |a|);
  }

  lemma ParseOne(s: Bytes, n: nat, e: nat, len: nat)
    requires n > 0 && s != [] && e == LineEnd(s, 0) && e > 0 && s[0] == '$' && Atoi(s[1..e]) == len
    requires e + len + 2 <= |s|
    ensures var p := ParseArgs(s[e + len + 2..], n - 1);
            ParseArgs(s, n) == if p.Complete? then Complete([s[e..e + len]] + p.argv, e + len + 2 + p.used) else p
  {
    hide Atoi, LineEnd;
  }

  /** A written command is read back as the same argument vector, whatever follows it. */
  lemma ParseEncoded(argv: Argv, t: Bytes)
    requires Encodable(argv)
    ensures ParseCommand(Encode(argv) + t) == Complete(argv, |Encode(argv)|)
  {
    hide EncodeArgs, Decimal, Atoi, LineEnd, Pow10, ParseArgs;
    var h, rest := HeaderLine('*', |argv|), EncodeArgs(argv) + t;
    assert Encode(argv) + t == h + rest;
    ReadHeader('*', |argv|, rest);
    assert (h + rest)[|h|..] == rest;
    ParseArgsEncoded(argv, t);
  }

  // Bytes that are not a command.

  lemma {:induction false} ParseArgsBad(args: Argv, rest: Bytes, n: nat)
    requires forall a | a in args :: |a| < Pow10(MAX_DIGITS)
    requires |args| < n && rest != [] && rest[0] != '$'
    ensures ParseArgs(EncodeArgs(args) + rest, n) == Malformed
    decreases args
  {
    hide EncodeArg, EncodeArgs, Atoi, LineEnd, Pow10, ParseArgs;
    if args == [] {
      BadArgHeader(rest, n);
    } else {
      EncodeArgsHead(args, rest);
      ParseArgsBad(args[1..], rest, n - 1);
      ParseArg(args[0], EncodeArgs(args[1..]) + rest, n);
    }
  }

  lemma BadArgHeader(rest: Bytes, n: nat)
    requires n > 0 && rest != [] && rest[0] != '$'
    ensures ParseArgs(EncodeArgs([]) + rest, n) == Malformed
  {
    assert EncodeArgs([]) + rest == rest;
  }

  /** A command that announces more arguments than are written before something else. */
  lemma ParseBadArgument(n: nat, args: Argv, rest: Bytes)
    requires n < Pow10(MAX_DIGITS) && forall a | a in args :: |a| < Pow10(MAX_DIGITS)
    requires |args| < n && rest != [] && rest[0] != '$'
    ensures ParseCommand(HeaderLine('*', n) + (EncodeArgs(args) + rest)) == Malformed
  {
    hide EncodeArgs, Decimal, Atoi, LineEnd, Pow10, ParseArgs;
    var h, body := HeaderLine('*', n), EncodeArgs(args) + rest;
    ReadHeader('*', n, body);
    assert (h + body)[|h|..] == body;
    ParseArgsBad(args, rest, n);
  }

  lemma ParseNoCommand(rest: Bytes)
    ensures ParseCommand(HeaderLine('*', 0) + rest) == Malformed
  {
    hide Decimal, Atoi, LineEnd, Pow10, ParseArgs;
    PowPositive(MAX_DIGITS);
    ReadHeader('*', 0, rest);
  }

  lemma {:induction false} PowPositive(k: nat)
    ensures Pow10(k) > 0
  {
    if k > 0 {
      PowPositive(k - 1);
    }
  }

  // Torn tails.

  // A header line cut before its newline: the number read is at most a beginning of the digits.
  lemma CutHeader(tag: char, n: nat, t: Bytes)
    requires n < Pow10(MAX_DIGITS) && tag != '\n'
    requires t != [] && t < HeaderLine(tag, n)
    ensures LineEnd(t, 0) == |t| && t[0] == tag && Atoi(t[1..]) >= 0
    ensures |t| > 1 ==> IsDigit(t[1]) && (n > 0 ==> Atoi(t[1..]) > 0)
  {
    var h := HeaderLine(tag, n);
    HeaderShape(tag, n);
    assert forall i | 0 <= i < |t| :: t[i] == h[i];
    LineEndEof(t, 0);
    if |t| > 1 {
      assert t[1] == h[1] == Decimal(n)[0];
      CutDigits(n, t[1..]);
    }
  }

  lemma CutDigits(n: nat, d: Bytes)
    requires d != [] && Decimal(n) != [] && d[0] == Decimal(n)[0] && IsDigit(d[0])
    ensures Atoi(d) >= 0 && (n > 0 ==> Atoi(d) > 0)
  {
    if n > 0 {
      DecimalLeading(n);
    }
    hide Decimal;
    ReadDigitsGrow(d[1..], DigitValue(d[0]));
  }

  lemma {:induction false} ReadDigitsGrow(s: Bytes, acc: nat)
    ensures ReadDigits(s, acc) >= acc
    decreases s
  {
    if s != [] && IsDigit(s[0]) {
      ReadDigitsGrow(s[1..], 10 * acc + DigitValue(s[0]));
    }
  }

  lemma CutArg(a: string, t: Bytes, n: nat)
    requires |a| < Pow10(MAX_DIGITS)
    requires t < EncodeArg(a) && n > 0
    ensures ParseArgs(t, n) == Torn
  {
    hide Decimal, Atoi, LineEnd, Pow10;
    if t != [] {
      var h := HeaderLine('$', |a|);
      assert EncodeArg(a) == h + (a + CRLF);
      if |t| < |h| {
        assert t < h;
        CutHeader('$', |a|, t);
        assert t[1..|t|] == t[1..];
      } else {
        assert t == h + t[|h|..];
        ReadHeader('$', |a|, t[|h|..]);
      }
    }
  }

  lemma {:induction false} CutArgs(args: Argv, t: Bytes)
    requires forall a | a in args :: |a| < Pow10(MAX_DIGITS)
    requires t < EncodeArgs(args)
    ensures ParseArgs(t, |args|) == Torn
    decreases args
  {
    hide EncodeArg, Atoi, LineEnd, Pow10;
    var x, rest := EncodeArg(args[0]), EncodeArgs(args[1..]);
    if |x| <= |t| {
      var u := t[|x|..];
      assert t == x + u && u < rest;
      ReadArg(args[0], u);
      CutArgs(args[1..], u);
    } else {
      assert t < x;
      CutArg(args[0], t, |args|);
    }
  }

  /** Any proper, non-empty beginning of a written command is recognised as torn. */
  lemma ParseCut(argv: Argv, t: Bytes)
    requires Encodable(argv)
    requires t != [] && t < Encode(argv)
    ensures ParseCommand(t) == Torn
  {
    hide EncodeArgs, Decimal, Atoi, LineEnd, Pow10;
    var h := HeaderLine('*', |argv|);
    assert Encode(argv) == h + EncodeArgs(argv);
    if |t| < |h| {
      assert t < h;
      CutHeader('*', |argv|, t);
      assert t[1..|t|] == t[1..] && t[|t|..] == [];
    } else {
      var u := t[|h|..];
      assert t == h + u;
      ReadHeader('*', |argv|, u);
      assert u < EncodeArgs(argv);
      CutArgs(argv, u);
    }
  }
}
