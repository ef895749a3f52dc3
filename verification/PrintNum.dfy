/** lib/printfmt.c, printnum, and lib/string.c, strtol: a printer and the parser that undoes it. */
module PrintNum {
  const DIGITS := "0123456789abcdef"

  function Digit(d: nat): char
    requires d < 16
  {
    DIGITS[d]
  }

  /** num / base and num % base. */
  function Quot(num: nat, base: nat): (q: nat)
    requires 2 <= base
    ensures num >= base ==> q < num
  {
    num / base
  }

  function Rem(num: nat, base: nat): (r: nat)
    requires 2 <= base
    ensures r < base && Quot(num, base) * base + r == num && (num < base ==> r == num)
  {
    num % base
  }

  /** The digits of num, most significant first. */
  function Digits(num: nat, base: nat): (s: string)
    requires 2 <= base <= 16
    ensures |s| >= 1
  {
    (if num >= base then Digits(Quot(num, base), base) else "") + [Digit(Rem(num, base))]
  }

  function Repeat(c: char, n: int): (s: string)
    ensures |s| == if n > 0 then n else 0
    ensures forall i :: 0 <= i < |s| ==> s[i] == c
  {
    if n <= 0 then "" else Repeat(c, n - 1) + [c]
  }

  class Output {
    var text: string

    constructor ()
      ensures text == ""
    {
      text := "";
    }

    method Putch(c: char)
      modifies this
      ensures text == old(text) + [c]
    {
      text := text + [c];
    }

    /** while (--width > 0) putch(padc, putdat); */
    method Pad(n: int, padc: char)
      modifies this
      ensures text == old(text) + Repeat(padc, n)
    {
      var w := n;
      ghost var done := 0;
      while w > 0
        invariant done >= 0 && (n > 0 ==> w >= 0 && w + done == n) && (n <= 0 ==> done == 0)
        invariant text == old(text) + Repeat(padc, done)
      {
        Putch(padc);
        w, done := w - 1, done + 1;
      }
      assert n > 0 ==> done == n;
    }

    /** printnum: the more significant digits first, or the padding when there are none. */
    method PrintNum(num: nat, base: nat, width: int, padc: char)
      requires 2 <= base <= 16
      modifies this
      decreases num
      ensures text == old(text) + Repeat(padc, width - |Digits(num, base)|) + Digits(num, base)
    {
      hide Quot, Rem, Digit;
      if num >= base {
        PrintNum(Quot(num, base), base, width - 1, padc);
      } else {
        Pad(width - 1, padc);
      }
      Putch(Digit(Rem(num, base)));
    }
  }

  // ---------------------------------------------------------------- strtol

  const LONG := 0x8000_0000         // long is 32 bits wide

  function Wrap(x: int): int { (x + LONG) % (2 * LONG) - LONG }

  /** The character at s[i], or the terminating zero. */
  function At(s: string, i: nat): char { if i < |s| then s[i] else 0 as char }

  /** The value of a character as a digit, if it is one in this base. */
  function DigitValue(c: char, base: nat): int {
    var d := if '0' <= c <= '9' then c as int - '0' as int
             else if 'a' <= c <= 'z' then c as int - 'a' as int + 10
             else if 'A' <= c <= 'Z' then c as int - 'A' as int + 10
             else -1;
    if d >= base then -1 else d
  }

  predicate Blank(c: char) { c == ' ' || c == '\t' }

  /** The value of the longest run of digits at i, starting from val, and where it ends. */
  function Run(s: string, i: nat, base: nat, val: int): (int, nat)
    decreases |s| - i
  {
    if i < |s| && DigitValue(s[i], base) >= 0
    then Run(s, i + 1, base, Wrap(val * base + DigitValue(s[i], base)))
    else (val, i)
  }

  function SkipBlanks(s: string, i: nat): (j: nat)
    decreases |s| - i
  {
    if i < |s| && Blank(s[i]) then SkipBlanks(s, i + 1) else i
  }

  /** Where the digits start, and in which base they are read. */
  function Prefix(s: string, i: nat, base: nat): (nat, nat) {
    if (base == 0 || base == 16) && At(s, i) == '0' && At(s, i + 1) == 'x' then (i + 2, 16)
    else if base == 0 && At(s, i) == '0' then (i + 1, 8)
    else (i, if base == 0 then 10 else base)
  }

  /** The result of strtol: the number, and the index of *endptr. */
  function Parsed(s: string, base: nat): (int, nat) {
    var i := SkipBlanks(s, 0);
    var neg := At(s, i) == '-';
    var j := if At(s, i) == '+' || neg then i + 1 else i;
    var (k, b) := Prefix(s, j, base);
    var (v, e) := Run(s, k, b, 0);
    (if neg then Wrap(-v) else v, e)
  }

  /** The digit loop; the value wraps without notice. */
  method ReadDigits(s: string, start: nat, base: nat) returns (val: int, end: nat)
    ensures (val, end) == Run(s, start, base, 0)
  {
    hide Wrap;
    val, end := 0, start;
    while DigitValue(At(s, end), base) >= 0
      invariant start <= end && (end <= |s| || end == start) && Run(s, end, base, val) == Run(s, start, base, 0)
      decreases |s| - end
    {
      val := Wrap(val * base + DigitValue(At(s, end), base));
      end := end + 1;
    }
  }

  /** strtol */
  method Strtol(s: string, base: nat) returns (val: int, end: nat)
    ensures (val, end) == Parsed(s, base)
    ensures forall t :: Spells(s, base, t) ==> Denotes(t, val, end)
  {
    hide Wrap, Run, DigitValue, Spells, Denotes;
    forall t | Spells(s, base, t) { ParsedSpells(s, base, t); }
    var i := 0;
    while Blank(At(s, i))
      invariant SkipBlanks(s, i) == SkipBlanks(s, 0) && i <= |s|
      decreases |s| - i
    {
      i := i + 1;
    }
    var neg := false;
    if At(s, i) == '+' {
      i := i + 1;
    } else if At(s, i) == '-' {
      i, neg := i + 1, true;
    }
    var b;
    if (base == 0 || base == 16) && At(s, i) == '0' && At(s, i + 1) == 'x' {
      i, b := i + 2, 16;
    } else if base == 0 && At(s, i) == '0' {
      i, b := i + 1, 8;
    } else if base == 0 {
      b := 10;
    } else {
      b := base;
    }
    val, end := ReadDigits(s, i, b);
    if neg {
      val := Wrap(-val);
    }
  }

  // ---------------------------------------------------------------- the round trip

  /** The digits of t read on from val, without any limit on the size. */
  function Value(t: string, base: nat, val: nat): nat {
    if t == "" then val else Value(t[1..], base, Next(val, base, t[0]))
  }

  /** val with one more digit. */
  function Next(val: nat, base: nat, c: char): nat {
    val * base + if DigitValue(c, base) >= 0 then DigitValue(c, base) else 0
  }

  predicate AllDigits(t: string, base: nat) { forall i :: 0 <= i < |t| ==> DigitValue(t[i], base) >= 0 }

  lemma NextGrows(val: nat, base: nat, c: char)
    requires base >= 1
    ensures Next(val, base, c) >= val
  {
    assert val * base >= val;
  }

  lemma {:induction false} ValueGrows(t: string, base: nat, val: nat)
    requires base >= 1
    ensures Value(t, base, val) >= val
  {
    hide Next;
    if t != "" {
      NextGrows(val, base, t[0]);
      ValueGrows(t[1..], base, Next(val, base, t[0]));
    }
  }

  lemma {:induction false} ValueSnoc(t: string, c: char, base: nat, val: nat)
    ensures Value(t + [c], base, val) == Next(Value(t, base, val), base, c)
  {
    hide Next;
    if t != "" {
      assert (t + [c])[1..] == t[1..] + [c];
      ValueSnoc(t[1..], c, base, Next(val, base, t[0]));
    } else {
      assert (t + [c])[1..] == "";
    }
  }

  lemma TailDigits(t: string, base: nat)
    requires AllDigits(t, base) && t != ""
    ensures AllDigits(t[1..], base)
  {
    var u := t[1..];
    forall k | 0 <= k < |u| ensures DigitValue(u[k], base) >= 0 {
      assert u[k] == t[k+1];
    }
  }

  /** strtol's loop reads a string of digits to its end. */
  lemma {:induction false} RunIsValue(s: string, i: nat, base: nat, val: nat)
    requires i <= |s| && 2 <= base && AllDigits(s[i..], base) && Value(s[i..], base, val) < LONG
    ensures Run(s, i, base, val) == (Value(s[i..], base, val), |s|)
    decreases |s| - i
  {
    if i < |s| {
      var t := s[i..];
      assert t[0] == s[i] && t[1..] == s[i+1..];
      var v := Next(val, base, s[i]);
      ValueGrows(s[i+1..], base, v);
      assert AllDigits(t[1..], base) by { TailDigits(t, base); }
      RunIsValue(s, i + 1, base, v);
    }
  }

  lemma DigitBack(d: nat, base: nat)
    requires d < base <= 16
    ensures DigitValue(Digit(d), base) == d && Digit(d) != 'x' && !Blank(Digit(d)) && Digit(d) != '+' && Digit(d) != '-'
  {
  }

  lemma {:induction false} DigitsBack(num: nat, base: nat)
    requires 2 <= base <= 16
    ensures AllDigits(Digits(num, base), base) && Value(Digits(num, base), base, 0) == num
    ensures forall i :: 0 <= i < |Digits(num, base)| ==>
              Digits(num, base)[i] != 'x' && !Blank(Digits(num, base)[i]) && Digits(num, base)[i] != '+'
                  && Digits(num, base)[i] != '-'
  {
    hide Quot, Rem, Digit, DigitValue, Blank;
    DigitBack(Rem(num, base), base);
    var c := Digit(Rem(num, base));
    if num >= base {
      DigitsBack(Quot(num, base), base);
      ValueSnoc(Digits(Quot(num, base), base), c, base, 0);
    } else {
      ValueSnoc("", c, base, 0);
      assert Digits(num, base) == "" + [c];
    }
  }

  function Printed(num: nat, base: nat, width: int, padc: char): string
    requires 2 <= base <= 16
  {
    Repeat(padc, width - |Digits(num, base)|) + Digits(num, base)
  }

  lemma {:induction false} ZerosAddNothing(n: int, t: string, base: nat)
    requires base >= 1
    ensures Value(Repeat('0', n) + t, base, 0) == Value(t, base, 0)
  {
    if n > 0 {
      ZerosAddNothing(n - 1, t, base);
      assert Repeat('0', n) + t == ['0'] + (Repeat('0', n - 1) + t) by { RepeatFront('0', n); }
      assert (['0'] + (Repeat('0', n - 1) + t))[1..] == Repeat('0', n - 1) + t;
    } else {
      assert Repeat('0', n) + t == t;
    }
  }

  lemma RepeatFront(c: char, n: int)
    requires n > 0
    ensures Repeat(c, n) == [c] + Repeat(c, n - 1)
  {
  }

  lemma {:induction false} SkipsBlanks(n: int, i: nat, t: string)
    requires t != "" && !Blank(t[0]) && i <= |Repeat(' ', n)|
    ensures SkipBlanks(Repeat(' ', n) + t, i) == |Repeat(' ', n)|
    decreases |Repeat(' ', n)| - i
  {
    var s := Repeat(' ', n) + t;
    if i < |Repeat(' ', n)| {
      assert s[i] == ' ';
      SkipsBlanks(n, i + 1, t);
    } else {
      assert s[i] == t[0];
    }
  }

  /** printnum writes exactly as many characters as it should, and strtol reads all of them back to the
      number, for every base from 2 to 16, width and padding. */
  lemma RoundTrip(num: nat, base: nat, width: int, padc: char)
    requires 2 <= base <= 16 && (padc == ' ' || padc == '0') && num < LONG
    ensures |Printed(num, base, width, padc)| == if width > |Digits(num, base)| then width else |Digits(num, base)|
    ensures Parsed(Printed(num, base, width, padc), base) == (num, |Printed(num, base, width, padc)|)
  {
    var d, n := Digits(num, base), width - |Digits(num, base)|;
    var s := Printed(num, base, width, padc);
    DigitsBack(num, base);
    if padc == ' ' {
      SkipsBlanks(n, 0, d);
      var i := |Repeat(' ', n)|;
      assert s[i..] == d && s[i] == d[0];
      assert At(s, i + 1) != 'x' by { if i + 1 < |s| { assert s[i+1] == d[1]; } }
      RunIsValue(s, i, base, 0);
    } else {
      ZerosAddNothing(n, d, base);
      ZerosRun(n, num, base);
    }
  }

  lemma ZerosRun(n: int, num: nat, base: nat)
    requires 2 <= base <= 16 && num < LONG && Value(Repeat('0', n) + Digits(num, base), base, 0) == num
    ensures Parsed(Repeat('0', n) + Digits(num, base), base) == (num, |Repeat('0', n) + Digits(num, base)|)
  {
    hide Value, Digits, Repeat, DigitValue, Blank, Run;
    var s := Repeat('0', n) + Digits(num, base);
    forall k: nat | k < |s| { PaddedDigit(n, num, base, k); }
    assert s[0..] == s;
    assert SkipBlanks(s, 0) == 0;
    RunIsValue(s, 0, base, 0);
  }

  lemma PaddedDigit(n: int, num: nat, base: nat, k: nat)
    requires 2 <= base <= 16 && k < |Repeat('0', n) + Digits(num, base)|
    ensures var c := (Repeat('0', n) + Digits(num, base))[k];
            DigitValue(c, base) >= 0 && c != 'x' && !Blank(c) && c != '+' && c != '-'
  {
    hide Value, Digits, Repeat, DigitValue, Blank;
    DigitsBack(num, base);
    var z := Repeat('0', n);
    if k < |z| {
      DigitBack(0, base);
      assert Digit(0) == '0';
    } else {
      assert (z + Digits(num, base))[k] == Digits(num, base)[k - |z|];
    }
  }

  // ---------------------------------------------------------------- what strtol promises

  /** The parts of a number as text: blanks, a sign, a prefix, digits with their values, and what follows. */
  datatype Numeral = Numeral(blanks: string, sign: string, prefix: string, digits: string, vals: seq<nat>, base: nat,
                             tail: string)

  /** The character stands for the digit v: 0 to 9, and from ten on letters of either case. */
  predicate IsDigit(c: char, v: nat) {
    if v < 10 then c as int == 48 + v else v < 36 && (c as int == 87 + v || c as int == 55 + v)
  }

  /** The value of a sequence of digits, most significant first. */
  function Positional(vals: seq<nat>, base: nat): nat {
    if vals == [] then 0 else Positional(vals[..|vals|-1], base) * base + vals[|vals|-1]
  }

  /** s is this number, for a call with this base: in base 0 the prefix says which base the digits have, in
      base 16 a prefix may stand, and digits go on as far as they can. */
  predicate Spells(s: string, base: nat, t: Numeral) {
    && s == t.blanks + t.sign + t.prefix + t.digits + t.tail
    && (forall i :: 0 <= i < |t.blanks| ==> t.blanks[i] == ' ' || t.blanks[i] == '\t')
    && (t.sign == "" || t.sign == "+" || t.sign == "-")
    && 2 <= t.base <= 36 && |t.vals| == |t.digits|
    && (forall i :: 0 <= i < |t.vals| ==> t.vals[i] < t.base && IsDigit(t.digits[i], t.vals[i]))
    && (t.tail != "" ==> forall v: nat :: v < t.base ==> !IsDigit(t.tail[0], v))
    && (|| (t.prefix == "" && t.base == base && t.digits != "")
        || (t.prefix == "" && base == 0 && t.base == 10 && t.digits != "" && t.digits[0] != '0')
        || (t.prefix == "0" && base == 0 && t.base == 8)
        || (t.prefix == "0x" && (base == 0 || base == 16) && t.base == 16))
    && (t.tail != "" && t.tail[0] == 'x' ==> !(base == 16 && t.prefix == "" && t.digits == "0")
                                             && !(t.prefix == "0" && t.digits == ""))
  }

  /** What is read: everything before the tail, as the number modulo 2^32. */
  predicate Denotes(t: Numeral, val: int, end: nat) {
    && end == |t.blanks| + |t.sign| + |t.prefix| + |t.digits|
    && -LONG <= val < LONG && (val - Number(t)) % (2 * LONG) == 0
  }

  function Number(t: Numeral): int { (if t.sign == "-" then -1 else 1) * Positional(t.vals, t.base) }

  /** In the range of a long that is the number itself. */
  lemma DenotesExactly(t: Numeral, val: int, end: nat)
    requires Denotes(t, val, end) && Positional(t.vals, t.base) < LONG
    ensures val == Number(t)
  {
  }

  predicate SameMod(x: int, y: int) { (x - y) % (2 * LONG) == 0 }

  lemma WrapSame(x: int)
    ensures SameMod(Wrap(x), x) && -LONG <= Wrap(x) < LONG
  {
  }

  lemma SameTrans(x: int, y: int, z: int)
    requires SameMod(x, y) && SameMod(y, z)
    ensures SameMod(x, z)
  {
  }

  lemma SameDigit(x: int, y: int, base: nat, d: int)
    requires SameMod(x, y)
    ensures SameMod(x * base + d, y * base + d)
  {
    var q := (x - y) / (2 * LONG);
    assert x - y == 2 * LONG * q;
    assert (x * base + d) - (y * base + d) == (x - y) * base == 2 * LONG * (q * base);
    MultipleIsZero(q * base);
  }

  lemma MultipleIsZero(q: int)
    ensures 2 * LONG * q % (2 * LONG) == 0
  {
  }

  lemma DigitRead(c: char, v: nat, base: nat)
    requires IsDigit(c, v) && v < base <= 36
    ensures DigitValue(c, base) == v && !Blank(c) && c != '+' && c != '-'
  {
  }

  lemma NoDigit(c: char, base: nat)
    requires base <= 36 && forall v: nat :: v < base ==> !IsDigit(c, v)
    ensures DigitValue(c, base) < 0
  {
    var d := DigitValue(c, base);
    if d >= 0 {
      assert IsDigit(c, d);
    }
  }

  /** The first n digits have been read. */
  lemma {:induction false} RunDigits(s: string, i: nat, t: Numeral, base: nat, val: int, n: nat)
    requires n <= |t.vals| == |t.digits| && 2 <= base <= 36 && i + |t.digits| + |t.tail| == |s|
    requires s[i..] == t.digits + t.tail && -LONG <= val < LONG
    requires forall k :: 0 <= k < |t.vals| ==> t.vals[k] < base && IsDigit(t.digits[k], t.vals[k])
    requires t.tail != "" ==> forall v: nat :: v < base ==> !IsDigit(t.tail[0], v)
    requires SameMod(val, Positional(t.vals[..n], base))
    ensures Run(s, i + n, base, val).1 == i + |t.digits|
    ensures SameMod(Run(s, i + n, base, val).0, Positional(t.vals, base)) && -LONG <= Run(s, i + n, base, val).0 < LONG
    decreases |t.vals| - n
  {
    hide SameMod, Wrap, IsDigit, DigitValue;
    if n < |t.vals| {
      assert s[i + n] == s[i..][n] == t.digits[n];
      DigitRead(t.digits[n], t.vals[n], base);
      var next := val * base + t.vals[n];
      assert t.vals[..n+1][..n] == t.vals[..n];
      SameDigit(val, Positional(t.vals[..n], base), base, t.vals[n]);
      WrapSame(next);
      SameTrans(Wrap(next), next, Positional(t.vals[..n+1], base));
      RunDigits(s, i, t, base, Wrap(next), n + 1);
    } else {
      assert t.vals[..n] == t.vals;
      if i + n < |s| {
        assert s[i + n] == s[i..][n] == t.tail[0];
        NoDigit(t.tail[0], base);
      }
    }
  }

  lemma {:induction false} BlanksSkipped(s: string, n: nat, i: nat)
    requires i <= n <= |s| && forall k :: 0 <= k < n ==> Blank(s[k])
    requires n < |s| ==> !Blank(s[n])
    ensures SkipBlanks(s, i) == n
    decreases n - i
  {
    if i < n {
      BlanksSkipped(s, n, i + 1);
    }
  }

  /** Character k of what follows position i. */
  lemma AtRest(s: string, i: nat, rest: string, k: nat)
    requires i <= |s| && s[i..] == rest
    ensures At(s, i + k) == if k < |rest| then rest[k] else 0 as char
  {
    if k < |rest| {
      assert s[i..][k] == s[i + k];
    }
  }

  /** A digit is none of the characters the parser looks for before the digits. */
  lemma DigitIsPlain(c: char, v: nat, base: nat)
    requires IsDigit(c, v) && v < base <= 36
    ensures !Blank(c) && c != '+' && c != '-' && (base <= 16 ==> c != 'x') && (c == '0' <==> v == 0) && c as int != 0
  {
  }

  lemma PrefixIs(s: string, base: nat, t: Numeral, j: nat)
    requires Spells(s, base, t) && j == |t.blanks| + |t.sign| && j <= |s| && s[j..] == t.prefix + t.digits + t.tail
    ensures Prefix(s, j, base) == (j + |t.prefix|, t.base)
  {
    var rest := t.prefix + t.digits + t.tail;
    AtRest(s, j, rest, 0);
    AtRest(s, j, rest, 1);
    if t.digits != "" { DigitIsPlain(t.digits[0], t.vals[0], t.base); }
    if |t.digits| > 1 { DigitIsPlain(t.digits[1], t.vals[1], t.base); }
    hide IsDigit, At;
    if t.prefix == "" {
      assert rest == t.digits + t.tail && rest[0] == t.digits[0];
      if |t.digits| == 1 && t.tail != "" {
        assert rest[1] == t.tail[0];
        assert t.digits[0] == '0' ==> t.digits == "0";
      }
    } else if t.prefix == "0" {
      assert rest[0] == '0' && |rest| == 1 + |t.digits| + |t.tail|;
      assert t.digits != "" ==> rest[1] == t.digits[0];
      assert t.digits == "" && t.tail != "" ==> rest[1] == t.tail[0];
    } else {
      assert rest[0] == '0' && rest[1] == 'x';
    }
  }

  /** The first character after the blanks. */
  lemma HeadChar(s: string, base: nat, t: Numeral)
    requires Spells(s, base, t)
    ensures |t.blanks| < |s| && s[|t.blanks|..] == t.sign + t.prefix + t.digits + t.tail
    ensures s[|t.blanks|] == '-' <==> t.sign == "-"
    ensures s[|t.blanks|] == '+' <==> t.sign == "+"
    ensures !Blank(s[|t.blanks|])
  {
    var n := |t.blanks|;
    var rest := t.sign + t.prefix + t.digits + t.tail;
    assert s == t.blanks + rest;
    if t.digits != "" { DigitIsPlain(t.digits[0], t.vals[0], t.base); }
    assert t.sign + t.prefix + t.digits != "";
    hide IsDigit, Spells;
    assert s[n..] == rest && rest != "" && s[n] == rest[0];
    if t.sign != "" {
      assert rest[0] == t.sign[0];
    } else if t.prefix != "" {
      assert rest == t.prefix + t.digits + t.tail && rest[0] == t.prefix[0];
    } else {
      assert rest == t.digits + t.tail && rest[0] == t.digits[0];
    }
  }

  /** Where the blanks end. */
  lemma HeadIs(s: string, base: nat, t: Numeral)
    requires Spells(s, base, t)
    ensures SkipBlanks(s, 0) == |t.blanks| < |s|
  {
    HeadChar(s, base, t);
    forall k | 0 <= k < |t.blanks| ensures Blank(s[k]) { BlankAt(s, base, t, k); }
    hide Spells, Blank;
    BlanksSkipped(s, |t.blanks|, 0);
  }

  lemma BlankAt(s: string, base: nat, t: Numeral, k: nat)
    requires Spells(s, base, t) && k < |t.blanks|
    ensures k < |s| && Blank(s[k])
  {
    assert s == t.blanks + (t.sign + t.prefix + t.digits + t.tail);
    assert s[k] == t.blanks[k];
    hide IsDigit;
  }

  /** The digits and where they stand. */
  lemma BodyIs(s: string, base: nat, t: Numeral)
    requires Spells(s, base, t)
    ensures var j := |t.blanks| + |t.sign|;
            && j <= |s| && s[j..] == t.prefix + t.digits + t.tail
            && j + |t.prefix| <= |s| && s[j + |t.prefix|..] == t.digits + t.tail
            && j + |t.prefix| + |t.digits| + |t.tail| == |s|
    ensures |t.sign| <= 1
  {
    hide IsDigit;
    assert s == t.blanks + t.sign + (t.prefix + t.digits + t.tail);
    assert s == t.blanks + t.sign + t.prefix + (t.digits + t.tail);
  }

  lemma BodyRead(s: string, base: nat, t: Numeral, k: nat)
    requires Spells(s, base, t) && k + |t.digits| + |t.tail| == |s| && s[k..] == t.digits + t.tail
    ensures Run(s, k, t.base, 0).1 == k + |t.digits|
    ensures SameMod(Run(s, k, t.base, 0).0, Positional(t.vals, t.base)) && -LONG <= Run(s, k, t.base, 0).0 < LONG
  {
    hide IsDigit, Run;
    assert t.vals[..0] == [];
    RunDigits(s, k, t, t.base, 0, 0);
  }

  /** strtol reads every number that is spelled out: with blanks, a sign, a prefix, in every base, to where its
      digits end. */
  lemma ParsedSpells(s: string, base: nat, t: Numeral)
    requires Spells(s, base, t)
    ensures Denotes(t, Parsed(s, base).0, Parsed(s, base).1)
  {
    hide Run, SkipBlanks, Prefix, Spells, Wrap, Positional, SameMod, Denotes;
    HeadChar(s, base, t);
    HeadIs(s, base, t);
    BodyIs(s, base, t);
    var j := |t.blanks| + |t.sign|;
    PrefixIs(s, base, t, j);
    BodyRead(s, base, t, j + |t.prefix|);
    var v := Run(s, j + |t.prefix|, t.base, 0).0;
    WrapSame(-v);
    SameNegated(v, Positional(t.vals, t.base));
    SameTrans(Wrap(-v), -v, -1 * Positional(t.vals, t.base));
    SignOneOf(s, base, t);
    MadeOf(t, if t.sign == "-" then Wrap(-v) else v, Parsed(s, base).1);
  }

  lemma SignOneOf(s: string, base: nat, t: Numeral)
    requires Spells(s, base, t)
    ensures (t.sign == "" && |t.sign| == 0) || ((t.sign == "+" || t.sign == "-") && |t.sign| == 1)
  {
    hide IsDigit;
  }

  lemma MadeOf(t: Numeral, val: int, end: nat)
    requires end == |t.blanks| + |t.sign| + |t.prefix| + |t.digits| && -LONG <= val < LONG
    requires SameMod(val, (if t.sign == "-" then -1 else 1) * Positional(t.vals, t.base))
    ensures Denotes(t, val, end)
  {
  }

  lemma SameNegated(x: int, y: int)
    requires SameMod(x, y)
    ensures SameMod(-x, -1 * y)
  {
    var q := (x - y) / (2 * LONG);
    assert -x - -1 * y == 2 * LONG * (-q);
    MultipleIsZero(-q);
  }

  /** The digits of num as values. */
  function Values(num: nat, base: nat): (r: seq<nat>)
    requires 2 <= base <= 16
  {
    (if num >= base then Values(Quot(num, base), base) else []) + [Rem(num, base)]
  }

  lemma {:induction false} ValuesPositional(num: nat, base: nat)
    requires 2 <= base <= 16
    ensures Values(num, base) != [] && Positional(Values(num, base), base) == num
    ensures forall i :: 0 <= i < |Values(num, base)| ==> Values(num, base)[i] < base
    ensures num > 0 ==> Values(num, base)[0] > 0
  {
    hide Quot, Rem, Positional;
    if num >= base {
      ValuesPositional(Quot(num, base), base);
      QuotPositive(num, base);
      PositionalSnoc(Values(Quot(num, base), base), Rem(num, base), base);
    } else {
      PositionalSnoc([], Rem(num, base), base);
      assert [] + [Rem(num, base)] == Values(num, base);
    }
  }

  lemma PositionalSnoc(vals: seq<nat>, v: nat, base: nat)
    ensures Positional(vals + [v], base) == (if vals == [] then 0 else Positional(vals, base)) * base + v
  {
    assert (vals + [v])[..|vals|] == vals;
  }

  /** Digit i of what printnum writes. */
  lemma {:induction false} DigitAt(num: nat, base: nat, i: nat)
    requires 2 <= base <= 16
    ensures |Values(num, base)| == |Digits(num, base)|
    ensures i < |Values(num, base)| ==>
              && Values(num, base)[i] < base
              && Digits(num, base)[i] == Digit(Values(num, base)[i])
  {
    hide Quot, Rem, Digit;
    if num >= base {
      DigitAt(Quot(num, base), base, i);
    }
  }

  /** What printnum writes is num in positional notation, with no zero in front, in digits and small letters. */
  lemma DigitsSpell(num: nat, base: nat)
    requires 2 <= base <= 16
    ensures |Values(num, base)| == |Digits(num, base)| && Positional(Values(num, base), base) == num
    ensures forall i :: 0 <= i < |Values(num, base)| ==>
              && Values(num, base)[i] < base
              && Digits(num, base)[i] as int == (if Values(num, base)[i] < 10 then 48 else 87) + Values(num, base)[i]
    ensures num > 0 ==> Values(num, base)[0] > 0
  {
    hide Values, Digits, Digit, Positional;
    ValuesPositional(num, base);
    DigitAt(num, base, 0);
    forall i | 0 <= i < |Values(num, base)|
      ensures Digits(num, base)[i] as int == (if Values(num, base)[i] < 10 then 48 else 87) + Values(num, base)[i]
    {
      DigitAt(num, base, i);
      DigitIs(Values(num, base)[i]);
    }
  }

  lemma DigitIs(d: nat)
    requires d < 16
    ensures Digit(d) as int == (if d < 10 then 48 else 87) + d
  {
  }

  lemma QuotPositive(num: nat, base: nat)
    requires 2 <= base && num >= base
    ensures Quot(num, base) > 0
  {
  }

  /** So strtol reads printed numbers of any size modulo 2^32, after blanks, with a sign, and with the prefix of
      their base or in a call with that base. */
  method ReadBack(blanks: string, sign: string, prefix: string, num: nat, b: nat, base: nat)
    returns (val: int, end: nat)
    requires forall i :: 0 <= i < |blanks| ==> blanks[i] == ' ' || blanks[i] == '\t'
    requires (sign == "" || sign == "+" || sign == "-") && 2 <= b <= 16
    requires || (prefix == "" && base == b)
             || (prefix == "" && base == 0 && b == 10 && num > 0)
             || (prefix == "0" && base == 0 && b == 8)
             || (prefix == "0x" && (base == 0 || base == 16) && b == 16)
    ensures end == |blanks| + |sign| + |prefix| + |Digits(num, b)|
    ensures -LONG <= val < LONG && (val - (if sign == "-" then -1 else 1) * num) % (2 * LONG) == 0
    ensures num < LONG ==> val == (if sign == "-" then -1 else 1) * num
  {
    hide Digits, Values, Positional, IsDigit, Spells;
    DigitsSpell(num, b);
    var s := blanks + sign + prefix + Digits(num, b);
    ghost var t := Numeral(blanks, sign, prefix, Digits(num, b), Values(num, b), b, "");
    assert s == t.blanks + t.sign + t.prefix + t.digits + t.tail;
    SmallLetters(Digits(num, b), Values(num, b), b);
    AllSpelled(s, base, t);
    val, end := Strtol(s, base);
    assert Denotes(t, val, end);
  }

  /** Nothing follows the digits. */
  lemma AllSpelled(s: string, base: nat, t: Numeral)
    requires s == t.blanks + t.sign + t.prefix + t.digits + t.tail && t.tail == "" && t.digits != ""
    requires forall i :: 0 <= i < |t.blanks| ==> t.blanks[i] == ' ' || t.blanks[i] == '\t'
    requires (t.sign == "" || t.sign == "+" || t.sign == "-") && 2 <= t.base <= 16 && |t.vals| == |t.digits|
    requires forall i :: 0 <= i < |t.vals| ==> t.vals[i] < t.base && IsDigit(t.digits[i], t.vals[i])
    requires || (t.prefix == "" && base == t.base)
             || (t.prefix == "" && base == 0 && t.base == 10 && t.digits[0] != '0')
             || (t.prefix == "0" && base == 0 && t.base == 8)
             || (t.prefix == "0x" && (base == 0 || base == 16) && t.base == 16)
    ensures Spells(s, base, t)
  {
    hide IsDigit;
  }

  lemma SmallLetters(d: string, vals: seq<nat>, b: nat)
    requires |vals| == |d| && 2 <= b <= 16
    requires forall i :: 0 <= i < |vals| ==>
               vals[i] < b && d[i] as int == (if vals[i] < 10 then 48 else 87) + vals[i]
    ensures forall i :: 0 <= i < |vals| ==> IsDigit(d[i], vals[i])
    ensures d != "" && vals[0] > 0 ==> d[0] != '0'
  {
  }
}
