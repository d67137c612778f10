/**
 String handling that the stored formats depend on: splitting and joining lists,
 and reading and printing unsigned numbers the way `g_ascii_strtoull` and
 `printf` do.
 */
module Text {

  predicate HasPrefix(s: string, prefix: string) { |prefix| <= |s| && s[..|prefix|] == prefix }

  // ---- lists in strings ------------------------------------------------------

  /** All pieces of s between occurrences of c, empty pieces included. */
  function Pieces(s: string, c: char): (r: seq<string>)
    ensures |r| >= 1
  {
    if s == "" then [""]
    else if s[0] == c then [""] + Pieces(s[1..], c)
    else var r := Pieces(s[1..], c); [[s[0]] + r[0]] + r[1..]
  }

  /** g_strsplit with an unlimited number of pieces: the empty string has none. */
  function Split(s: string, c: char): seq<string> {
    if s == "" then [] else Pieces(s, c)
  }

  function Join(xs: seq<string>, c: char): string {
    if |xs| == 0 then ""
    else if |xs| == 1 then xs[0]
    else xs[0] + [c] + Join(xs[1..], c)
  }

  lemma {:induction false} PiecesOfFirst(a: string, c: char, rest: string)
    requires c !in a
    ensures Pieces(a, c) == [a]
    ensures Pieces(a + [c] + rest, c) == [a] + Pieces(rest, c)
  {
    if a == "" {
      assert ("" + [c] + rest)[1..] == rest;
    } else {
      PiecesOfFirst(a[1..], c, rest);
      assert (a + [c] + rest)[1..] == a[1..] + [c] + rest;
      assert [a[0]] + a[1..] == a;
    }
  }

  lemma {:induction false} PiecesOfJoin(xs: seq<string>, c: char)
    requires |xs| >= 1
    requires forall x :: x in xs ==> c !in x
    ensures Pieces(Join(xs, c), c) == xs
  {
    assert xs[0] in xs;
    if |xs| == 1 {
      PiecesOfFirst(xs[0], c, "");
    } else {
      PiecesOfFirst(xs[0], c, Join(xs[1..], c));
      PiecesOfJoin(xs[1..], c);
    }
  }

  /** Splitting undoes joining for non-empty words that do not contain the separator. */
  lemma SplitOfJoin(xs: seq<string>, c: char)
    requires forall x :: x in xs ==> x != "" && c !in x
    ensures Split(Join(xs, c), c) == xs
  {
    if xs != [] {
      assert xs[0] in xs;
      PiecesOfJoin(xs, c);
    }
  }

  lemma {:induction false} JoinSnoc(xs: seq<string>, x: string, c: char)
    requires xs != []
    ensures Join(xs + [x], c) == Join(xs, c) + [c] + x
  {
    if |xs| == 1 {
      assert (xs + [x])[1..] == [x];
    } else {
      assert (xs + [x])[1..] == xs[1..] + [x];
      JoinSnoc(xs[1..], x, c);
      assert xs[0] + [c] + (Join(xs[1..], c) + [c] + x) == (xs[0] + [c] + Join(xs[1..], c)) + [c] + x;
    }
  }

  /** The pieces of a split never contain the separator. */
  lemma {:induction false} PiecesAreFree(s: string, c: char)
    ensures forall x :: x in Pieces(s, c) ==> c !in x
  {
    if s != "" {
      PiecesAreFree(s[1..], c);
    }
  }

  // ---- unsigned numbers ------------------------------------------------------

  const TWO_64: nat := 0x1_0000_0000_0000_0000
  const TWO_32: nat := 0x1_0000_0000

  /** Truncation to 32 bits. */
  function Low32(n: nat): (r: nat)
    ensures n < TWO_32 ==> r == n
    ensures r < 0x1_0000_0000 && exists q: nat :: n == q * 0x1_0000_0000 + r
  {
    assert n == n / 0x1_0000_0000 * 0x1_0000_0000 + n % 0x1_0000_0000;
    n % 0x1_0000_0000
  }

  /** The bases that occur: octal (by prefix only), decimal, hexadecimal. */
  type Base = b: nat | b == 8 || b == 10 || b == 16 witness 10

  function DigitChar(d: nat): (c: char)
    requires d < 16
    ensures DigitValue(c) == d
    ensures c == '0' <==> d == 0
  {
    "0123456789abcdef"[d]
  }

  function Scaled(n: nat, base: Base): nat {
    if base == 8 then n * 8 else if base == 10 then n * 10 else n * 16
  }

  function Leading(n: nat, base: Base): nat {
    if base == 8 then n / 8 else if base == 10 then n / 10 else n / 16
  }

  function Last(n: nat, base: Base): (d: nat)
    ensures d < base
  {
    if base == 8 then n % 8 else if base == 10 then n % 10 else n % 16
  }

  /** Value of a digit or letter; anything else is no digit in any base up to 36. */
  function DigitValue(c: char): nat {
    if '0' <= c <= '9' then c as nat - '0' as nat
    else if 'a' <= c <= 'z' then c as nat - 'a' as nat + 10
    else if 'A' <= c <= 'Z' then c as nat - 'A' as nat + 10
    else 99
  }

  /** printf "%u" (base 10) or "%x" (base 16). */
  function Print(n: nat, base: Base): (s: string)
    ensures s != ""
    ensures forall c :: c in s ==> DigitValue(c) < base
    ensures n > 0 ==> s[0] != '0'
  {
    if n < base then [DigitChar(n)] else Print(Leading(n, base), base) + [DigitChar(Last(n, base))]
  }

  /** Reads digits until the first character that is none in this base. */
  function Accumulate(s: string, base: Base, acc: nat): nat {
    if s == "" || DigitValue(s[0]) >= base then acc
    else Accumulate(s[1..], base, Scaled(acc, base) + DigitValue(s[0]))
  }

  predicate IsSpace(c: char) {
    c == ' ' || c == '\t' || c == '\n' || c == '\r' || c == 11 as char || c == 12 as char
  }

  function SkipSpace(s: string): string {
    if s != "" && IsSpace(s[0]) then SkipSpace(s[1..]) else s
  }

  /** value; whether any digit was converted; whether the value saturated. */
  datatype Number = Number(value: nat, converted: bool, overflow: bool)

  function ReadDigits(s: string, base: Base, negative: bool): Number {
    if s == "" || DigitValue(s[0]) >= base then Number(0, false, false)
    else
      var n := Accumulate(s, base, 0);
      if n >= TWO_64 then Number(TWO_64 - 1, true, true)
      else if negative then Number(if n == 0 then 0 else TWO_64 - n, true, false)
      else Number(n, true, false)
  }

  /** g_ascii_strtoull, including white space, sign, prefix and base detection. */
  function Strtoull(s: string, base: nat): Number
    requires base == 0 || base == 10 || base == 16
  {
    var t := SkipSpace(s);
    var negative := t != "" && t[0] == '-';
    var u := if t != "" && (t[0] == '-' || t[0] == '+') then t[1..] else t;
    if (base == 0 || base == 16) && |u| >= 2 && u[0] == '0' && (u[1] == 'x' || u[1] == 'X') then
      ReadDigits(u[2..], 16, negative)
    else if base == 0 then
      ReadDigits(u, if u != "" && u[0] == '0' then 8 else 10, negative)
    else
      ReadDigits(u, base, negative)
  }

  /** The digits in their order, in either case; nothing else is a digit in these bases. */
  lemma DigitTable(c: char)
    ensures forall i :: 0 <= i < 16 ==>
              DigitValue("0123456789abcdef"[i]) == i && DigitValue("0123456789ABCDEF"[i]) == i
    ensures DigitValue(c) < 16 <==> c in "0123456789abcdef" || c in "0123456789ABCDEF"
    ensures DigitValue(c) < 10 <==> c in "0123456789"
  {
    var lower, upper := "0123456789abcdef", "0123456789ABCDEF";
    if DigitValue(c) < 16 {
      assert c == lower[DigitValue(c)] || c == upper[DigitValue(c)];
    }
    if DigitValue(c) < 10 {
      assert c == "0123456789"[DigitValue(c)];
    }
  }

  /** What printing puts for a digit. */
  lemma DigitCharIs(d: nat)
    requires d < 16
    ensures DigitChar(d) == "0123456789abcdef"[d]
  {
  }

  /** Digits count by their place. */
  lemma PlaceValue(n: nat, base: Base)
    ensures Scaled(n, base) == n * base && Leading(n, base) == n / base && Last(n, base) == n % base
  {
  }

  predicate AreDigits(s: string, base: Base) {
    s != "" && forall c :: c in s ==> DigitValue(c) < base
  }

  /** What reading yields for a value: the largest number if it is too large. */
  function Read64(n: nat): Number {
    if n > 0xFFFF_FFFF_FFFF_FFFF then Number(0xFFFF_FFFF_FFFF_FFFF, true, true) else Number(n, true, false)
  }

  /** The same after a minus sign: the difference to 2^64. */
  function Negated64(n: nat): Number {
    if n > 0xFFFF_FFFF_FFFF_FFFF then Number(0xFFFF_FFFF_FFFF_FFFF, true, true)
    else if n == 0 then Number(0, true, false)
    else Number(0x1_0000_0000_0000_0000 - n, true, false)
  }

  lemma DigitsAreRead(d: string, base: Base, negative: bool)
    requires AreDigits(d, base)
    ensures ReadDigits(d, base, negative) == (var n := Accumulate(d, base, 0); if negative then Negated64(n) else Read64(n))
  {
    assert d[0] in d;
  }

  /** Decimal digits, with or without a sign. */
  lemma DecimalIsRead(d: string)
    requires AreDigits(d, 10)
    ensures var n := Accumulate(d, 10, 0);
            Strtoull(d, 10) == Strtoull("+" + d, 10) == Read64(n) && Strtoull("-" + d, 10) == Negated64(n)
  {
    DigitsAreRead(d, 10, false);
    DigitsAreRead(d, 10, true);
    assert d[0] in d;
    assert ("+" + d)[1..] == d && ("-" + d)[1..] == d;
  }

  /** Hexadecimal digits, with the prefix if the base is not given. */
  lemma HexIsRead(d: string, x: char)
    requires AreDigits(d, 16) && (x == 'x' || x == 'X')
    ensures var n := Read64(Accumulate(d, 16, 0));
            Strtoull(['0', x] + d, 0) == n && Strtoull(['0', x] + d, 16) == n && Strtoull(d, 16) == n
  {
    DigitsAreRead(d, 16, false);
    assert d[0] in d;
    assert |d| >= 2 ==> d[1] in d;
    assert (['0', x] + d)[2..] == d;
  }

  /** Without a given base and a prefix, a leading zero makes the digits octal. */
  lemma OctalOrDecimalIsRead(d: string)
    requires AreDigits(d, 10)
    ensures d[0] != '0' ==> Strtoull(d, 0) == Read64(Accumulate(d, 10, 0))
    ensures d[0] == '0' && AreDigits(d, 8) ==> Strtoull(d, 0) == Read64(Accumulate(d, 8, 0))
  {
    assert d[0] in d;
    assert |d| >= 2 ==> d[1] in d;
    DigitsAreRead(d, 10, false);
    if AreDigits(d, 8) {
      DigitsAreRead(d, 8, false);
    }
  }

  /** White space in front does not matter. */
  lemma SpaceIsSkipped(c: char, s: string, base: nat)
    requires (base == 0 || base == 10 || base == 16) && c in " \t\n\r"
    ensures Strtoull([c] + s, base) == Strtoull(s, base)
  {
    assert SkipSpace([c] + s) == SkipSpace(s) by {
      assert ([c] + s)[1..] == s;
    }
  }

  /** Without a digit, nothing is converted. */
  lemma NothingIsRead(s: string, base: nat)
    requires base == 0 || base == 10 || base == 16
    requires s == "" || s[0] in "ghijklmnopqrstuvwxyz_./"
    ensures Strtoull(s, base) == Number(0, false, false)
  {
    assert SkipSpace(s) == s;
  }

  lemma {:induction false} AccumulateSnoc(s: string, c: char, base: Base, acc: nat)
    requires forall x :: x in s ==> DigitValue(x) < base
    requires DigitValue(c) < base
    ensures Accumulate(s + [c], base, acc) == Scaled(Accumulate(s, base, acc), base) + DigitValue(c)
  {
    if s == "" {
      assert Accumulate([c], base, acc) == Accumulate([], base, Scaled(acc, base) + DigitValue(c));
    } else {
      assert (s + [c])[1..] == s[1..] + [c];
      AccumulateSnoc(s[1..], c, base, Scaled(acc, base) + DigitValue(s[0]));
    }
  }

  lemma {:induction false} AccumulateOfPrint(n: nat, base: Base)
    ensures Accumulate(Print(n, base), base, 0) == n
  {
    if n < base {
      assert Accumulate([DigitChar(n)], base, 0) == Accumulate([], base, Scaled(0, base) + n);
    } else {
      AccumulateOfPrint(Leading(n, base), base);
      AccumulateSnoc(Print(Leading(n, base), base), DigitChar(Last(n, base)), base, 0);
    }
  }

  /** Reading a printed 64-bit number in the base it was printed in gives it back. */
  lemma StrtoullOfPrint(n: nat, base: nat)
    requires base == 10 || base == 16
    requires n < TWO_64
    ensures Strtoull(Print(n, base), base) == Number(n, true, false)
  {
    var s := Print(n, base);
    assert s[0] in s;
    AccumulateOfPrint(n, base);
    if |s| >= 2 {
      assert s[1] in s;
    }
  }
}
