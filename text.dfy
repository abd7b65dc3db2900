/** The JavaScript string operations the home page relies on: rendering an
    integer or an array inside a template literal, `indexOf`-style search
    for the marker that `split("page[offset]=")` cuts at, and `parseInt`
    without a radix. Also a one-character split and a cut at a character,
    which the page does not call: they are the means by which requests are
    read back. */
module Text {
  import opened Wrappers

  predicate IsDigit(c: char) { '0' <= c <= '9' }

  predicate AllDigits(s: string) { forall i :: 0 <= i < |s| ==> IsDigit(s[i]) }

  /** The value of a character as a digit, as `parseInt` weighs it for any
      radix up to 36: `0`-`9` are 0-9, letters of either case are 10-35, and
      every other character is 36, a digit in no radix. */
  function DigitWeight(c: char): (w: nat)
    ensures w <= 36
    ensures w < 10 <==> IsDigit(c)
  {
    if IsDigit(c) then c as int - '0' as int
    else if 'a' <= c <= 'z' then c as int - 'a' as int + 10
    else if 'A' <= c <= 'Z' then c as int - 'A' as int + 10
    else 36
  }

  predicate InRadix(s: string, radix: nat)
  {
    forall i :: 0 <= i < |s| ==> DigitWeight(s[i]) < radix
  }

  function DigitChar(d: nat): (c: char)
    requires d < 10
    ensures IsDigit(c) && DigitWeight(c) == d
  {
    (('0' as int) + d) as char
  }

  // ---------------------------------------------------------------------
  // Numbers in template literals and parseInt
  // ---------------------------------------------------------------------

  /** Decimal rendering of a natural number, as `${n}` gives for an integer. */
  function NatToString(n: nat): (s: string)
    ensures |s| > 0 && AllDigits(s)
    ensures s[0] == '0' ==> n == 0
    decreases n
  {
    if n < 10 then [DigitChar(n)] else NatToString(n / 10) + [DigitChar(n % 10)]
  }

  /** Rendering of an integer: a minus sign in front of a negative one. */
  function IntToString(i: int): (s: string)
    ensures |s| > 0 && (s[0] == '-' <==> i < 0)
  {
    if i < 0 then "-" + NatToString(-i) else NatToString(i)
  }

  /** The value of a string of digits in base `radix`, leading zeros
      allowed. */
  function DigitsValue(s: string, radix: nat): nat
    requires InRadix(s, radix)
    decreases |s|
  {
    if |s| == 0 then 0
    else DigitsValue(s[..|s| - 1], radix) * radix + DigitWeight(s[|s| - 1])
  }

  /** Length of the longest prefix of `s` made of digits of base `radix`. */
  function DigitRun(s: string, radix: nat): (k: nat)
    ensures k <= |s| && InRadix(s[..k], radix)
    ensures k < |s| ==> DigitWeight(s[k]) >= radix
    decreases |s|
  {
    if |s| > 0 && DigitWeight(s[0]) < radix then 1 + DigitRun(s[1..], radix) else 0
  }

  /** The digits `parseInt` reads after any sign and prefix: None (NaN)
      unless the text starts with a digit of the base. */
  function ParseDigits(s: string, radix: nat): (r: Option<nat>)
    ensures r.None? <==> (|s| == 0 || DigitWeight(s[0]) >= radix)
  {
    var k := DigitRun(s, radix);
    if k == 0 then None else Some(DigitsValue(s[..k], radix))
  }

  /** The text after an optional leading sign. */
  function Unsigned(s: string): (t: string)
    ensures t == s || (|s| > 0 && (s[0] == '-' || s[0] == '+') && t == s[1..])
  {
    if |s| > 0 && (s[0] == '-' || s[0] == '+') then s[1..] else s
  }

  /** `0x` or `0X`, which makes a radix-less `parseInt` read base 16. */
  predicate HasHexPrefix(t: string)
  {
    |t| >= 2 && t[0] == '0' && (t[1] == 'x' || t[1] == 'X')
  }

  /** `parseInt(s)` called without a radix: an optional sign; then a `0x` or
      `0X` prefix selects base 16, anything else base 10; the longest run of
      digits of that base is read and the rest ignored; no digit at all
      gives NaN (None). */
  function ParseInt(s: string): (r: Option<int>)
    ensures r.Some? && r.value < 0 ==> |s| > 0 && s[0] == '-'
    ensures var t := Unsigned(s);
      r.None? <==> if HasHexPrefix(t) then |t| == 2 || DigitWeight(t[2]) >= 16
                   else |t| == 0 || !IsDigit(t[0])
  {
    var t := Unsigned(s);
    var digits := if HasHexPrefix(t) then ParseDigits(t[2..], 16) else ParseDigits(t, 10);
    match digits
    case None => None
    case Some(n) => Some(if |s| > 0 && s[0] == '-' then -(n as int) else n as int)
  }

  lemma {:induction false} DigitsValueOfNatToString(n: nat)
    ensures DigitsValue(NatToString(n), 10) == n
    decreases n
  {
    if n >= 10 {
      var p := NatToString(n / 10);
      var s := p + [DigitChar(n % 10)];
      assert s[..|s| - 1] == p;
      DigitsValueOfNatToString(n / 10);
    }
  }

  lemma {:induction false} DigitRunStopsAt(d: string, rest: string)
    requires AllDigits(d)
    requires rest == [] || !IsDigit(rest[0])
    ensures DigitRun(d + rest, 10) == |d|
    decreases |d|
  {
    if |d| > 0 {
      assert (d + rest)[1..] == d[1..] + rest;
      DigitRunStopsAt(d[1..], rest);
    } else {
      assert d + rest == rest;
    }
  }

  /** The digit reading stops where the rendering of a natural number ends. */
  lemma ParseDigitsOfNatToString(n: nat, rest: string)
    requires rest == [] || !IsDigit(rest[0])
    ensures ParseDigits(NatToString(n) + rest, 10) == Some(n)
  {
    var d := NatToString(n);
    DigitRunStopsAt(d, rest);
    assert (d + rest)[..|d|] == d;
    DigitsValueOfNatToString(n);
  }

  lemma ParseIntOfNegative(m: int, rest: string)
    requires m < 0
    requires rest == [] || !IsDigit(rest[0])
    ensures ParseInt(IntToString(m) + rest) == Some(m)
  {
    var t := IntToString(m) + rest;
    var d := NatToString(-m);
    assert t[0] == '-' && Unsigned(t) == d + rest by {
      assert t == ['-'] + (d + rest);
    }
    assert !HasHexPrefix(d + rest) by {
      assert d[0] != '0';
      assert (d + rest)[0] == d[0];
    }
    ParseDigitsOfNatToString(-m, rest);
    ParseIntOfDecimal(t, -m);
  }

  lemma ParseIntOfDecimal(s: string, n: nat)
    requires !HasHexPrefix(Unsigned(s)) && ParseDigits(Unsigned(s), 10) == Some(n)
    ensures ParseInt(s) == Some(if |s| > 0 && s[0] == '-' then -(n as int) else n as int)
  {
  }

  lemma ParseIntOfNonNegative(m: int, rest: string)
    requires m >= 0
    requires rest == [] || !IsDigit(rest[0])
    requires m == 0 && rest != [] ==> rest[0] != 'x' && rest[0] != 'X'
    ensures ParseInt(IntToString(m) + rest) == Some(m)
  {
    var d := NatToString(m);
    var t := d + rest;
    assert t[0] == d[0] && IsDigit(d[0]);
    assert Unsigned(t) == t;
    assert !HasHexPrefix(t) by {
      if m == 0 {
        assert d == "0";
      } else {
        assert d[0] != '0';
      }
    }
    ParseDigitsOfNatToString(m, rest);
  }

  /** `parseInt` reads back the rendering of any integer followed by text
      that does not continue it: not a digit, and, after a rendered 0, not
      the `x` or `X` that would make `0x` a hexadecimal prefix. */
  lemma ParseIntOfIntToString(m: int, rest: string)
    requires rest == [] || !IsDigit(rest[0])
    requires m == 0 && rest != [] ==> rest[0] != 'x' && rest[0] != 'X'
    ensures ParseInt(IntToString(m) + rest) == Some(m)
  {
    if m < 0 {
      ParseIntOfNegative(m, rest);
    } else {
      ParseIntOfNonNegative(m, rest);
    }
  }

  /** After a rendered 0, an `x` opens a hexadecimal number: `0x14` is 20,
      and `0x` followed by no hexadecimal digit is NaN. */
  lemma ParseIntOfHexPrefix()
    ensures ParseInt("0x14") == Some(20)
    ensures ParseInt("-0X1f") == Some(-31)
    ensures ParseInt("0xg") == None
  {
    HexPair("0x14", '1', '4');
    HexPair("-0X1f", '1', 'f');
    assert Unsigned("0xg")[2..] == "g";
  }

  /** The two-digit hexadecimal number after a sign and a prefix. */
  lemma HexPair(s: string, hi: char, lo: char)
    requires DigitWeight(hi) < 16 && DigitWeight(lo) < 16
    requires HasHexPrefix(Unsigned(s)) && Unsigned(s)[2..] == [hi, lo]
    ensures ParseInt(s).Some?
    ensures ParseInt(s).value == (if s[0] == '-' then -1 else 1) * (DigitWeight(hi) * 16 + DigitWeight(lo))
  {
    var h := [hi, lo];
    assert DigitRun(h[2..], 16) == 0;
    assert DigitRun(h[1..], 16) == 1;
    assert DigitRun(h, 16) == 2;
    assert h[..2] == h && h[..1] == [hi] && [hi][..0] == [];
    assert DigitsValue([hi], 16) == DigitWeight(hi);
    assert DigitsValue(h, 16) == DigitWeight(hi) * 16 + DigitWeight(lo);
  }

  // ---------------------------------------------------------------------
  // Arrays in template literals, and splitting them back
  // ---------------------------------------------------------------------

  /** `${xs}` for an array of strings: the elements joined by `sep` (a comma
      in JavaScript), and the empty string for an empty array. */
  function Join(xs: seq<string>, sep: char): (s: string)
    ensures |xs| > 0 ==> |s| >= |xs[0]| && s[..|xs[0]|] == xs[0]
    ensures |xs| > 1 ==> |s| > |xs[0]| && s[|xs[0]|] == sep
    decreases |xs|
  {
    if |xs| == 0 then ""
    else if |xs| == 1 then xs[0]
    else xs[0] + [sep] + Join(xs[1..], sep)
  }

  /** `s.split(sep)` for a one-character separator: never empty, and no
      piece contains the separator. */
  function Split(s: string, sep: char): (parts: seq<string>)
    ensures |parts| > 0
    ensures forall i :: 0 <= i < |parts| ==> sep !in parts[i]
    decreases |s|
  {
    if |s| == 0 then [""]
    else
      var rest := Split(s[1..], sep);
      if s[0] == sep then [""] + rest else [[s[0]] + rest[0]] + rest[1..]
  }

  /** Joining the pieces of a split gives back the string. */
  lemma {:induction false} JoinSplit(s: string, sep: char)
    ensures Join(Split(s, sep), sep) == s
    decreases |s|
  {
    if |s| > 0 {
      var rest := Split(s[1..], sep);
      JoinSplit(s[1..], sep);
      if s[0] == sep {
        assert ([""] + rest)[1..] == rest;
        assert s == [sep] + s[1..];
      } else if |rest| == 1 {
        assert s == [s[0]] + s[1..];
      } else {
        var parts := [[s[0]] + rest[0]] + rest[1..];
        assert parts[1..] == rest[1..];
        assert s == [s[0]] + s[1..];
      }
    }
  }

  lemma {:induction false} SplitPrefix(x: string, t: string, sep: char)
    requires sep !in x
    ensures Split(x + t, sep) == [x + Split(t, sep)[0]] + Split(t, sep)[1..]
    decreases |x|
  {
    if |x| > 0 {
      var parts := Split(t, sep);
      assert (x + t)[0] == x[0] && (x + t)[1..] == x[1..] + t;
      SplitPrefix(x[1..], t, sep);
      assert Split(x[1..] + t, sep)[0] == x[1..] + parts[0];
      assert Split(x[1..] + t, sep)[1..] == parts[1..];
      assert [x[0]] + (x[1..] + parts[0]) == x + parts[0];
    } else {
      var parts := Split(t, sep);
      assert x + t == t;
      assert x + parts[0] == parts[0];
      assert [parts[0]] + parts[1..] == parts;
    }
  }

  /** Splitting a join gives back the elements, provided none of them
      contains the separator. */
  lemma {:induction false} SplitJoin(xs: seq<string>, sep: char)
    requires |xs| > 0
    requires forall i :: 0 <= i < |xs| ==> sep !in xs[i]
    ensures Split(Join(xs, sep), sep) == xs
    decreases |xs|
  {
    if |xs| == 1 {
      SplitPrefix(xs[0], "", sep);
      assert xs[0] + "" == xs[0];
    } else {
      var t := [sep] + Join(xs[1..], sep);
      SplitJoin(xs[1..], sep);
      assert t[1..] == Join(xs[1..], sep);
      assert Split(t, sep) == [""] + xs[1..];
      SplitPrefix(xs[0], t, sep);
      assert xs[0] + "" == xs[0];
      assert xs[0] + [sep] + Join(xs[1..], sep) == xs[0] + t;
      assert xs == [xs[0]] + xs[1..];
    }
  }

  /** A character that is neither the separator nor in any element is not in
      the join. */
  lemma {:induction false} JoinAvoids(xs: seq<string>, sep: char, c: char)
    requires c != sep
    requires forall i :: 0 <= i < |xs| ==> c !in xs[i]
    ensures c !in Join(xs, sep)
    decreases |xs|
  {
    if |xs| > 1 {
      JoinAvoids(xs[1..], sep, c);
    }
  }

  // ---------------------------------------------------------------------
  // Searching for a marker
  // ---------------------------------------------------------------------

  predicate OccursAt(s: string, pat: string, i: nat)
  {
    i + |pat| <= |s| && s[i..i + |pat|] == pat
  }

  /** First occurrence of `pat` at or after `from`. */
  function FindFrom(s: string, pat: string, from: nat): (r: Option<nat>)
    ensures r.Some? ==> from <= r.value && OccursAt(s, pat, r.value)
    ensures r.Some? ==> forall j: nat :: from <= j < r.value ==> !OccursAt(s, pat, j)
    ensures r.None? ==> forall j: nat :: from <= j ==> !OccursAt(s, pat, j)
    decreases |s| - from
  {
    if from + |pat| > |s| then None
    else if s[from..from + |pat|] == pat then Some(from)
    else FindFrom(s, pat, from + 1)
  }

  /** First occurrence of `pat` in `s`, as `indexOf` finds it. */
  function Find(s: string, pat: string): (r: Option<nat>)
    ensures r.Some? ==> OccursAt(s, pat, r.value)
    ensures r.Some? ==> forall j: nat :: j < r.value ==> !OccursAt(s, pat, j)
    ensures r.None? ==> forall j: nat :: !OccursAt(s, pat, j)
  {
    FindFrom(s, pat, 0)
  }

  /** The cut at the first occurrence of `c`: the text before it and the text
      after it; None when `c` does not occur. */
  function BreakAt(s: string, c: char): (r: Option<(string, string)>)
    ensures r.None? <==> c !in s
    ensures r.Some? ==> s == r.value.0 + [c] + r.value.1 && c !in r.value.0
    decreases |s|
  {
    if |s| == 0 then None
    else if s[0] == c then Some(("", s[1..]))
    else
      match BreakAt(s[1..], c)
      case None => None
      case Some(cut) => Some(([s[0]] + cut.0, cut.1))
  }

  lemma {:induction false} BreakAtFirst(k: string, c: char, v: string)
    requires c !in k
    ensures BreakAt(k + [c] + v, c) == Some((k, v))
    decreases |k|
  {
    if |k| > 0 {
      assert (k + [c] + v)[1..] == k[1..] + [c] + v;
      BreakAtFirst(k[1..], c, v);
      assert [k[0]] + k[1..] == k;
    } else {
      assert k + [c] + v == [c] + v;
    }
  }
}
