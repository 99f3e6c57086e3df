/** Character classes and string helpers with Python's meaning, restricted to what
    the aggregator uses: `str.strip()`, `str.upper()`, `str.isdigit()` on ASCII digits,
    the regular-expression class `\s`, and the substring test `sub in s`. */
module Text {

  /** Python's `str.isspace()` on the ASCII range, which is also what `\s` matches
      there and what `str.strip()` removes: tab, line feed, vertical tab, form feed,
      carriage return, the four separators U+001C to U+001F, and space. */
  predicate IsSpace(c: char) {
    0x09 <= c as int <= 0x0D || 0x1C <= c as int <= 0x20
  }

  predicate IsDigit(c: char) { '0' <= c <= '9' }

  predicate IsUpper(c: char) { 'A' <= c <= 'Z' }

  predicate IsLower(c: char) { 'a' <= c <= 'z' }

  /** Every character of `s` is in the class `p`. */
  predicate All(s: string, p: char -> bool) {
    s == [] || (p(s[0]) && All(s[1..], p))
  }

  lemma {:induction false} AllAt(s: string, p: char -> bool, i: nat)
    requires All(s, p) && i < |s|
    ensures p(s[i])
  {
    if i > 0 {
      AllAt(s[1..], p, i - 1);
    }
  }

  lemma {:induction false} AllIntro(s: string, p: char -> bool)
    requires forall i :: 0 <= i < |s| ==> p(s[i])
    ensures All(s, p)
  {
    if s != [] {
      assert forall i :: 0 <= i < |s[1..]| ==> s[1..][i] == s[i + 1];
      AllIntro(s[1..], p);
    }
  }

  lemma {:induction false} AllConcat(a: string, b: string, p: char -> bool)
    ensures All(a + b, p) <==> All(a, p) && All(b, p)
  {
    if a == [] {
      assert a + b == b;
    } else {
      assert (a + b)[0] == a[0] && (a + b)[1..] == a[1..] + b;
      AllConcat(a[1..], b, p);
    }
  }

  lemma AllSlice(s: string, p: char -> bool, i: nat, j: nat)
    requires All(s, p) && i <= j <= |s|
    ensures All(s[i..j], p)
  {
    assert s == s[..i] + s[i..j] + s[j..];
    AllConcat(s[..i] + s[i..j], s[j..], p);
    AllConcat(s[..i], s[i..j], p);
  }

  function ToUpper(c: char): char {
    if IsLower(c) then (c as int - 32) as char else c
  }

  function ToLower(c: char): char {
    if IsUpper(c) then (c as int + 32) as char else c
  }

  /** `s.upper()` on ASCII letters. */
  function Upper(s: string): string {
    seq(|s|, i requires 0 <= i < |s| => ToUpper(s[i]))
  }

  /** `s.lower()` on ASCII letters. */
  function Lower(s: string): string {
    seq(|s|, i requires 0 <= i < |s| => ToLower(s[i]))
  }

  /** Upper-casing forgets any earlier lower-casing. */
  lemma UpperOfLower(s: string)
    ensures Upper(Lower(s)) == Upper(s)
  {
    forall i | 0 <= i < |s|
      ensures ToUpper(ToLower(s[i])) == ToUpper(s[i])
    {
    }
  }

  /** `sub in s`. */
  predicate Contains(s: string, sub: string)
    decreases |s|
  {
    |sub| <= |s| && (s[..|sub|] == sub || Contains(s[1..], sub))
  }

  /** Length of the longest prefix of `s` whose characters are all in class `p`
      (what a greedy `p*` consumes). */
  function PrefixRun(s: string, p: char -> bool): (n: nat)
    ensures n <= |s|
    ensures All(s[..n], p)
    ensures n == |s| || !p(s[n])
  {
    if s != [] && p(s[0]) then
      var n := 1 + PrefixRun(s[1..], p);
      assert s[..n][0] == s[0] && s[..n][1..] == s[1..][..n - 1];
      n
    else 0
  }

  /** Length of the longest suffix of `s` whose characters are all in class `p`. */
  function SuffixRun(s: string, p: char -> bool): (n: nat)
    ensures n <= |s|
    ensures All(s[|s| - n..], p)
    ensures n == |s| || !p(s[|s| - n - 1])
  {
    if s != [] && p(s[|s| - 1]) then
      var n := 1 + SuffixRun(s[..|s| - 1], p);
      assert s[|s| - n..] == s[..|s| - 1][|s| - n..] + [s[|s| - 1]];
      AllConcat(s[..|s| - 1][|s| - n..], [s[|s| - 1]], p);
      n
    else 0
  }

  /** `s` cut after its longest prefix in class `p`. */
  function Span(s: string, p: char -> bool): (r: (string, string))
    ensures r.0 + r.1 == s
    ensures All(r.0, p)
    ensures r.1 == [] || !p(r.1[0])
  {
    var n := PrefixRun(s, p);
    assert s == s[..n] + s[n..];
    (s[..n], s[n..])
  }

  /** Cutting where the class stops finds the pieces it was built from. */
  lemma SpanConcat(a: string, b: string, p: char -> bool)
    requires All(a, p)
    requires b == [] || !p(b[0])
    ensures Span(a + b, p) == (a, b)
  {
    PrefixRunConcat(a, b, p);
    assert (a + b)[..|a|] == a && (a + b)[|a|..] == b;
  }

  function SpaceRun(s: string): nat { PrefixRun(s, IsSpace) }

  /** `s.strip()`: drop the leading and the trailing whitespace. */
  function Strip(s: string): (r: string)
    ensures r == [] || (!IsSpace(r[0]) && !IsSpace(r[|r| - 1]))
  {
    StripEnds(s);
    var t := s[SpaceRun(s)..];
    t[..|t| - SuffixRun(t, IsSpace)]
  }

  lemma StripEnds(s: string)
    ensures var t := s[SpaceRun(s)..]; var r := t[..|t| - SuffixRun(t, IsSpace)];
      r == [] || (!IsSpace(r[0]) && !IsSpace(r[|r| - 1]))
  {
    var t := s[SpaceRun(s)..];
    if t != [] {
      assert t[0] == s[SpaceRun(s)];
    }
  }

  /** What `Strip` removes is whitespace on both sides. */
  lemma StripPieces(s: string)
    ensures var r := Strip(s); var i := SpaceRun(s);
      && i + |r| <= |s| && r == s[i..i + |r|]
      && All(s[..i], IsSpace) && All(s[i + |r|..], IsSpace)
  {
    var i := SpaceRun(s);
    var t := s[i..];
    var j := SuffixRun(t, IsSpace);
    var n := |t| - j;
    assert Strip(s) == t[..n];
    SliceOfSuffix(s, i, n);
  }

  lemma SplitAt(s: string, n: nat)
    requires n <= |s|
    ensures s == s[..n] + s[n..]
  {
  }

  /** Slicing a suffix is slicing the whole. */
  lemma SliceOfSuffix(s: string, i: nat, n: nat)
    requires i + n <= |s|
    ensures s[i..][..n] == s[i..i + n] && s[i..][n..] == s[i + n..]
  {
  }

  /** The run lengths are determined by where the class stops. */
  lemma {:induction false} PrefixRunConcat(a: string, b: string, p: char -> bool)
    requires All(a, p)
    requires b == [] || !p(b[0])
    ensures PrefixRun(a + b, p) == |a|
  {
    if a != [] {
      assert (a + b)[0] == a[0] && (a + b)[1..] == a[1..] + b;
      PrefixRunConcat(a[1..], b, p);
    } else {
      assert a + b == b;
    }
  }

  /** A string that neither starts nor ends with whitespace is its own strip. */
  lemma StripTrimmed(s: string)
    requires s == [] || (!IsSpace(s[0]) && !IsSpace(s[|s| - 1]))
    ensures Strip(s) == s
  {
    assert s[0..] == s;
    if s != [] {
      assert s[..|s|] == s;
    }
  }

  /** Stripping twice is stripping once (`_parse_date` strips a cell that was
      already stripped). */
  lemma StripIdempotent(s: string)
    ensures Strip(Strip(s)) == Strip(s)
  {
    StripTrimmed(Strip(s));
  }

  /** `s.strip()` is empty exactly when `s` is all whitespace. */
  lemma StripEmpty(s: string)
    ensures Strip(s) == [] <==> All(s, IsSpace)
  {
    StripAllSpace(s);
    StripEmptyAllSpace(s);
  }

  lemma StripAllSpace(s: string)
    ensures All(s, IsSpace) ==> Strip(s) == []
  {
    if All(s, IsSpace) {
      assert s + [] == s;
      PrefixRunConcat(s, [], IsSpace);
    }
  }

  lemma StripEmptyAllSpace(s: string)
    ensures Strip(s) == [] ==> All(s, IsSpace)
  {
    var i := SpaceRun(s);
    var t := s[i..];
    assert s == s[..i] + t;
    AllConcat(s[..i], t, IsSpace);
    if Strip(s) == [] {
      assert t[|t| - SuffixRun(t, IsSpace)..] == t;
    }
  }

  function DigitValue(c: char): nat
    requires IsDigit(c)
  {
    c as int - '0' as int
  }

  function DigitChar(n: nat): (c: char)
    requires n < 10
    ensures IsDigit(c) && DigitValue(c) == n
  {
    ('0' as int + n) as char
  }

  /** The number a string of decimal digits denotes (Python's `int(s)`). */
  function DigitsValue(s: string): nat
    requires All(s, IsDigit)
  {
    if s == [] then 0
    else
      AllSlice(s, IsDigit, 0, |s| - 1);
      AllAt(s, IsDigit, |s| - 1);
      DigitsValue(s[..|s| - 1]) * 10 + DigitValue(s[|s| - 1])
  }

  function Pow10(n: nat): (r: nat)
    ensures r >= 1
  {
    if n == 0 then 1 else 10 * Pow10(n - 1)
  }

  /** `n` written in exactly `width` decimal digits, zero-padded on the left
      (`%02d`, `%04d`), keeping only the low `width` digits. */
  function PadDigits(n: nat, width: nat): (s: string)
    ensures |s| == width && All(s, IsDigit)
    ensures DigitsValue(s) == n % Pow10(width)
  {
    if width == 0 then []
    else
      var s := PadDigits(n / 10, width - 1) + [DigitChar(n % 10)];
      assert s[..|s| - 1] == PadDigits(n / 10, width - 1);
      AllConcat(PadDigits(n / 10, width - 1), [DigitChar(n % 10)], IsDigit);
      PadDivMod(n, width);
      s
  }

  lemma PadDivMod(n: nat, width: nat)
    requires width > 0
    ensures (n / 10) % Pow10(width - 1) * 10 + n % 10 == n % Pow10(width)
  {
    var p := Pow10(width - 1);
    var q := (n / 10) / p;
    var r := (n / 10) % p;
    var m := r * 10 + n % 10;
    assert n / 10 == p * q + r;
    assert n == 10 * (n / 10) + n % 10;
    assert n == (10 * p) * q + m by {
      assert 10 * (p * q + r) == (10 * p) * q + 10 * r;
    }
    assert m < 10 * p by {
      assert r <= p - 1;
      assert r * 10 <= (p - 1) * 10;
    }
    DivModUnique(n, 10 * p, q, m);
  }

  /** The quotient and remainder of a division are the only ones. */
  lemma DivModUnique(n: int, d: int, q: int, m: int)
    requires d > 0 && n == d * q + m && 0 <= m < d
    ensures n % d == m && n / d == q
  {
    var q', m' := n / d, n % d;
    assert n == d * q' + m';
    assert d * (q' - q) == m - m';
    if q' > q {
      MulAtLeast(d, q' - q);
    } else if q' < q {
      assert d * (q - q') == m' - m;
      MulAtLeast(d, q - q');
    }
  }

  lemma MulAtLeast(d: int, k: int)
    requires d > 0 && k >= 1
    ensures d * k >= d
  {
  }

  /** A digit string is recovered from its value: writing the value back in as
      many digits gives the same string. */
  lemma {:induction false} PadDigitsValue(s: string)
    requires All(s, IsDigit)
    ensures DigitsValue(s) < Pow10(|s|)
    ensures PadDigits(DigitsValue(s), |s|) == s
  {
    if s != [] {
      var init := s[..|s| - 1];
      AllSlice(s, IsDigit, 0, |s| - 1);
      AllAt(s, IsDigit, |s| - 1);
      PadDigitsValue(init);
      var v := DigitsValue(s);
      assert v / 10 == DigitsValue(init) && v % 10 == DigitValue(s[|s| - 1]);
      assert DigitsValue(init) % Pow10(|init|) == DigitsValue(init);
      assert s == init + [s[|s| - 1]];
    }
  }
}
