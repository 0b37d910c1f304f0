/** String helpers with Python's semantics: `str.strip()` and decimal rendering of integers. */
module Text {

  /** Python's `str.isspace()` table, the characters `str.strip()` removes when called with no argument. */
  predicate IsWhitespace(c: char) {
    || ('\U{0009}' <= c <= '\U{000D}')
    || ('\U{001C}' <= c <= '\U{0020}')
    || c == '\U{0085}'
    || c == '\U{00A0}'
    || c == '\U{1680}'
    || ('\U{2000}' <= c <= '\U{200A}')
    || c == '\U{2028}'
    || c == '\U{2029}'
    || c == '\U{202F}'
    || c == '\U{205F}'
    || c == '\U{3000}'
  }

  predicate AllWhitespace(s: string) {
    forall i :: 0 <= i < |s| ==> IsWhitespace(s[i])
  }

  /** True when `s` has no whitespace at either end (the shape `str.strip()` leaves). */
  predicate Trimmed(s: string) {
    s == [] || (!IsWhitespace(s[0]) && !IsWhitespace(s[|s| - 1]))
  }

  /** Python's `s.lstrip()`: drops the longest all-whitespace prefix. */
  function StripLeading(s: string): string {
    if s != [] && IsWhitespace(s[0]) then StripLeading(s[1..]) else s
  }

  /** Python's `s.rstrip()`: drops the longest all-whitespace suffix. */
  function StripTrailing(s: string): string {
    if s != [] && IsWhitespace(s[|s| - 1]) then StripTrailing(s[..|s| - 1]) else s
  }

  /** `StripLeading` removes an all-whitespace prefix and stops at the first non-whitespace character. */
  lemma {:induction false} StripLeadingSpec(s: string)
    ensures var r := StripLeading(s);
      && |r| <= |s| && r == s[|s| - |r|..]
      && AllWhitespace(s[..|s| - |r|])
      && (r == [] || !IsWhitespace(r[0]))
  {
    if s != [] && IsWhitespace(s[0]) {
      StripLeadingSpec(s[1..]);
      var r := StripLeading(s[1..]);
      assert s[..|s| - |r|] == [s[0]] + s[1..][..|s| - 1 - |r|];
    }
  }

  /** `StripTrailing` removes an all-whitespace suffix and stops at the last non-whitespace character. */
  lemma {:induction false} StripTrailingSpec(s: string)
    ensures var r := StripTrailing(s);
      && |r| <= |s| && r == s[..|r|]
      && AllWhitespace(s[|r|..])
      && (r == [] || !IsWhitespace(r[|r| - 1]))
  {
    if s != [] && IsWhitespace(s[|s| - 1]) {
      StripTrailingSpec(s[..|s| - 1]);
      var r := StripTrailing(s[..|s| - 1]);
      assert s[|r|..] == s[..|s| - 1][|r|..] + [s[|s| - 1]];
    }
  }

  /** Python's `s.strip()`: the middle of `s` once both whitespace ends are removed. */
  function Strip(s: string): string
  {
    StripTrailing(StripLeading(s))
  }

  /** `Strip` keeps a contiguous slice of its input, bounded by whitespace-only margins,
      and that slice has no whitespace at either end. */
  lemma StripCharacterization(s: string)
    ensures exists i, j ::
      (0 <= i <= j <= |s| && Strip(s) == s[i..j] && AllWhitespace(s[..i]) && AllWhitespace(s[j..]))
    ensures Trimmed(Strip(s))
  {
    StripLeadingSpec(s);
    var l := StripLeading(s);
    StripTrailingSpec(l);
    var r := StripTrailing(l);
    var i := |s| - |l|;
    var j := i + |r|;
    assert s[i..j] == l[..|r|];
    assert s[j..] == l[|r|..];
    if r != [] {
      assert r[0] == l[0];
    }
  }

  /** Once a string is trimmed, stripping it changes nothing; hence `Strip` is idempotent. */
  lemma StripOfTrimmed(s: string)
    requires Trimmed(s)
    ensures Strip(s) == s
  {
  }

  lemma StripIdempotent(s: string)
    ensures Strip(Strip(s)) == Strip(s)
  {
    StripCharacterization(s);
    StripOfTrimmed(Strip(s));
  }

  /** `Strip` yields the empty string exactly on all-whitespace input. */
  lemma StripEmptyIffAllWhitespace(s: string)
    ensures Strip(s) == [] <==> AllWhitespace(s)
  {
    StripLeadingSpec(s);
    var l := StripLeading(s);
    StripTrailingSpec(l);
    if l != [] {
      assert l[0] == s[|s| - |l|];
    } else {
      assert s == s[..|s|];
    }
  }

  /** Trailing stripping of `a + b` never reaches into `a` when `b` holds a non-whitespace character. */
  lemma {:induction false} StripTrailingAppend(a: string, b: string)
    requires !AllWhitespace(b)
    ensures StripTrailing(a + b) == a + StripTrailing(b)
    decreases |b|
  {
    var last := |b| - 1;
    assert (a + b)[|a + b| - 1] == b[last];
    if IsWhitespace(b[last]) {
      var b' := b[..last];
      assert (a + b)[..|a + b| - 1] == a + b';
      assert !AllWhitespace(b') by {
        var k :| 0 <= k < |b| && !IsWhitespace(b[k]);
        assert k < last && b'[k] == b[k];
      }
      StripTrailingAppend(a, b');
    }
  }

  /** A string that starts with a non-whitespace character loses only trailing whitespace to `Strip`. */
  lemma StripOfNonSpaceStart(s: string)
    requires s != [] && !IsWhitespace(s[0])
    ensures Strip(s) == StripTrailing(s)
  {
  }

  // ---------------------------------------------------------------------------
  // Decimal rendering, as f"{n}" does for a Python int.

  function Digit(d: nat): (c: char)
    requires d < 10
    ensures '0' <= c <= '9'
  {
    "0123456789"[d]
  }

  function DigitValue(c: char): (d: nat)
    requires '0' <= c <= '9'
    ensures d < 10
  {
    (c as int - '0' as int) as nat
  }

  predicate AllDigits(s: string) {
    forall i :: 0 <= i < |s| ==> '0' <= s[i] <= '9'
  }

  /** The value a string of decimal digits denotes, most significant digit first. */
  function DecimalValue(s: string): nat
    requires AllDigits(s)
  {
    if s == [] then 0 else DecimalValue(s[..|s| - 1]) * 10 + DigitValue(s[|s| - 1])
  }

  /** The shortest decimal numeral of `n`, as `str(n)` gives for a non-negative int. */
  function NatToDecimal(n: nat): (r: string)
    ensures r != [] && AllDigits(r)
    ensures |r| > 1 ==> r[0] != '0'
  {
    if n < 10 then [Digit(n)] else NatToDecimal(n / 10) + [Digit(n % 10)]
  }

  /** Reading back the numeral of `n` gives `n`: decimal rendering loses nothing. */
  lemma {:induction false} DecimalRoundTrip(n: nat)
    ensures DecimalValue(NatToDecimal(n)) == n
  {
    var s := NatToDecimal(n);
    if n >= 10 {
      DecimalRoundTrip(n / 10);
      assert s[..|s| - 1] == NatToDecimal(n / 10);
    }
  }

  /** `str(n)` for any Python int: a minus sign before the numeral of `-n` when negative. */
  function IntToString(n: int): (r: string)
    ensures r != []
    ensures n < 0 <==> r[0] == '-'
  {
    if n < 0 then "-" + NatToDecimal(-n) else NatToDecimal(n)
  }

  /** Distinct naturals have distinct numerals. */
  lemma NatToDecimalInjective(a: nat, b: nat)
    requires NatToDecimal(a) == NatToDecimal(b)
    ensures a == b
  {
    DecimalRoundTrip(a);
    DecimalRoundTrip(b);
  }

  /** Distinct integers render as distinct strings. */
  lemma IntToStringInjective(a: int, b: int)
    requires IntToString(a) == IntToString(b)
    ensures a == b
  {
    if a < 0 && b < 0 {
      var s := IntToString(a);
      assert s[1..] == NatToDecimal(-a);
      assert s[1..] == NatToDecimal(-b);
      NatToDecimalInjective(-a, -b);
    } else if 0 <= a && 0 <= b {
      NatToDecimalInjective(a, b);
    }
  }
}
