/** The few Python `str` operations the snapshot engine relies on, over
    `string` (a `seq<char>`): `find("\n")`, `startswith`, `strip(c)`,
    `str(int)` and the zero-padded fields of `strftime`. */
module PyStr {

  datatype Option<T> = None | Some(value: T)

  /** `s.find("\n") != -1` */
  predicate HasNewline(s: string) {
    '\n' in s
  }

  /** `s.startswith(c)` for a one-character prefix */
  predicate StartsWith(s: string, c: char) {
    |s| > 0 && s[0] == c
  }

  /** A run of `n` copies of `c`. */
  function Repeat(c: char, n: nat): string {
    seq(n, _ => c)
  }

  /** Neither begins nor ends with `c` (what `strip(c)` leaves behind). */
  predicate Unpadded(s: string, c: char) {
    s == [] || (s[0] != c && s[|s| - 1] != c)
  }

  /** `s.lstrip(c)`: removes the whole leading run of `c`. */
  function StripLeading(s: string, c: char): (r: string)
    ensures |r| <= |s|
    ensures r == [] || r[0] != c
  {
    if |s| > 0 && s[0] == c then StripLeading(s[1..], c) else s
  }

  /** `s.rstrip(c)`: removes the whole trailing run of `c`. */
  function StripTrailing(s: string, c: char): (r: string)
    ensures |r| <= |s|
    ensures r == [] || (r[0] == s[0] && r[|r| - 1] != c)
  {
    if |s| > 0 && s[|s| - 1] == c then StripTrailing(s[..|s| - 1], c) else s
  }

  /** `s.strip(c)`: removes the leading and the trailing run of `c`, so the
      result neither begins nor ends with `c`. */
  function Strip(s: string, c: char): (r: string)
    ensures |r| <= |s|
    ensures Unpadded(r, c)
  {
    StripTrailing(StripLeading(s, c), c)
  }

  lemma {:induction false} StripLeadingShape(s: string, c: char)
    ensures s == Repeat(c, |s| - |StripLeading(s, c)|) + StripLeading(s, c)
  {
    if |s| > 0 && s[0] == c {
      StripLeadingShape(s[1..], c);
    }
  }

  lemma {:induction false} StripTrailingShape(s: string, c: char)
    ensures s == StripTrailing(s, c) + Repeat(c, |s| - |StripTrailing(s, c)|)
  {
    if |s| > 0 && s[|s| - 1] == c {
      StripTrailingShape(s[..|s| - 1], c);
    }
  }

  /** What `Strip` removes is a run of `c` on either side of its result. */
  lemma StripRemovesRuns(s: string, c: char)
    ensures exists i: nat, j: nat :: s == Repeat(c, i) + Strip(s, c) + Repeat(c, j)
  {
    var t := StripLeading(s, c);
    var r := StripTrailing(t, c);
    StripLeadingShape(s, c);
    StripTrailingShape(t, c);
    var i: nat, j: nat := |s| - |t|, |t| - |r|;
    assert r == Strip(s, c);
    assert s == Repeat(c, i) + r + Repeat(c, j);
  }

  lemma {:induction false} StripLeadingRun(c: char, i: nat, r: string)
    requires r == [] || r[0] != c
    ensures StripLeading(Repeat(c, i) + r, c) == r
  {
    if i > 0 {
      assert (Repeat(c, i) + r)[1..] == Repeat(c, i - 1) + r;
      StripLeadingRun(c, i - 1, r);
    } else {
      assert Repeat(c, i) + r == r;
    }
  }

  lemma {:induction false} StripTrailingRun(c: char, r: string, j: nat)
    requires r == [] || r[|r| - 1] != c
    ensures StripTrailing(r + Repeat(c, j), c) == r
  {
    if j > 0 {
      assert Repeat(c, j) == Repeat(c, j - 1) + [c];
      assert (r + Repeat(c, j))[..|r| + j - 1] == r + Repeat(c, j - 1);
      StripTrailingRun(c, r, j - 1);
    } else {
      assert r + Repeat(c, j) == r;
    }
  }

  /** `strip(c)` is characterised by its two guarantees: any decomposition
      of `s` into a run of `c`, a middle that neither begins nor ends with `c`,
      and another run of `c` has that middle as its strip. */
  lemma StripUnique(c: char, i: nat, r: string, j: nat)
    requires Unpadded(r, c)
    ensures Strip(Repeat(c, i) + r + Repeat(c, j), c) == r
  {
    if r == [] {
      StripRun(c, i, j);
    } else {
      var rest := r + Repeat(c, j);
      assert Repeat(c, i) + r + Repeat(c, j) == Repeat(c, i) + rest;
      StripLeadingRun(c, i, rest);
      StripTrailingRun(c, r, j);
    }
  }

  lemma StripRun(c: char, i: nat, j: nat)
    ensures Strip(Repeat(c, i) + [] + Repeat(c, j), c) == []
  {
    RepeatAdd(c, i, j);
    assert Repeat(c, i) + [] + Repeat(c, j) == Repeat(c, i + j) + [];
    StripLeadingRun(c, i + j, []);
  }

  lemma RepeatAdd(c: char, i: nat, j: nat)
    ensures Repeat(c, i) + Repeat(c, j) == Repeat(c, i + j)
  {
  }

  /** Stripping `c` from `c` + `e` gives back `e` exactly when `e` was unpadded. */
  lemma StripPrefixed(c: char, e: string)
    requires Unpadded(e, c)
    ensures Strip([c] + e, c) == e
  {
    assert ([c] + e)[1..] == e;
    assert StripLeading([c] + e, c) == e;
  }

  // ---------------------------------------------------------------------
  // Decimal digits

  predicate IsDigit(ch: char) {
    '0' <= ch <= '9'
  }

  predicate AllDigits(s: string) {
    forall k :: 0 <= k < |s| ==> IsDigit(s[k])
  }

  function DigitChar(d: nat): (ch: char)
    requires d < 10
    ensures IsDigit(ch)
  {
    "0123456789"[d]
  }

  function DigitValue(ch: char): (d: nat)
    requires IsDigit(ch)
    ensures d < 10
  {
    (ch as int - '0' as int) as nat
  }

  lemma DigitRoundTrip(d: nat)
    requires d < 10
    ensures DigitValue(DigitChar(d)) == d
  {
  }

  /** Shortest decimal numeral of `n`, as Python's `str` writes it. */
  function NatToDecimal(n: nat): (r: string)
    ensures |r| > 0 && AllDigits(r)
    decreases n
  {
    if n < 10 then [DigitChar(n)] else NatToDecimal(n / 10) + [DigitChar(n % 10)]
  }

  /** The value of a non-empty numeral. */
  function DecimalValue(s: string): nat
    requires |s| > 0 && AllDigits(s)
  {
    if |s| == 1 then DigitValue(s[0])
    else 10 * DecimalValue(s[..|s| - 1]) + DigitValue(s[|s| - 1])
  }

  lemma {:induction false} NatToDecimalRoundTrip(n: nat)
    ensures DecimalValue(NatToDecimal(n)) == n
    decreases n
  {
    if n >= 10 {
      var s := NatToDecimal(n);
      NatToDecimalRoundTrip(n / 10);
      assert s[..|s| - 1] == NatToDecimal(n / 10);
      DigitRoundTrip(n % 10);
    } else {
      DigitRoundTrip(n);
    }
  }

  /** `str(i)` / `f"{i}"` of a Python `int`: a minus sign before the numeral
      of a negative number. */
  function IntToStr(i: int): (r: string)
    ensures |r| > 0
  {
    if i < 0 then "-" + NatToDecimal(-i) else NatToDecimal(i)
  }

  /** Reads back a numeral written by `IntToStr`: an optional minus sign
      followed by at least one digit. */
  function ParseInt(s: string): Option<int> {
    if |s| > 1 && s[0] == '-' && AllDigits(s[1..]) then Some(-(DecimalValue(s[1..]) as int))
    else if |s| > 0 && AllDigits(s) then Some(DecimalValue(s))
    else None
  }

  lemma IntToStrRoundTrip(i: int)
    ensures ParseInt(IntToStr(i)) == Some(i)
  {
    var s := IntToStr(i);
    if i < 0 {
      var digits := NatToDecimal(-i);
      assert s == "-" + digits;
      assert s[1..] == digits && AllDigits(digits);
      NatToDecimalRoundTrip(-i);
      assert s[0] == '-' && !IsDigit(s[0]);
      assert 1 < |s|;
      assert -(DecimalValue(s[1..]) as int) == i;
    } else {
      NatToDecimalRoundTrip(i);
      assert |s| > 0 && IsDigit(s[0]);
    }
  }

  /** `str` is injective on integers. */
  lemma IntToStrInjective(i: int, j: int)
    requires IntToStr(i) == IntToStr(j)
    ensures i == j
  {
    IntToStrRoundTrip(i);
    IntToStrRoundTrip(j);
  }

  /** A zero-padded two-digit field (`%m`, `%d`, `%H`, `%M`, `%S`). */
  function Pad2(n: nat): (r: string)
    requires n < 100
    ensures |r| == 2 && AllDigits(r)
  {
    [DigitChar(n / 10), DigitChar(n % 10)]
  }

  lemma Pad2Injective(m: nat, n: nat)
    requires m < 100 && n < 100
    requires Pad2(m) == Pad2(n)
    ensures m == n
  {
    DigitRoundTrip(m / 10);
    DigitRoundTrip(m % 10);
    DigitRoundTrip(n / 10);
    DigitRoundTrip(n % 10);
    assert Pad2(m)[0] == Pad2(n)[0] && Pad2(m)[1] == Pad2(n)[1];
  }

  /** A zero-padded four-digit field (`%Y`). */
  function Pad4(n: nat): (r: string)
    requires n < 10000
    ensures |r| == 4 && AllDigits(r)
  {
    Pad2(n / 100) + Pad2(n % 100)
  }

  lemma Pad4Injective(m: nat, n: nat)
    requires m < 10000 && n < 10000
    requires Pad4(m) == Pad4(n)
    ensures m == n
  {
    assert Pad4(m)[..2] == Pad2(m / 100) && Pad4(n)[..2] == Pad2(n / 100);
    assert Pad4(m)[2..] == Pad2(m % 100) && Pad4(n)[2..] == Pad2(n % 100);
    Pad2Injective(m / 100, n / 100);
    Pad2Injective(m % 100, n % 100);
  }
}
