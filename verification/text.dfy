/** String primitives of the two runtimes the system runs on: decimal
    rendering and parsing of integers, `padStart`, substring search, Python's
    `str.split(sep)[-1]`, `strip()`/`trim()`, `lower()` and `title()`. */
module Text {
  import opened Wrappers

  // ---------------------------------------------------------------------------
  // Decimal numerals
  // ---------------------------------------------------------------------------

  predicate IsDigit(c: char) {
    '0' <= c <= '9'
  }

  predicate AllDigits(s: string) {
    forall i | 0 <= i < |s| :: IsDigit(s[i])
  }

  function DigitChar(d: nat): (c: char)
    requires d < 10
    ensures IsDigit(c)
  {
    ('0' as int + d) as char
  }

  function DigitValue(c: char): (d: nat)
    requires IsDigit(c)
    ensures d < 10 && DigitChar(d) == c
  {
    c as int - '0' as int
  }

  /** The shortest decimal numeral of `n`: no leading zero except for `0` itself. */
  function Digits(n: nat): (r: string)
    ensures 1 <= |r|
    ensures AllDigits(r)
    ensures r[0] == '0' <==> n == 0
    ensures n < 10 <==> |r| == 1
    decreases n
  {
    if n < 10 then [DigitChar(n)] else Digits(n / 10) + [DigitChar(n % 10)]
  }

  /** The value of a string of decimal digits, leading zeros allowed. */
  function ParseDigits(s: string): nat
    requires AllDigits(s)
    decreases |s|
  {
    if s == [] then 0 else ParseDigits(s[..|s| - 1]) * 10 + DigitValue(s[|s| - 1])
  }

  lemma {:induction false} ParseDigitsOfDigits(n: nat)
    ensures ParseDigits(Digits(n)) == n
    decreases n
  {
    var r := Digits(n);
    if n >= 10 {
      ParseDigitsOfDigits(n / 10);
      assert r[..|r| - 1] == Digits(n / 10);
    }
  }

  /** Leading zeros do not change the parsed value. */
  lemma {:induction false} ParseDigitsLeadingZero(s: string)
    requires AllDigits(s)
    ensures AllDigits("0" + s) && ParseDigits("0" + s) == ParseDigits(s)
    decreases |s|
  {
    var t := "0" + s;
    if s != [] {
      ParseDigitsLeadingZero(s[..|s| - 1]);
      assert t[..|t| - 1] == "0" + s[..|s| - 1];
    }
  }

  /** JavaScript's `String(n)` for a safe integer, and Python's `str(n)`. */
  function Decimal(n: int): (r: string)
    ensures 1 <= |r|
    ensures r[0] == '-' <==> n < 0
    ensures n >= 0 ==> AllDigits(r)
  {
    if n < 0 then "-" + Digits(-n) else Digits(n)
  }

  lemma DigitsInjective(m: nat, n: nat)
    ensures Digits(m) == Digits(n) ==> m == n
  {
    ParseDigitsOfDigits(m);
    ParseDigitsOfDigits(n);
  }

  /** Distinct integers render as distinct numerals. */
  lemma DecimalInjective(a: int, b: int)
    ensures Decimal(a) == Decimal(b) ==> a == b
  {
    if Decimal(a) == Decimal(b) {
      if a < 0 {
        assert b < 0;
        assert Digits(-a) == Decimal(a)[1..];
        assert Digits(-b) == Decimal(b)[1..];
        DigitsInjective(-a, -b);
      } else {
        DigitsInjective(a, b);
      }
    }
  }

  /** JavaScript's `s.padStart(width, fill)` for a one-character fill string. */
  function PadStart(s: string, width: nat, fill: char): (r: string)
    ensures |r| == if |s| < width then width else |s|
    ensures r[|r| - |s|..] == s
    ensures forall i | 0 <= i < |r| - |s| :: r[i] == fill
    decreases width - |s|
  {
    if |s| >= width then s
    else
      var t := [fill] + s;
      var r := PadStart(t, width, fill);
      PadStep(r, s, fill);
      r
  }

  /** One more `fill` in front of `s` leaves `s` as the suffix and `fill` everywhere before it. */
  lemma PadStep(r: string, s: string, fill: char)
    requires |r| > |s|
    requires r[|r| - |s| - 1..] == [fill] + s
    requires forall i | 0 <= i < |r| - |s| - 1 :: r[i] == fill
    ensures r[|r| - |s|..] == s
    ensures forall i | 0 <= i < |r| - |s| :: r[i] == fill
  {
    var k := |r| - |s|;
    assert r[k..] == r[k - 1..][1..];
    assert r[k - 1] == r[k - 1..][0];
  }

  lemma {:induction false} ParseDigitsZeroPadded(s: string, width: nat)
    requires AllDigits(s)
    ensures AllDigits(PadStart(s, width, '0'))
    ensures ParseDigits(PadStart(s, width, '0')) == ParseDigits(s)
    decreases width - |s|
  {
    if |s| < width {
      ParseDigitsLeadingZero(s);
      ParseDigitsZeroPadded("0" + s, width);
    }
  }

  // ---------------------------------------------------------------------------
  // Substrings
  // ---------------------------------------------------------------------------

  predicate OccursAt(s: string, sub: string, i: int) {
    0 <= i && i + |sub| <= |s| && s[i..i + |sub|] == sub
  }

  /** Python's `sub in s` and JavaScript's `s.includes(sub)`. */
  predicate Contains(s: string, sub: string) {
    exists i | 0 <= i <= |s| - |sub| :: OccursAt(s, sub, i)
  }

  /** The first occurrence of `sub` in `s` at or after `from`, as Python's `s.find(sub, from)`. */
  function Find(s: string, sub: string, from: nat): (r: Option<nat>)
    ensures r.Some? ==> from <= r.value && OccursAt(s, sub, r.value)
    ensures r.Some? ==> forall j | from <= j < r.value :: !OccursAt(s, sub, j)
    ensures r.None? ==> forall j | from <= j :: !OccursAt(s, sub, j)
    decreases |s| - from
  {
    if from + |sub| > |s| then None
    else if s[from..from + |sub|] == sub then Some(from)
    else Find(s, sub, from + 1)
  }

  lemma FindFromStart(s: string, sub: string)
    ensures Find(s, sub, 0).Some? <==> Contains(s, sub)
  {
    if Find(s, sub, 0).Some? {
      assert OccursAt(s, sub, Find(s, sub, 0).value);
    }
  }

  /** Where the final field of `s[from..].split(sep)` begins: just after the
      last separator found by Python's left-to-right scan, or `from` if none. */
  function LastFieldStart(s: string, sep: string, from: nat): (p: nat)
    requires |sep| > 0 && from <= |s|
    ensures from <= p <= |s|
    ensures forall j | p <= j :: !OccursAt(s, sep, j)
    ensures p > from ==> from + |sep| <= p && OccursAt(s, sep, p - |sep|)
    decreases |s| - from
  {
    match Find(s, sep, from)
    case None => from
    case Some(i) => LastFieldStart(s, sep, i + |sep|)
  }

  lemma OccursInSuffix(s: string, sub: string, k: nat, j: int)
    requires k <= |s|
    ensures OccursAt(s[k..], sub, j) ==> OccursAt(s, sub, k + j)
  {
    if OccursAt(s[k..], sub, j) {
      assert s[k..][j..j + |sub|] == s[k + j..k + j + |sub|];
    }
  }

  lemma NoOccurrenceInSuffix(s: string, sub: string, k: nat)
    requires k <= |s|
    requires forall j | k <= j :: !OccursAt(s, sub, j)
    ensures !Contains(s[k..], sub)
  {
    forall j | 0 <= j <= |s[k..]| - |sub|
      ensures !OccursAt(s[k..], sub, j)
    {
      OccursInSuffix(s, sub, k, j);
    }
  }

  lemma OccursInSlice(s: string, sub: string, a: nat, b: nat, j: int)
    requires a <= b <= |s|
    ensures OccursAt(s[a..b], sub, j) ==> OccursAt(s, sub, a + j)
  {
    if OccursAt(s[a..b], sub, j) {
      forall t | 0 <= t < |sub|
        ensures s[a + j..a + j + |sub|][t] == sub[t]
      {
        assert s[a..b][j..j + |sub|][t] == s[a..b][j + t] == s[a + j + t];
      }
      assert s[a + j..a + j + |sub|] == sub;
    }
  }

  lemma NoOccurrenceInSlice(s: string, sub: string, a: nat, b: nat)
    requires a <= b <= |s|
    requires !Contains(s, sub)
    ensures !Contains(s[a..b], sub)
  {
    forall j | 0 <= j <= |s[a..b]| - |sub|
      ensures !OccursAt(s[a..b], sub, j)
    {
      OccursInSlice(s, sub, a, b, j);
    }
  }

  /** The final field of Python's `s.split(sep)`: the text after the last
      separator, or all of `s` when there is none. */
  function LastField(s: string, sep: string): (r: string)
    requires |sep| > 0
    ensures |r| <= |s| && s[|s| - |r|..] == r
    ensures !Contains(r, sep)
    ensures Contains(s, sep) ==> OccursAt(s, sep, |s| - |r| - |sep|)
    ensures !Contains(s, sep) ==> r == s
  {
    var p := LastFieldStart(s, sep, 0);
    NoOccurrenceInSuffix(s, sep, p);
    s[p..]
  }

  // ---------------------------------------------------------------------------
  // Whitespace trimming
  // ---------------------------------------------------------------------------

  /** Python's `str.isspace()` for one character: the characters `str.strip()` removes. */
  predicate IsPythonSpace(c: char) {
    || '\t' <= c <= '\r'
    || '\U{1C}' <= c <= ' '
    || c == '\U{85}' || c == '\U{A0}' || c == '\U{1680}'
    || '\U{2000}' <= c <= '\U{200A}'
    || c == '\U{2028}' || c == '\U{2029}' || c == '\U{202F}' || c == '\U{205F}' || c == '\U{3000}'
  }

  /** The WhiteSpace and LineTerminator characters JavaScript's `String.prototype.trim` removes. */
  predicate IsJavaScriptSpace(c: char) {
    || '\t' <= c <= '\r'
    || c == ' ' || c == '\U{A0}' || c == '\U{1680}'
    || '\U{2000}' <= c <= '\U{200A}'
    || c == '\U{2028}' || c == '\U{2029}' || c == '\U{202F}' || c == '\U{205F}' || c == '\U{3000}'
    || c == '\U{FEFF}'
  }

  predicate AllSpace(s: string, space: char -> bool) {
    forall i | 0 <= i < |s| :: space(s[i])
  }

  function TrimStart(s: string, space: char -> bool): (r: string)
    ensures |r| <= |s| && s[|s| - |r|..] == r
    ensures AllSpace(s[..|s| - |r|], space)
    ensures r != [] ==> !space(r[0])
    decreases |s|
  {
    if s != [] && space(s[0]) then TrimStart(s[1..], space) else s
  }

  function TrimEnd(s: string, space: char -> bool): (r: string)
    ensures |r| <= |s| && s[..|r|] == r
    ensures AllSpace(s[|r|..], space)
    ensures r != [] ==> !space(r[|r| - 1])
    decreases |s|
  {
    if s != [] && space(s[|s| - 1]) then TrimEnd(s[..|s| - 1], space) else s
  }

  /** Python's `s.strip()` (with `IsPythonSpace`) and JavaScript's `s.trim()`
      (with `IsJavaScriptSpace`): `s` is `r` between two runs of whitespace,
      and `r` neither starts nor ends with whitespace. */
  function Trim(s: string, space: char -> bool): (r: string)
    ensures exists a, b | 0 <= a <= b <= |s| :: r == s[a..b] && AllSpace(s[..a], space) && AllSpace(s[b..], space)
    ensures r != [] ==> !space(r[0]) && !space(r[|r| - 1])
  {
    var t := TrimStart(s, space);
    var r := TrimEnd(t, space);
    var a := |s| - |t|;
    TrimBounds(s, t, r, space);
    assert r == s[a..a + |r|] && AllSpace(s[..a], space) && AllSpace(s[a + |r|..], space);
    assert r != [] ==> !space(r[0]) && !space(r[|r| - 1]);
    r
  }

  /** Cutting leading whitespace off `s` to get `t`, then trailing whitespace
      off `t` to get `r`, leaves `r` as a slice of `s` followed only by whitespace. */
  lemma TrimBounds(s: string, t: string, r: string, space: char -> bool)
    requires |t| <= |s| && s[|s| - |t|..] == t
    requires |r| <= |t| && t[..|r|] == r && AllSpace(t[|r|..], space)
    requires t != [] ==> !space(t[0])
    ensures var a := |s| - |t|;
      r == s[a..a + |r|] && AllSpace(s[a + |r|..], space)
    ensures r != [] ==> !space(r[0])
  {
    var a := |s| - |t|;
    assert r == s[a..a + |r|];
    assert s[a + |r|..] == t[|r|..];
  }

  lemma TrimIdempotent(s: string, space: char -> bool)
    ensures Trim(Trim(s, space), space) == Trim(s, space)
  {
  }

  /** A string trims to empty exactly when every character is whitespace. */
  lemma TrimEmptyIffAllSpace(s: string, space: char -> bool)
    ensures Trim(s, space) == [] <==> AllSpace(s, space)
  {
  }

  // ---------------------------------------------------------------------------
  // Case mapping (ASCII letters)
  // ---------------------------------------------------------------------------

  predicate IsUpper(c: char) {
    'A' <= c <= 'Z'
  }

  predicate IsLower(c: char) {
    'a' <= c <= 'z'
  }

  function LowerChar(c: char): char {
    if IsUpper(c) then (c as int + 32) as char else c
  }

  function UpperChar(c: char): char {
    if IsLower(c) then (c as int - 32) as char else c
  }

  /** Python's `s.lower()` restricted to ASCII letters. */
  function Lower(s: string): (r: string)
    ensures |r| == |s|
  {
    seq(|s|, i requires 0 <= i < |s| => LowerChar(s[i]))
  }

  lemma LowerAppend(a: string, b: string)
    ensures Lower(a + b) == Lower(a) + Lower(b)
  {
  }

  /** Python's `s.title()` restricted to ASCII letters: a letter is upper-cased
      when it follows a non-letter (or starts the string) and lower-cased
      otherwise. `afterLetter` says whether a letter precedes `s`. */
  function TitleFrom(s: string, afterLetter: bool): (r: string)
    ensures |r| == |s|
    decreases |s|
  {
    if s == [] then []
    else
      var c := s[0];
      var isLetter := IsUpper(c) || IsLower(c);
      [if !isLetter then c else if afterLetter then LowerChar(c) else UpperChar(c)]
        + TitleFrom(s[1..], isLetter)
  }

  function Title(s: string): string {
    TitleFrom(s, false)
  }
}
