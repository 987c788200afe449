/**
 * The small pieces of Python string behaviour the application relies on:
 * `str.strip()` with Python's notion of whitespace, `str.lower()` as far as
 * the `exit`/`quit` comparisons need it, and `int()` on a decimal string.
 */
module Text {
  import opened Wrappers

  /** Python's `str.isspace()` for one character: the characters `str.strip()` removes. */
  predicate IsSpace(c: char) {
    || ('\t' <= c <= '\r')
    || ('\U{1C}' <= c <= '\U{1F}')
    || c == ' '
    || c == '\U{85}'
    || c == '\U{A0}'
    || c == '\U{1680}'
    || ('\U{2000}' <= c <= '\U{200A}')
    || c == '\U{2028}'
    || c == '\U{2029}'
    || c == '\U{202F}'
    || c == '\U{205F}'
    || c == '\U{3000}'
  }

  predicate AllSpace(s: string) {
    forall i :: 0 <= i < |s| ==> IsSpace(s[i])
  }

  /** Every character of `s` from index `lo` up to, not including, `hi` is whitespace. */
  predicate SpaceBetween(s: string, lo: int, hi: int)
    requires 0 <= lo <= hi <= |s|
  {
    forall j :: lo <= j < hi ==> IsSpace(s[j])
  }

  /** `s.lstrip()`: drops the leading whitespace and nothing else. */
  function TrimStart(s: string): (r: string)
    ensures |r| <= |s| && r == s[|s| - |r|..]
    ensures SpaceBetween(s, 0, |s| - |r|)
    ensures r == [] || !IsSpace(r[0])
    decreases |s|
  {
    if s != [] && IsSpace(s[0]) then
      var r := TrimStart(s[1..]);
      assert forall j :: 1 <= j < |s| ==> s[j] == s[1..][j - 1];
      r
    else s
  }

  /** `s.rstrip()`: drops the trailing whitespace and nothing else. */
  function TrimEnd(s: string): (r: string)
    ensures |r| <= |s| && r == s[..|r|]
    ensures SpaceBetween(s, |r|, |s|)
    ensures r == [] || !IsSpace(r[|r| - 1])
    decreases |s|
  {
    if s != [] && IsSpace(s[|s| - 1]) then
      var r := TrimEnd(s[..|s| - 1]);
      assert forall j :: 0 <= j < |s| - 1 ==> s[j] == s[..|s| - 1][j];
      r
    else s
  }

  /**
   * `r` is what is left of `s` once the `i` leading characters and everything
   * after `r` are removed, the removed parts are all whitespace, and `r`
   * neither starts nor ends with whitespace.
   */
  predicate StrippedAt(s: string, i: int, r: string) {
    && 0 <= i && i + |r| <= |s|
    && r == s[i..i + |r|]
    && SpaceBetween(s, 0, i)
    && SpaceBetween(s, i + |r|, |s|)
    && (r == [] || (!IsSpace(r[0]) && !IsSpace(r[|r| - 1])))
  }

  /** Python's `s.strip()`. */
  function Strip(s: string): (r: string)
    ensures StrippedAt(s, |s| - |TrimStart(s)|, r)
  {
    TrimBoth(s);
    TrimEnd(TrimStart(s))
  }

  /** Trimming the leading and then the trailing whitespace strips `s`. */
  lemma TrimBoth(s: string)
    ensures StrippedAt(s, |s| - |TrimStart(s)|, TrimEnd(TrimStart(s)))
  {
    var t := TrimStart(s);
    StripOfTrims(s, |s| - |t|, t, TrimEnd(t));
  }

  /** A whitespace-free-ended prefix `r` of the suffix `t == s[k..]` strips `s` when both cuts removed only whitespace. */
  lemma StripOfTrims(s: string, k: int, t: string, r: string)
    requires 0 <= k <= |s| && t == s[k..] && SpaceBetween(s, 0, k) && (t == [] || !IsSpace(t[0]))
    requires |r| <= |t| && r == t[..|r|] && SpaceBetween(t, |r|, |t|) && (r == [] || !IsSpace(r[|r| - 1]))
    ensures StrippedAt(s, k, r)
  {
    assert t[..|r|] == s[k..k + |r|];
    SpaceShift(s, k, |r|, |t|);
    assert r != [] ==> r[0] == t[0];
  }

  /** Whitespace in a range of `s[k..]` is whitespace in the same range of `s`, shifted by `k`. */
  lemma SpaceShift(s: string, k: int, lo: int, hi: int)
    requires 0 <= k <= |s| && 0 <= lo <= hi <= |s| - k
    ensures SpaceBetween(s[k..], lo, hi) <==> SpaceBetween(s, k + lo, k + hi)
  {
    assert forall j :: lo <= j < hi ==> s[k..][j] == s[k + j];
    if SpaceBetween(s, k + lo, k + hi) {
      forall j | lo <= j < hi ensures IsSpace(s[k..][j]) {
        assert IsSpace(s[k + j]);
      }
    } else if SpaceBetween(s[k..], lo, hi) {
      forall j | k + lo <= j < k + hi ensures IsSpace(s[j]) {
        assert IsSpace(s[k..][j - k]);
      }
    }
  }

  /** The whitespace-only test `not s.strip()`. */
  predicate IsBlank(s: string) {
    Strip(s) == []
  }

  lemma TrimStartUnique(s: string, i: int)
    requires 0 <= i <= |s| && SpaceBetween(s, 0, i)
    requires i == |s| || !IsSpace(s[i])
    ensures TrimStart(s) == s[i..]
  {
    var t := TrimStart(s);
    var k := |s| - |t|;
    assert k < |s| ==> s[k] == t[0];
    assert k == i;
  }

  lemma TrimEndUnique(s: string, j: int)
    requires 0 <= j <= |s| && SpaceBetween(s, j, |s|)
    requires j == 0 || !IsSpace(s[j - 1])
    ensures TrimEnd(s) == s[..j]
  {
    var t := TrimEnd(s);
    assert |t| > 0 ==> s[|t| - 1] == t[|t| - 1];
    assert |t| == j;
  }

  /** The left margin of a non-empty `StrippedAt` trimming is what `TrimStart` removes. */
  lemma LeftMarginAt(s: string, i: int, r: string)
    requires StrippedAt(s, i, r) && r != []
    ensures TrimStart(s) == s[i..]
  {
    assert s[i] == r[0];
    TrimStartUnique(s, i);
  }

  /** The right margin of a non-empty `StrippedAt` trimming is what `TrimEnd` removes. */
  lemma RightMarginAt(s: string, i: int, r: string)
    requires StrippedAt(s, i, r) && r != []
    ensures TrimEnd(s[i..]) == r
  {
    var t := s[i..];
    SpaceShift(s, i, |r|, |t|);
    assert t[|r| - 1] == r[|r| - 1];
    TrimEndUnique(t, |r|);
    assert t[..|r|] == r;
  }

  /** Any trimming of `s` that meets `StrippedAt` is the one `Strip` computes. */
  lemma StripUnique(s: string, i: int, r: string)
    requires StrippedAt(s, i, r)
    ensures r == Strip(s)
  {
    if r == [] {
      TrimStartUnique(s, |s|);
    } else {
      LeftMarginAt(s, i, r);
      RightMarginAt(s, i, r);
    }
  }

  /** Stripping twice is stripping once. */
  lemma StripIdempotent(s: string)
    ensures Strip(Strip(s)) == Strip(s)
  {
    var r := Strip(s);
    assert r[0..|r|] == r;
    StripUnique(r, 0, r);
  }

  /** A string is blank exactly when every character is whitespace. */
  lemma BlankIffAllSpace(s: string)
    ensures IsBlank(s) <==> AllSpace(s)
  {
    if AllSpace(s) {
      assert s[0..0] == [];
      StripUnique(s, 0, []);
    }
  }

  /** Python's `str.lower()` on one character, for the ASCII letters. */
  function LowerChar(c: char): char {
    if 'A' <= c <= 'Z' then (c as int + 32) as char else c
  }

  function Lower(s: string): (r: string)
    ensures |r| == |s|
    ensures forall i :: 0 <= i < |s| ==> r[i] == LowerChar(s[i])
  {
    seq(|s|, i requires 0 <= i < |s| => LowerChar(s[i]))
  }

  /** The command test `s.lower() in ("exit", "quit")`. */
  predicate IsExitWord(s: string) {
    Lower(s) == "exit" || Lower(s) == "quit"
  }

  /** Each character of `s` is the corresponding letter of `lower` or of `upper`. */
  predicate SpelledAs(s: string, lower: string, upper: string)
    requires |lower| == |upper|
  {
    |s| == |lower| && forall i :: 0 <= i < |s| ==> s[i] == lower[i] || s[i] == upper[i]
  }

  /**
   * The exit words are exactly the 32 mixed-case spellings of `exit` and
   * `quit`: whitespace around them or any other character defeats the test.
   */
  lemma ExitWordSpellings(s: string)
    ensures IsExitWord(s) <==> SpelledAs(s, "exit", "EXIT") || SpelledAs(s, "quit", "QUIT")
  {
    if SpelledAs(s, "exit", "EXIT") {
      assert Lower(s) == "exit";
    }
    if SpelledAs(s, "quit", "QUIT") {
      assert Lower(s) == "quit";
    }
    if Lower(s) == "exit" {
      forall i | 0 <= i < |s| ensures s[i] == "exit"[i] || s[i] == "EXIT"[i] {
        assert LowerChar(s[i]) == "exit"[i];
      }
    }
    if Lower(s) == "quit" {
      forall i | 0 <= i < |s| ensures s[i] == "quit"[i] || s[i] == "QUIT"[i] {
        assert LowerChar(s[i]) == "quit"[i];
      }
    }
  }

  predicate IsDigit(c: char) {
    '0' <= c <= '9'
  }

  predicate AllDigits(s: string) {
    forall i :: 0 <= i < |s| ==> IsDigit(s[i])
  }

  /** The value of a string of decimal digits, most significant first. */
  function DigitsValue(s: string): nat
    requires AllDigits(s)
    decreases |s|
  {
    if s == [] then 0 else DigitsValue(s[..|s| - 1]) * 10 + (s[|s| - 1] as int - '0' as int)
  }

  /**
   * Python's `int(s)` for an optional sign followed by ASCII digits; every
   * other string is the `ValueError` case, `None` here.
   */
  function ParseInt(s: string): (n: Option<int>)
    ensures s != [] && AllDigits(s) ==> n == Some(DigitsValue(s))
    ensures n.Some? <==> s != [] && AllDigits(s[1..]) && (IsDigit(s[0]) || (|s| > 1 && (s[0] == '-' || s[0] == '+')))
    ensures n.Some? && s[0] != '-' ==> n.value >= 0
    ensures s == [] ==> n.None?
  {
    if |s| > 1 && (s[0] == '-' || s[0] == '+') && AllDigits(s[1..]) then
      Some(if s[0] == '-' then -(DigitsValue(s[1..]) as int) else DigitsValue(s[1..]))
    else if s != [] && AllDigits(s) then
      Some(DigitsValue(s))
    else
      None
  }

  /** A string that starts with a sign is accepted iff digits follow it. */
  lemma SignPrefix(s: string)
    requires s != [] && (s[0] == '+' || s[0] == '-') && AllDigits(s[1..])
    ensures |s| == 1 ==> ParseInt(s).None?
    ensures |s| > 1 && s[0] == '+' ==> ParseInt(s) == Some(DigitsValue(s[1..]))
    ensures |s| > 1 && s[0] == '-' ==> ParseInt(s) == Some(-(DigitsValue(s[1..]) as int))
  {
  }

  /**
   * A sign in front of digits: `+` changes nothing, `-` negates, and a sign
   * with no digits after it is rejected.
   */
  lemma ParseSigned(d: string)
    requires AllDigits(d)
    ensures ParseInt("+" + d) == ParseInt(d)
    ensures d != [] ==> ParseInt("-" + d) == Some(-(DigitsValue(d) as int))
    ensures d == [] ==> ParseInt("-" + d).None?
  {
    assert ParseInt("+" + d) == ParseInt(d) by {
      var plus := "+" + d;
      assert plus[1..] == d;
      SignPrefix(plus);
      if d == [] {
        assert ParseInt(d).None?;
      } else {
        assert ParseInt(d) == Some(DigitsValue(d));
      }
    }
    var minus := "-" + d;
    assert minus[1..] == d;
    SignPrefix(minus);
  }

  /** `str(n)` for a natural number. */
  function Decimal(n: nat): (r: string)
    ensures r != [] && AllDigits(r)
  {
    if n < 10 then ['0' + n as char] else Decimal(n / 10) + ['0' + (n % 10) as char]
  }

  lemma {:induction false} DecimalValue(n: nat)
    ensures DigitsValue(Decimal(n)) == n
  {
    if n >= 10 {
      var d := Decimal(n);
      assert d[..|d| - 1] == Decimal(n / 10);
      DecimalValue(n / 10);
    }
  }

  /** `int(str(n)) == n` and `int("-" + str(n)) == -n`. */
  lemma ParseDecimalRoundTrip(n: nat)
    ensures ParseInt(Decimal(n)) == Some(n)
    ensures ParseInt("-" + Decimal(n)) == Some(-(n as int))
  {
    DecimalValue(n);
    var d := Decimal(n);
    assert ("-" + d)[1..] == d;
  }
}
