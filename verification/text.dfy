/** The handful of Python string operations the scraper relies on:
    `str.strip`, `str.endswith`, slicing from an index (`s[k:]`) and the
    decimal rendering of an `int` inside an f-string. */
module Text {

  /** Python's `str.isspace` for a single character: the ASCII whitespace
      and separator controls plus the Unicode space separators. */
  predicate IsSpace(c: char) {
    || c == ' ' || c == '\t' || c == '\n' || c == '\r'
    || c == '\U{000B}' || c == '\U{000C}'
    || ('\U{001C}' <= c <= '\U{001F}')
    || c == '\U{0085}' || c == '\U{00A0}' || c == '\U{1680}'
    || ('\U{2000}' <= c <= '\U{200A}')
    || c == '\U{2028}' || c == '\U{2029}' || c == '\U{202F}'
    || c == '\U{205F}' || c == '\U{3000}'
  }

  predicate AllSpace(s: string) {
    forall i :: 0 <= i < |s| ==> IsSpace(s[i])
  }

  /** Drops leading whitespace: the result is a suffix of `s`, everything
      cut off is whitespace, and the result does not start with whitespace. */
  function TrimStart(s: string): (r: string)
    ensures |r| <= |s| && r == s[|s| - |r|..]
    ensures AllSpace(s[..|s| - |r|])
    ensures r != [] ==> !IsSpace(r[0])
  {
    if s != [] && IsSpace(s[0]) then
      var r := TrimStart(s[1..]);
      assert s[..|s| - |r|] == [s[0]] + s[1..][..|s| - 1 - |r|];
      r
    else
      s
  }

  /** Drops trailing whitespace: the result is a prefix of `s`, everything
      cut off is whitespace, and the result does not end with whitespace. */
  function TrimEnd(s: string): (r: string)
    ensures |r| <= |s| && r == s[..|r|]
    ensures AllSpace(s[|r|..])
    ensures r != [] ==> !IsSpace(r[|r| - 1])
  {
    if s != [] && IsSpace(s[|s| - 1]) then
      var r := TrimEnd(s[..|s| - 1]);
      assert s[|r|..] == s[..|s| - 1][|r|..] + [s[|s| - 1]];
      r
    else
      s
  }

  /** Python's `str.strip()` with no argument. */
  function Strip(s: string): string {
    TrimEnd(TrimStart(s))
  }

  /** `t` is `s` with whitespace padding removed from both ends and no
      whitespace left at either end of `t`: the independent description of
      what `str.strip()` returns. */
  ghost predicate IsStripOf(t: string, s: string) {
    exists i, j :: 0 <= i <= j <= |s| && t == s[i..j]
                   && AllSpace(s[..i]) && AllSpace(s[j..])
                   && (t != [] ==> !IsSpace(t[0]) && !IsSpace(t[|t| - 1]))
  }

  /** Exhibits the cut points of `IsStripOf`. */
  lemma StripOfAt(t: string, s: string, i: nat, j: nat)
    requires i <= j <= |s| && t == s[i..j]
    requires AllSpace(s[..i]) && AllSpace(s[j..])
    requires t != [] ==> !IsSpace(t[0]) && !IsSpace(t[|t| - 1])
    ensures IsStripOf(t, s)
  {
  }

  lemma StripIsStripOf(s: string)
    ensures IsStripOf(Strip(s), s)
  {
    var a := TrimStart(s);
    var t := TrimEnd(a);
    assert Strip(s) == t;
    var i := |s| - |a|;
    var j := i + |t|;
    assert AllSpace(s[..i]);
    assert t == s[i..j] by {
      assert a == s[i..];
      assert t == a[..|t|];
    }
    assert AllSpace(s[j..]) by {
      assert a == s[i..];
      assert s[j..] == a[|t|..];
    }
    assert t != [] ==> !IsSpace(t[0]) by {
      if t != [] {
        assert t[0] == a[0];
      }
    }
    StripOfAt(t, s, i, j);
  }

  /** Cutting at the first non-whitespace index is what `TrimStart` does. */
  lemma TrimStartAt(s: string, i: nat)
    requires i <= |s| && AllSpace(s[..i])
    requires i < |s| ==> !IsSpace(s[i])
    ensures TrimStart(s) == s[i..]
  {
    var k := |s| - |TrimStart(s)|;
    assert k < |s| ==> !IsSpace(s[k]) by {
      if k < |s| {
        assert TrimStart(s)[0] == s[k];
      }
    }
    assert forall m :: 0 <= m < k ==> IsSpace(s[m]) by {
      forall m | 0 <= m < k ensures IsSpace(s[m]) { assert s[..k][m] == s[m]; }
    }
    assert forall m :: 0 <= m < i ==> IsSpace(s[m]) by {
      forall m | 0 <= m < i ensures IsSpace(s[m]) { assert s[..i][m] == s[m]; }
    }
    assert k == i;
  }

  /** Cutting after the last non-whitespace index is what `TrimEnd` does. */
  lemma TrimEndAt(s: string, j: nat)
    requires j <= |s| && AllSpace(s[j..])
    requires 0 < j ==> !IsSpace(s[j - 1])
    ensures TrimEnd(s) == s[..j]
  {
  }

  lemma AllSpaceJoin(s: string, i: nat, j: nat)
    requires i <= j <= |s|
    requires AllSpace(s[..i]) && AllSpace(s[j..]) && i == j
    ensures AllSpace(s)
  {
    forall m | 0 <= m < |s| ensures IsSpace(s[m]) {
      if m < i {
        assert s[..i][m] == s[m];
      } else {
        assert s[j..][m - j] == s[m];
      }
    }
  }

  lemma StripAt(s: string, i: nat, j: nat)
    requires i < j <= |s|
    requires AllSpace(s[..i]) && AllSpace(s[j..])
    requires !IsSpace(s[i]) && !IsSpace(s[j - 1])
    ensures Strip(s) == s[i..j]
  {
    TrimStartAt(s, i);
    TrimEndOfSuffix(s, i, j);
  }

  /** Trailing whitespace cut from the suffix of `s` starting at i. */
  lemma TrimEndOfSuffix(s: string, i: nat, j: nat)
    requires i < j <= |s|
    requires AllSpace(s[j..])
    requires !IsSpace(s[j - 1])
    ensures TrimEnd(s[i..]) == s[i..j]
  {
    var a := s[i..];
    var k := j - i;
    assert a[k..] == s[j..];
    assert a[k - 1] == s[j - 1];
    TrimEndAt(a, k);
    assert a[..k] == s[i..j];
  }

  /** The stripped form is unique: whatever satisfies the description is
      what `Strip` returns. */
  lemma StripOfIsStrip(t: string, s: string)
    requires IsStripOf(t, s)
    ensures t == Strip(s)
  {
    var i, j :| 0 <= i <= j <= |s| && t == s[i..j]
                && AllSpace(s[..i]) && AllSpace(s[j..])
                && (t != [] ==> !IsSpace(t[0]) && !IsSpace(t[|t| - 1]));
    if t == [] {
      AllSpaceJoin(s, i, j);
      assert s[..|s|] == s;
      TrimStartAt(s, |s|);
    } else {
      assert t[0] == s[i] && t[|t| - 1] == s[j - 1];
      StripAt(s, i, j);
    }
  }

  /** Python's `str.endswith(suffix)`. */
  predicate EndsWith(s: string, suffix: string) {
    |suffix| <= |s| && s[|s| - |suffix|..] == suffix
  }

  lemma EndsWithIffAppended(s: string, suffix: string)
    ensures EndsWith(s, suffix) <==> exists p :: s == p + suffix
  {
    if EndsWith(s, suffix) {
      assert s == s[..|s| - |suffix|] + suffix;
    }
    if exists p :: s == p + suffix {
      var p :| s == p + suffix;
      assert s[|s| - |suffix|..] == suffix;
    }
  }

  /** Python's slice `s[k:]` for a non-negative start: it never fails, and a
      start beyond the end gives the empty string. */
  function DropFirst(s: string, k: nat): (r: string)
    ensures |r| == if k <= |s| then |s| - k else 0
    ensures s == s[..|s| - |r|] + r
    ensures |s| - |r| == if k <= |s| then k else |s|
  {
    if k <= |s| then s[k..] else []
  }

  function DigitChar(d: nat): (c: char)
    requires d < 10
    ensures '0' <= c <= '9'
  {
    "0123456789"[d]
  }

  function DigitValue(c: char): nat
    requires '0' <= c <= '9'
  {
    (c as int - '0' as int) as nat
  }

  predicate AllDigits(s: string) {
    forall i :: 0 <= i < |s| ==> '0' <= s[i] <= '9'
  }

  /** Decimal rendering of a natural number, as `str(n)` gives it. */
  function NatToString(n: nat): (r: string)
    ensures r != [] && AllDigits(r)
    ensures r[0] == '0' ==> n == 0
  {
    if n < 10 then [DigitChar(n)] else NatToString(n / 10) + [DigitChar(n % 10)]
  }

  /** Reads a string of decimal digits back to its value. */
  function DigitsValue(s: string): nat
    requires AllDigits(s)
  {
    if s == [] then 0 else 10 * DigitsValue(s[..|s| - 1]) + DigitValue(s[|s| - 1])
  }

  lemma {:induction false} NatToStringRoundTrip(n: nat)
    ensures DigitsValue(NatToString(n)) == n
  {
    var r := NatToString(n);
    if n < 10 {
      assert r[..0] == [];
    } else {
      NatToStringRoundTrip(n / 10);
      assert r[..|r| - 1] == NatToString(n / 10);
    }
  }

  lemma NatToStringInjective(m: nat, n: nat)
    requires NatToString(m) == NatToString(n)
    ensures m == n
  {
    NatToStringRoundTrip(m);
    NatToStringRoundTrip(n);
  }

  /** Decimal rendering of an `int`, as an f-string gives it. */
  function IntToString(n: int): string {
    if n < 0 then "-" + NatToString(-n) else NatToString(n)
  }

  lemma IntToStringInjective(m: int, n: int)
    requires IntToString(m) == IntToString(n)
    ensures m == n
  {
    if m < 0 && n < 0 {
      assert NatToString(-m) == IntToString(m)[1..];
      NatToStringInjective(-m, -n);
    } else if m >= 0 && n >= 0 {
      NatToStringInjective(m, n);
    }
  }
}
