/** The parts of Python's `str` and `int` behaviour the inventory code relies on:
    `strip()`, `lower()`, `upper()`, `int(text)`, `str(n)` and `os.path.basename`. */
module Text {
  import opened Common

  /** Characters for which Python's `str.isspace()` is true (and so `strip()` removes). */
  predicate IsSpace(c: char)
  {
    || ('\t' <= c <= '\r')
    || ('\U{1C}' <= c <= ' ')
    || c == '\U{85}' || c == '\U{A0}' || c == '\U{1680}'
    || ('\U{2000}' <= c <= '\U{200A}')
    || c == '\U{2028}' || c == '\U{2029}' || c == '\U{202F}' || c == '\U{205F}' || c == '\U{3000}'
  }

  /** A string with no whitespace at either end. */
  predicate Unpadded(s: string)
  {
    |s| == 0 || (!IsSpace(s[0]) && !IsSpace(s[|s| - 1]))
  }

  /** `s.strip()`: drops the whitespace at both ends. */
  function Strip(s: string): string
    decreases |s|
  {
    if |s| > 0 && IsSpace(s[0]) then Strip(s[1..])
    else if |s| > 0 && IsSpace(s[|s| - 1]) then Strip(s[..|s| - 1])
    else s
  }

  /** `strip()` leaves no whitespace at either end, never lengthens the text, and
      leaves a text without whitespace at its ends as it is. */
  lemma {:induction false} StripFacts(s: string)
    ensures Unpadded(Strip(s))
    ensures |Strip(s)| <= |s|
    ensures Unpadded(s) ==> Strip(s) == s
    decreases |s|
  {
    if |s| > 0 && IsSpace(s[0]) {
      StripFacts(s[1..]);
    } else if |s| > 0 && IsSpace(s[|s| - 1]) {
      StripFacts(s[..|s| - 1]);
    }
  }

  /** Where the slice that `strip()` keeps starts and ends. */
  lemma {:induction false} StripBounds(s: string) returns (a: nat, b: nat)
    ensures a <= b <= |s| && Strip(s) == s[a..b]
    ensures forall i :: 0 <= i < a ==> IsSpace(s[i])
    ensures forall i :: b <= i < |s| ==> IsSpace(s[i])
    decreases |s|
  {
    if |s| > 0 && IsSpace(s[0]) {
      var a', b' := StripBounds(s[1..]);
      a, b := a' + 1, b' + 1;
      BoundsAfterFirst(s, s[1..], a', b');
    } else if |s| > 0 && IsSpace(s[|s| - 1]) {
      a, b := StripBounds(s[..|s| - 1]);
      BoundsBeforeLast(s, s[..|s| - 1], a, b);
    } else {
      a, b := 0, |s|;
    }
  }

  /** The bounds of a text with leading whitespace, from those of its tail `t`. */
  lemma BoundsAfterFirst(s: string, t: string, a: nat, b: nat)
    requires |s| > 0 && IsSpace(s[0]) && t == s[1..]
    requires a <= b <= |t| && Strip(t) == t[a..b]
    requires forall i :: 0 <= i < a ==> IsSpace(t[i])
    requires forall i :: b <= i < |t| ==> IsSpace(t[i])
    ensures Strip(s) == s[a + 1..b + 1]
    ensures forall i :: 0 <= i < a + 1 ==> IsSpace(s[i])
    ensures forall i :: b + 1 <= i < |s| ==> IsSpace(s[i])
  {
    assert t[a..b] == s[a + 1..b + 1];
    forall i | 0 < i < a + 1 ensures IsSpace(s[i]) { assert s[i] == t[i - 1]; }
    forall i | b + 1 <= i < |s| ensures IsSpace(s[i]) { assert s[i] == t[i - 1]; }
  }

  /** The bounds of a text with trailing but no leading whitespace, from those of the
      text `t` without its last character: nothing is cut at the front. */
  lemma BoundsBeforeLast(s: string, t: string, a: nat, b: nat)
    requires |s| > 0 && !IsSpace(s[0]) && IsSpace(s[|s| - 1]) && t == s[..|s| - 1]
    requires a <= b <= |t| && Strip(t) == t[a..b]
    requires forall i :: 0 <= i < a ==> IsSpace(t[i])
    requires forall i :: b <= i < |t| ==> IsSpace(t[i])
    ensures a == 0 && Strip(s) == s[a..b]
    ensures forall i :: b <= i < |s| ==> IsSpace(s[i])
  {
    assert a == 0 by {
      if |t| > 0 {
        assert t[0] == s[0];
      }
    }
    assert t[a..b] == s[a..b];
    forall i | b <= i < |s| - 1 ensures IsSpace(s[i]) { assert s[i] == t[i]; }
  }

  /** What `strip()` keeps is one slice of the text, with only whitespace before and
      after it. */
  lemma StripSlice(s: string)
    ensures exists a, b :: 0 <= a <= b <= |s| && Strip(s) == s[a..b]
                           && (forall i :: 0 <= i < a ==> IsSpace(s[i]))
                           && (forall i :: b <= i < |s| ==> IsSpace(s[i]))
  {
    var a, b := StripBounds(s);
  }

  /** Stripping a stripped string changes nothing: every key and value cleaned by
      `strip()` is a fixed point of `strip()`. */
  lemma StripIdempotent(s: string)
    ensures Strip(Strip(s)) == Strip(s)
  {
    StripFacts(s);
    StripFacts(Strip(s));
  }

  /** Python's `str.lower()` on one character, for ASCII and for the Latin letters
      Vietnamese text uses (Latin-1, Latin Extended-A, O/U with horn, Latin Extended Additional). */
  function LowerChar(c: char): (r: char)
  {
    var n := c as int;
    if ('A' <= c <= 'Z') || ('\U{C0}' <= c <= '\U{DE}' && c != '\U{D7}') then (n + 32) as char
    else if (0x100 <= n <= 0x12F && n % 2 == 0) || (0x132 <= n <= 0x137 && n % 2 == 0)
         || (0x139 <= n <= 0x148 && n % 2 == 1) || (0x14A <= n <= 0x177 && n % 2 == 0)
         || n == 0x1A0 || n == 0x1AF
         || (0x1E00 <= n <= 0x1E95 && n % 2 == 0) || (0x1EA0 <= n <= 0x1EFF && n % 2 == 0)
    then (n + 1) as char
    else c
  }

  /** `s.lower()`. */
  function Lower(s: string): (r: string)
    ensures |r| == |s|
    ensures forall i :: 0 <= i < |s| ==> r[i] == LowerChar(s[i])
  {
    seq(|s|, i requires 0 <= i < |s| => LowerChar(s[i]))
  }

  /** `str.upper()` on one character, for the characters that upper-case to a single
      ASCII letter: a-z, the dotless i U+0131 (to 'I') and the long s U+017F (to 'S').
      Every other character is kept as it is; the characters Python expands to several
      letters (the ligature U+FB01 becomes "FI") are among those kept. */
  function UpperChar(c: char): (r: char)
  {
    if 'a' <= c <= 'z' then (c as int - 32) as char
    else if c == '\U{131}' then 'I'
    else if c == '\U{17F}' then 'S'
    else c
  }

  function Upper(s: string): (r: string)
    ensures |r| == |s|
    ensures forall i :: 0 <= i < |s| ==> r[i] == UpperChar(s[i])
  {
    seq(|s|, i requires 0 <= i < |s| => UpperChar(s[i]))
  }

  predicate IsDigit(c: char)
  {
    '0' <= c <= '9'
  }

  /** The body `int()` accepts after the sign: ASCII digits, with single underscores
      allowed between two digits (`1_000`). */
  predicate IsDigitText(b: string)
  {
    && |b| > 0 && IsDigit(b[0]) && IsDigit(b[|b| - 1])
    && (forall i :: 0 <= i < |b| ==> IsDigit(b[i]) || b[i] == '_')
    && (forall i :: 0 <= i < |b| - 1 ==> b[i] == '_' ==> b[i + 1] != '_')
  }

  /** The number a digit text denotes; underscores are separators only. */
  function TextValue(b: string): nat
    requires forall i :: 0 <= i < |b| ==> IsDigit(b[i]) || b[i] == '_'
  {
    if |b| == 0 then 0
    else if b[|b| - 1] == '_' then TextValue(b[..|b| - 1])
    else
      var c := b[|b| - 1];
      assert IsDigit(c);
      TextValue(b[..|b| - 1]) * 10 + (c as int - '0' as int)
  }

  /** An optional sign followed by a digit text: the shape `int()` accepts once the
      surrounding whitespace is gone. */
  predicate IntText(t: string)
  {
    || IsDigitText(t)
    || (|t| > 0 && (t[0] == '+' || t[0] == '-') && IsDigitText(t[1..]))
  }

  /** `int(text)`: `None` where Python raises `ValueError`. Surrounding whitespace is
      ignored, one optional sign is accepted, then a digit text. */
  function ParseInt(s: string): (r: Option<int>)
    ensures r.Some? ==> |Strip(s)| > 0
    ensures r.Some? && r.value < 0 ==> Strip(s)[0] == '-'
  {
    var t := Strip(s);
    if |t| > 0 && (t[0] == '+' || t[0] == '-') then
      if IsDigitText(t[1..]) then
        var v: int := TextValue(t[1..]);
        Some(if t[0] == '-' then -v else v)
      else None
    else if IsDigitText(t) then Some(TextValue(t))
    else None
  }

  /** `int()` refuses a text exactly when, stripped, it is not an optional sign followed
      by a digit text. */
  lemma ParseIntRejects(s: string)
    ensures ParseInt(s).None? <==> !IntText(Strip(s))
  {
  }

  /** Python's `int()` applied to a value that is either already an integer or a string. */
  datatype PyValue = PyInt(i: int) | PyStr(s: string)

  function ToInt(v: PyValue): (r: Option<int>)
    ensures v.PyInt? ==> r == Some(v.i)
  {
    match v
    case PyInt(i) => Some(i)
    case PyStr(s) => ParseInt(s)
  }

  function DigitChar(d: nat): (c: char)
    requires d < 10
    ensures IsDigit(c) && c as int - '0' as int == d
  {
    ('0' as int + d) as char
  }

  /** `str(n)` for a natural number: decimal digits, most significant first. */
  function NatToString(n: nat): (r: string)
    ensures |r| > 0
    ensures forall i :: 0 <= i < |r| ==> IsDigit(r[i])
  {
    if n < 10 then [DigitChar(n)] else NatToString(n / 10) + [DigitChar(n % 10)]
  }

  /** `str(n)` for an integer. */
  function IntToString(n: int): (r: string)
    ensures |r| > 0
  {
    if n < 0 then "-" + NatToString(-n) else NatToString(n)
  }

  lemma {:induction false} NatToStringValue(n: nat)
    ensures IsDigitText(NatToString(n))
    ensures TextValue(NatToString(n)) == n
  {
    if n >= 10 {
      NatToStringValue(n / 10);
      var p := NatToString(n / 10);
      var s := p + [DigitChar(n % 10)];
      assert s[..|s| - 1] == p;
    }
  }

  /** A digit text parses to its value. */
  lemma DigitTextParses(d: string)
    requires IsDigitText(d)
    ensures ParseInt(d) == Some(TextValue(d))
  {
    assert Unpadded(d);
    assert Strip(d) == d;
    assert !(d[0] == '+' || d[0] == '-');
  }

  /** A minus sign followed by a digit text parses to the negated value. */
  lemma NegatedDigitTextParses(d: string)
    requires IsDigitText(d)
    ensures ParseInt("-" + d) == Some(-(TextValue(d) as int))
  {
    var s := "-" + d;
    assert s[1..] == d;
    assert s[|s| - 1] == d[|d| - 1];
    assert Unpadded(s);
    assert Strip(s) == s;
  }

  /** `int(str(n)) == n`: the text the system writes for a number parses back to it. */
  lemma ParseIntRoundTrip(n: int)
    ensures ParseInt(IntToString(n)) == Some(n)
  {
    var d := NatToString(if n < 0 then -n else n);
    NatToStringValue(if n < 0 then -n else n);
    if n < 0 {
      NegatedDigitTextParses(d);
      assert IntToString(n) == "-" + d;
    } else {
      DigitTextParses(d);
      assert IntToString(n) == d;
    }
  }

  /** `os.path.basename(path)` (POSIX): whatever follows the last '/'. */
  function Basename(path: string): string
  {
    if |path| == 0 || path[|path| - 1] == '/' then []
    else Basename(path[..|path| - 1]) + [path[|path| - 1]]
  }

  /** `b` is the tail of `path` after its last '/', or the whole path when it has none:
      a '/'-free suffix preceded by a '/' unless it starts the path. */
  predicate TailAfterSlash(path: string, b: string)
  {
    && |b| <= |path| && b == path[|path| - |b|..]
    && (forall i :: 0 <= i < |b| ==> b[i] != '/')
    && (|b| < |path| ==> path[|path| - |b| - 1] == '/')
  }

  /** The base name is the tail of the path after its last '/', and the whole path when
      it has none. */
  lemma {:induction false} BasenameSuffix(path: string)
    ensures TailAfterSlash(path, Basename(path))
  {
    if |path| > 0 && path[|path| - 1] != '/' {
      var init := path[..|path| - 1];
      BasenameSuffix(init);
      assert Basename(path) == Basename(init) + [path[|path| - 1]];
      SuffixSnoc(path, init, Basename(init));
    }
  }

  /** A tail after the last '/' stays one when the path and the tail both grow by the
      same character other than '/'. */
  lemma SuffixSnoc(path: string, init: string, b: string)
    requires |path| > 0 && path[|path| - 1] != '/' && init == path[..|path| - 1]
    requires TailAfterSlash(init, b)
    ensures TailAfterSlash(path, b + [path[|path| - 1]])
  {
    var n := |path|;
    assert path[n - 1 - |b|..] == path[n - 1 - |b|..n - 1] + [path[n - 1]];
    assert path[n - 1 - |b|..n - 1] == init[|init| - |b|..];
    if |b| < |init| {
      assert path[n - |b| - 2] == init[|init| - |b| - 1];
    }
  }

}
