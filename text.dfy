/**
 * The string operations the three Python programs rely on: `sep.join`, `str.split`,
 * `str.endswith`, `str(int)` and `int(str)`, stated once and shared.
 */
module Text {
  import opened Wrappers

  /** Python's `sep.join(parts)`. */
  function Join(parts: seq<string>, sep: string): string
  {
    if |parts| == 0 then ""
    else if |parts| == 1 then parts[0]
    else parts[0] + sep + Join(parts[1..], sep)
  }

  /** Python's `s.split(c)` for a one-character separator `c`. */
  function Split(s: string, c: char): (pieces: seq<string>)
    ensures |pieces| >= 1
  {
    if |s| == 0 then [""]
    else
      var rest := Split(s[1..], c);
      if s[0] == c then [""] + rest
      else [[s[0]] + rest[0]] + rest[1..]
  }

  /** `s.endswith(suffix)`. */
  predicate EndsWith(s: string, suffix: string)
  {
    |suffix| <= |s| && s[|s| - |suffix|..] == suffix
  }

  /** `[s] * n`. */
  function Repeat(s: string, n: nat): (r: seq<string>)
    ensures |r| == n && forall i :: 0 <= i < n ==> r[i] == s
  {
    if n == 0 then [] else Repeat(s, n - 1) + [s]
  }

  /** No piece contains the separator character. */
  predicate FreeOf(parts: seq<string>, c: char)
  {
    forall i :: 0 <= i < |parts| ==> c !in parts[i]
  }

  lemma {:induction false} SplitWithoutSeparator(p: string, c: char)
    requires c !in p
    ensures Split(p, c) == [p]
  {
    if |p| > 0 {
      SplitWithoutSeparator(p[1..], c);
      assert [p[0]] + p[1..] == p;
    }
  }

  lemma {:induction false} SplitFirstPiece(p: string, c: char, rest: string)
    requires c !in p
    ensures Split(p + [c] + rest, c) == [p] + Split(rest, c)
  {
    var s := p + [c] + rest;
    if |p| == 0 {
      assert s[1..] == rest;
    } else {
      SplitFirstPiece(p[1..], c, rest);
      assert s[1..] == p[1..] + [c] + rest;
      assert [p[0]] + p[1..] == p;
    }
  }

  /** Splitting undoes joining when no piece contains the separator. */
  lemma {:induction false} SplitJoin(parts: seq<string>, c: char)
    requires |parts| >= 1 && FreeOf(parts, c)
    ensures Split(Join(parts, [c]), c) == parts
  {
    if |parts| == 1 {
      SplitWithoutSeparator(parts[0], c);
    } else {
      SplitJoin(parts[1..], c);
      SplitFirstPiece(parts[0], c, Join(parts[1..], [c]));
      assert [parts[0]] + parts[1..] == parts;
    }
  }

  /** Joining two non-empty lists puts one separator between their joins. */
  lemma {:induction false} JoinAppend(a: seq<string>, b: seq<string>, sep: string)
    requires |a| >= 1 && |b| >= 1
    ensures Join(a + b, sep) == Join(a, sep) + sep + Join(b, sep)
  {
    if |a| == 1 {
      assert (a + b)[1..] == b;
    } else {
      JoinAppend(a[1..], b, sep);
      assert (a + b)[1..] == a[1..] + b;
    }
  }

  /** Joining `[first] + middle + [last]` for a non-empty middle. */
  lemma JoinFramed(first: string, middle: seq<string>, last: string, sep: string)
    requires |middle| >= 1
    ensures Join([first] + middle + [last], sep) == first + sep + Join(middle, sep) + sep + last
  {
    assert Join([first], sep) == first;
    JoinAppend([first], middle, sep);
    JoinAppend([first] + middle, [last], sep);
  }

  // ----- decimal numerals -----

  predicate IsDigit(c: char)
  {
    '0' <= c <= '9'
  }

  /** An ASCII letter, the class `[a-zA-Z]`. */
  predicate IsLetter(c: char)
  {
    ('a' <= c <= 'z') || ('A' <= c <= 'Z')
  }

  predicate AllDigits(s: string)
  {
    forall i :: 0 <= i < |s| ==> IsDigit(s[i])
  }

  function DigitChar(d: nat): (c: char)
    requires d < 10
    ensures IsDigit(c)
  {
    ('0' as int + d) as char
  }

  /** The value of a string of decimal digits. */
  function DigitsValue(s: string): nat
    requires AllDigits(s)
  {
    if |s| == 0 then 0
    else DigitsValue(s[..|s| - 1]) * 10 + (s[|s| - 1] as int - '0' as int)
  }

  /** `str(n)` for a non-negative integer: its shortest decimal numeral. */
  function NatToString(n: nat): (s: string)
    ensures |s| >= 1 && AllDigits(s)
    ensures DigitsValue(s) == n
    ensures n < 10 <==> |s| == 1
  {
    if n < 10 then [DigitChar(n)]
    else
      var s := NatToString(n / 10) + [DigitChar(n % 10)];
      assert s[..|s| - 1] == NatToString(n / 10);
      s
  }

  /** `str(n)` for any integer. */
  function IntToString(n: int): (s: string)
  {
    if n < 0 then "-" + NatToString(-n) else NatToString(n)
  }

  /**
   * Python's `int(s)`: an optional sign followed by at least one decimal digit;
   * anything else raises `ValueError`, here `None`.
   */
  function ParseInt(s: string): (r: Option<int>)
  {
    if |s| >= 1 && (s[0] == '-' || s[0] == '+') then
      var digits := s[1..];
      if |digits| >= 1 && AllDigits(digits) then
        var magnitude: int := DigitsValue(digits);
        Some(if s[0] == '-' then -magnitude else magnitude)
      else None
    else if |s| >= 1 && AllDigits(s) then Some(DigitsValue(s))
    else None
  }

  /** `int(str(n)) == n`: the numeral printer and the numeral reader are inverse. */
  lemma ParseIntToString(n: int)
    ensures ParseInt(IntToString(n)) == Some(n)
  {
    if n < 0 {
      var s := IntToString(n);
      assert s[1..] == NatToString(-n);
    }
  }
}
