/** The parts of Python's `str` and `int` built-ins that the task servers rely on:
    comparison of strings, `str(n)` and `int(s)` for decimal integers, ASCII case
    mapping, and `str.replace`. */
module PyStr {
  import opened Prelude

  // ---------------------------------------------------------------------------
  // Comparison

  /** Python's `a < b` on str: lexicographic by code point, a proper prefix first. */
  predicate StrLess(a: string, b: string)
    decreases |a|
  {
    if a == [] then b != []
    else if b == [] then false
    else if a[0] != b[0] then a[0] < b[0]
    else StrLess(a[1..], b[1..])
  }

  /** Python's `a <= b` on str. */
  predicate StrLessEq(a: string, b: string)
  {
    StrLess(a, b) || a == b
  }

  /** Comparing two strings that start with pieces of equal width compares those
      pieces first and looks at the rest only when they are equal. */
  lemma {:induction false} StrLessConcat(x1: string, x2: string, y1: string, y2: string)
    requires |x1| == |y1|
    ensures StrLess(x1 + x2, y1 + y2) <==> StrLess(x1, y1) || (x1 == y1 && StrLess(x2, y2))
    ensures x1 + x2 == y1 + y2 <==> x1 == y1 && x2 == y2
    decreases |x1|
  {
    if x1 == [] {
      assert x1 + x2 == x2 && y1 + y2 == y2;
    } else {
      assert (x1 + x2)[0] == x1[0] && (y1 + y2)[0] == y1[0];
      assert (x1 + x2)[1..] == x1[1..] + x2 && (y1 + y2)[1..] == y1[1..] + y2;
      StrLessConcat(x1[1..], x2, y1[1..], y2);
      assert x1 == [x1[0]] + x1[1..] && y1 == [y1[0]] + y1[1..];
      if x1 + x2 == y1 + y2 {
        assert x1[0] == y1[0] && x1[1..] + x2 == y1[1..] + y2;
      }
    }
  }

  // ---------------------------------------------------------------------------
  // Decimal digits: str(n) and int(s)

  predicate IsDigit(c: char)
  {
    '0' <= c <= '9'
  }

  /** The character of a decimal digit. */
  function Digit(n: int): (c: char)
    requires 0 <= n < 10
    ensures IsDigit(c) && c as int - '0' as int == n
  {
    ('0' as int + n) as char
  }

  /** `str(n)` for n >= 0: the shortest decimal numeral, no leading zeros. */
  function Natural(n: nat): (s: string)
    decreases n
  {
    if n < 10 then [Digit(n)] else Natural(n / 10) + [Digit(n % 10)]
  }

  /** `str(n)` for any int n. */
  function Decimal(n: int): (s: string)
  {
    if n < 0 then "-" + Natural(-n) else Natural(n)
  }

  /** The whitespace that `int()` strips around its argument (the ASCII part of it). */
  predicate IsSpace(c: char)
  {
    c == ' ' || c == '\t' || c == '\n' || c == '\r' || c == '\U{000B}' || c == '\U{000C}'
  }

  function TrimStart(s: string): (r: string)
    decreases |s|
  {
    if s != [] && IsSpace(s[0]) then TrimStart(s[1..]) else s
  }

  function TrimEnd(s: string): (r: string)
    decreases |s|
  {
    if s != [] && IsSpace(s[|s| - 1]) then TrimEnd(s[..|s| - 1]) else s
  }

  /** Trimming the start keeps a suffix. */
  lemma {:induction false} TrimStartIsSuffix(s: string)
    ensures |TrimStart(s)| <= |s| && TrimStart(s) == s[|s| - |TrimStart(s)|..]
    decreases |s|
  {
    if s != [] && IsSpace(s[0]) {
      TrimStartIsSuffix(s[1..]);
    }
  }

  /** Trimming the end keeps a prefix. */
  lemma {:induction false} TrimEndIsPrefix(s: string)
    ensures |TrimEnd(s)| <= |s| && TrimEnd(s) == s[..|TrimEnd(s)|]
    decreases |s|
  {
    if s != [] && IsSpace(s[|s| - 1]) {
      TrimEndIsPrefix(s[..|s| - 1]);
    }
  }

  /** A base-10 numeral as `int()` accepts it: digits, with single underscores
      allowed between two digits. */
  predicate IsNumeral(s: string)
  {
    && s != []
    && IsDigit(s[0]) && IsDigit(s[|s| - 1])
    && (forall i :: 0 <= i < |s| ==> IsDigit(s[i]) || s[i] == '_')
    && (forall i :: 0 <= i < |s| - 1 ==> !(s[i] == '_' && s[i + 1] == '_'))
  }

  /** The value of a numeral, underscores skipped. */
  function NumeralValue(s: string): nat
    requires forall i :: 0 <= i < |s| ==> IsDigit(s[i]) || s[i] == '_'
    decreases |s|
  {
    if s == [] then 0
    else if s[|s| - 1] == '_' then NumeralValue(s[..|s| - 1])
    else
      assert IsDigit(s[|s| - 1]);
      NumeralValue(s[..|s| - 1]) * 10 + (s[|s| - 1] as int - '0' as int)
  }

  /** `int(s)` for a str s: None where Python raises ValueError. */
  function ParseInt(s: string): (r: Option<int>)
  {
    var t := TrimEnd(TrimStart(s));
    if t != [] && (t[0] == '-' || t[0] == '+') && IsNumeral(t[1..]) then
      Some(if t[0] == '-' then -(NumeralValue(t[1..]) as int) else NumeralValue(t[1..]))
    else if IsNumeral(t) then Some(NumeralValue(t))
    else None
  }

  lemma {:induction false} NaturalIsNumeral(n: nat)
    ensures IsNumeral(Natural(n)) && NumeralValue(Natural(n)) == n
    ensures forall i :: 0 <= i < |Natural(n)| ==> IsDigit(Natural(n)[i])
    decreases n
  {
    if n >= 10 {
      NaturalIsNumeral(n / 10);
      var s := Natural(n);
      assert s[..|s| - 1] == Natural(n / 10);
    }
  }

  /** `int(t)` of a numeral is its value. */
  lemma ParseNumeral(t: string)
    requires IsNumeral(t)
    ensures ParseInt(t) == Some(NumeralValue(t))
  {
    assert TrimStart(t) == t;
    assert TrimEnd(t) == t;
  }

  /** `int("-" + t)` of a numeral t is its value negated. */
  lemma ParseNegatedNumeral(t: string)
    requires IsNumeral(t)
    ensures ParseInt("-" + t) == Some(-(NumeralValue(t) as int))
  {
    var u := "-" + t;
    assert TrimStart(u) == u;
    assert u[|u| - 1] == t[|t| - 1];
    assert TrimEnd(u) == u;
    assert u[1..] == t;
  }

  /** `int(s)` raises ValueError for every text without a digit, the empty and
      the blank text included. */
  lemma ParseIntNeedsDigit(s: string)
    requires forall i :: 0 <= i < |s| ==> !IsDigit(s[i])
    ensures ParseInt(s).None?
  {
    var u := TrimStart(s);
    var t := TrimEnd(u);
    TrimStartIsSuffix(s);
    TrimEndIsPrefix(u);
    assert forall i :: 0 <= i < |t| ==> t[i] == s[|s| - |u| + i];
  }

  /** `int(str(n)) == n`: the decimal text of an integer reads back as that integer. */
  lemma DecimalRoundTrip(n: int)
    ensures ParseInt(Decimal(n)) == Some(n)
  {
    if n < 0 {
      NaturalIsNumeral(-n);
      ParseNegatedNumeral(Natural(-n));
    } else {
      NaturalIsNumeral(n);
      ParseNumeral(Natural(n));
    }
  }

  /** An argument that a tool received for an integer parameter: Python does not
      enforce the annotation, so it may arrive as an int or as a str. */
  datatype IdArg = IntArg(n: int) | StrArg(s: string)

  /** `int(task_id)`: None where Python raises ValueError. */
  function ToInt(a: IdArg): (r: Option<int>)
    ensures a.IntArg? ==> r == Some(a.n)
    ensures a.StrArg? ==> r == ParseInt(a.s)
  {
    match a
    case IntArg(n) => Some(n)
    case StrArg(s) => ParseInt(s)
  }

  // ---------------------------------------------------------------------------
  // Case mapping (ASCII letters)

  function LowerChar(c: char): char
  {
    if 'A' <= c <= 'Z' then (c as int + 32) as char else c
  }

  function UpperChar(c: char): char
  {
    if 'a' <= c <= 'z' then (c as int - 32) as char else c
  }

  /** `s.lower()` */
  function Lower(s: string): (r: string)
    ensures |r| == |s|
    decreases |s|
  {
    if s == [] then [] else [LowerChar(s[0])] + Lower(s[1..])
  }

  /** `s.upper()` */
  function Upper(s: string): (r: string)
    ensures |r| == |s|
    decreases |s|
  {
    if s == [] then [] else [UpperChar(s[0])] + Upper(s[1..])
  }

  /** Lower-casing twice is lower-casing once. */
  lemma {:induction false} LowerIdempotent(s: string)
    ensures Lower(Lower(s)) == Lower(s)
    decreases |s|
  {
    if s != [] {
      LowerIdempotent(s[1..]);
      assert Lower(s)[1..] == Lower(s[1..]);
    }
  }

  /** Upper-casing forgets an earlier lower-casing: `s.lower().upper() == s.upper()`. */
  lemma {:induction false} UpperOfLower(s: string)
    ensures Upper(Lower(s)) == Upper(s)
    decreases |s|
  {
    if s != [] {
      UpperOfLower(s[1..]);
      assert Lower(s)[1..] == Lower(s[1..]);
    }
  }

  /** Lower-casing forgets an earlier upper-casing: `s.upper().lower() == s.lower()`. */
  lemma {:induction false} LowerOfUpper(s: string)
    ensures Lower(Upper(s)) == Lower(s)
    decreases |s|
  {
    if s != [] {
      LowerOfUpper(s[1..]);
      assert Upper(s)[1..] == Upper(s[1..]);
    }
  }

  // ---------------------------------------------------------------------------
  // Replacement

  /** `s.replace(pat, rep)`: every non-overlapping occurrence of pat, scanning
      left to right, is replaced by rep. */
  function Replace(s: string, pat: string, rep: string): (r: string)
    requires pat != []
    ensures |rep| <= |pat| ==> |r| <= |s|
    decreases |s|
  {
    if |s| < |pat| then s
    else if s[..|pat|] == pat then rep + Replace(s[|pat|..], pat, rep)
    else [s[0]] + Replace(s[1..], pat, rep)
  }

  /** A first character that cannot start pat is copied. */
  lemma ReplaceMiss(s: string, pat: string, rep: string)
    requires pat != [] && s != [] && s[0] != pat[0]
    ensures Replace(s, pat, rep) == [s[0]] + Replace(s[1..], pat, rep)
  {
    if |s| >= |pat| {
      assert s[..|pat|][0] != pat[0];
    }
  }

  /** Text in which no occurrence of pat can start is copied, whatever follows it. */
  lemma {:induction false} ReplaceKeepsPlainPrefix(a: string, x: string, pat: string, rep: string)
    requires pat != [] && forall i :: 0 <= i < |a| ==> a[i] != pat[0]
    ensures Replace(a + x, pat, rep) == a + Replace(x, pat, rep)
    decreases |a|
  {
    var s := a + x;
    if a == [] {
      assert s == x;
    } else {
      var a' := a[1..];
      assert forall i :: 0 <= i < |a'| ==> a'[i] == a[i + 1];
      ReplaceKeepsPlainPrefix(a', x, pat, rep);
      assert s[0] == a[0] && s[1..] == a' + x;
      ReplaceMiss(s, pat, rep);
      assert [a[0]] + a' == a;
    }
  }

  /** A string in which no occurrence of pat can start is left unchanged. */
  lemma ReplaceAbsent(s: string, pat: string, rep: string)
    requires pat != [] && forall i :: 0 <= i < |s| ==> s[i] != pat[0]
    ensures Replace(s, pat, rep) == s
  {
    ReplaceKeepsPlainPrefix(s, [], pat, rep);
    assert s + [] == s;
  }

  /** The first occurrence of pat, after text in which none can start, becomes rep,
      and the replacement goes on after it. */
  lemma ReplaceHit(a: string, pat: string, rep: string, b: string)
    requires pat != [] && forall i :: 0 <= i < |a| ==> a[i] != pat[0]
    ensures Replace(a + pat + b, pat, rep) == a + rep + Replace(b, pat, rep)
  {
    ReplaceKeepsPlainPrefix(a, pat + b, pat, rep);
    assert a + pat + b == a + (pat + b);
    assert (pat + b)[..|pat|] == pat && (pat + b)[|pat|..] == b;
  }

  predicate StartsWith(s: string, prefix: string)
  {
    |prefix| <= |s| && s[..|prefix|] == prefix
  }

  predicate EndsWith(s: string, suffix: string)
  {
    |suffix| <= |s| && s[|s| - |suffix|..] == suffix
  }
}
