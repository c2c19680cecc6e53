/** The Python string operations the timestamp reader is built on:
    `sub in s`, `s.split(sep)`, `s.strip()`, and `int(s)` / `float(s)` on
    the plain decimal spellings this model accepts. */
module Text {
  import opened Wrappers

  predicate IsDigit(c: char) { '0' <= c <= '9' }

  /** The ASCII characters `str.strip()` removes: those for which
      `str.isspace()` holds, the four separators 0x1C-0x1F included. */
  predicate IsSpace(c: char) {
    c == ' ' || c == '\t' || c == '\n' || c == '\r' || c == '\U{000B}' || c == '\U{000C}' ||
    '\U{001C}' <= c <= '\U{001F}'
  }

  predicate AllDigits(s: string) { forall i :: 0 <= i < |s| ==> IsDigit(s[i]) }

  predicate AllSpace(s: string) { forall i :: 0 <= i < |s| ==> IsSpace(s[i]) }

  /** `sub in s` */
  predicate Contains(s: string, sub: string)
    decreases |s|
  {
    |sub| <= |s| && (s[..|sub|] == sub || (s != [] && Contains(s[1..], sub)))
  }

  lemma {:induction false} ContainsInMiddle(x: string, sub: string, y: string)
    ensures Contains(x + sub + y, sub)
    decreases |x|
  {
    var s := x + sub + y;
    if x == [] {
      assert s[..|sub|] == sub;
    } else {
      assert s[1..] == x[1..] + sub + y;
      ContainsInMiddle(x[1..], sub, y);
    }
  }

  // ---------------------------------------------------------------------
  // str.split(sep) and its inverse

  /** `s.split(sep)`: cut at every occurrence of `sep`, scanning left to
      right without overlaps. */
  function Split(s: string, sep: string): (parts: seq<string>)
    requires sep != []
    ensures |parts| >= 1
    decreases |s|
  {
    if |s| < |sep| then [s]
    else if s[..|sep|] == sep then [[]] + Split(s[|sep|..], sep)
    else
      var rest := Split(s[1..], sep);
      [[s[0]] + rest[0]] + rest[1..]
  }

  /** `sep.join(parts)` */
  function Join(parts: seq<string>, sep: string): string
    requires |parts| >= 1
  {
    if |parts| == 1 then parts[0] else parts[0] + sep + Join(parts[1..], sep)
  }

  lemma JoinCons(head: string, rest: seq<string>, sep: string)
    requires |rest| >= 1
    ensures Join([head] + rest, sep) == head + sep + Join(rest, sep)
  {
    assert ([head] + rest)[1..] == rest;
  }

  /** Growing the first piece by a character grows the joined text by it. */
  lemma JoinGrowsHead(c: char, parts: seq<string>, sep: string)
    requires |parts| >= 1
    ensures Join([[c] + parts[0]] + parts[1..], sep) == [c] + Join(parts, sep)
  {
    if |parts| > 1 {
      JoinCons([c] + parts[0], parts[1..], sep);
    }
  }

  /** Splitting loses nothing: joining the pieces with the separator gives
      the string back. */
  lemma {:induction false} JoinSplit(s: string, sep: string)
    requires sep != []
    ensures Join(Split(s, sep), sep) == s
    decreases |s|
  {
    if |s| < |sep| {
    } else if s[..|sep|] == sep {
      var rest := s[|sep|..];
      assert Split(s, sep) == [[]] + Split(rest, sep);
      JoinSplit(rest, sep);
      JoinCons([], Split(rest, sep), sep);
      assert s == sep + rest;
    } else {
      var rest := Split(s[1..], sep);
      assert Split(s, sep) == [[s[0]] + rest[0]] + rest[1..];
      JoinSplit(s[1..], sep);
      JoinGrowsHead(s[0], rest, sep);
      assert s == [s[0]] + s[1..];
    }
  }

  /** `s.split(sep)` has more than one piece exactly when `sep in s`. */
  lemma {:induction false} SplitFindsSeparator(s: string, sep: string)
    requires sep != []
    ensures |Split(s, sep)| > 1 <==> Contains(s, sep)
    decreases |s|
  {
    if |s| < |sep| {
    } else if s[..|sep|] == sep {
    } else {
      SplitFindsSeparator(s[1..], sep);
    }
  }

  /** A string in which the separator's first character never occurs is
      one piece. */
  lemma {:induction false} SplitWhole(s: string, sep: string)
    requires sep != [] && sep[0] !in s
    ensures Split(s, sep) == [s]
    decreases |s|
  {
    if |s| >= |sep| {
      assert s[..|sep|][0] == s[0];
      assert s[0] in s;
      assert s[1..] == s[1..];
      forall c | c in s[1..] ensures c in s { }
      SplitWhole(s[1..], sep);
      assert [s[0]] + s[1..] == s;
    }
  }

  /** The first piece ends at the first separator, when no separator can
      start inside it. */
  lemma {:induction false} SplitAfterPrefix(a: string, sep: string, rest: string)
    requires sep != [] && sep[0] !in a
    ensures Split(a + sep + rest, sep) == [a] + Split(rest, sep)
    decreases |a|
  {
    var s := a + sep + rest;
    if a == [] {
      assert s == sep + rest;
      assert s[..|sep|] == sep;
      assert s[|sep|..] == rest;
    } else {
      assert s[..|sep|][0] == a[0];
      assert a[0] in a;
      assert s[1..] == a[1..] + sep + rest;
      forall c | c in a[1..] ensures c in a { }
      SplitAfterPrefix(a[1..], sep, rest);
      assert [a[0]] + a[1..] == a;
    }
  }

  // ---------------------------------------------------------------------
  // str.strip()

  function TrimStart(s: string): (r: string)
    ensures |r| <= |s| && r == s[|s| - |r|..]
    ensures AllSpace(s[..|s| - |r|])
    ensures r != [] ==> !IsSpace(r[0])
    decreases |s|
  {
    if s != [] && IsSpace(s[0]) then
      var r := TrimStart(s[1..]);
      assert s[..|s| - |r|] == [s[0]] + s[1..][..|s| - 1 - |r|];
      r
    else s
  }

  function TrimEnd(s: string): (r: string)
    ensures |r| <= |s| && r == s[..|r|]
    ensures AllSpace(s[|r|..])
    ensures r != [] ==> !IsSpace(r[|r| - 1])
    decreases |s|
  {
    if s != [] && IsSpace(s[|s| - 1]) then
      var r := TrimEnd(s[..|s| - 1]);
      assert s[|r|..] == s[..|s| - 1][|r|..] + [s[|s| - 1]];
      r
    else s
  }

  /** `s.strip()`: what is left has no whitespace at either end. */
  function Strip(s: string): (r: string)
    ensures r != [] ==> !IsSpace(r[0]) && !IsSpace(r[|r| - 1])
  {
    TrimEnd(TrimStart(s))
  }

  lemma {:induction false} TrimStartSpaces(pre: string, x: string)
    requires AllSpace(pre) && (x == [] || !IsSpace(x[0]))
    ensures TrimStart(pre + x) == x
    decreases |pre|
  {
    if pre != [] {
      assert (pre + x)[1..] == pre[1..] + x;
      TrimStartSpaces(pre[1..], x);
    }
  }

  lemma {:induction false} TrimEndSpaces(x: string, post: string)
    requires AllSpace(post) && (x == [] || !IsSpace(x[|x| - 1]))
    ensures TrimEnd(x + post) == x
    decreases |post|
  {
    if post != [] {
      assert (x + post)[..|x + post| - 1] == x + post[..|post| - 1];
      TrimEndSpaces(x, post[..|post| - 1]);
    } else {
      assert x + post == x;
    }
  }

  /** Stripping removes exactly the whitespace padding around a text whose
      ends are not whitespace. */
  lemma StripPadded(pre: string, x: string, post: string)
    requires AllSpace(pre) && AllSpace(post)
    requires x != [] && !IsSpace(x[0]) && !IsSpace(x[|x| - 1])
    ensures Strip(pre + x + post) == x
  {
    assert pre + x + post == pre + (x + post);
    TrimStartSpaces(pre, x + post);
    TrimEndSpaces(x, post);
  }

  // ---------------------------------------------------------------------
  // int() and float() on decimal digits

  function DigitValue(c: char): nat
    requires IsDigit(c)
  {
    c as int - '0' as int
  }

  /** The value of a decimal digit string, most significant digit first. */
  function DigitsValue(s: string): nat
    requires AllDigits(s)
    decreases |s|
  {
    if s == [] then 0 else 10 * DigitsValue(s[..|s| - 1]) + DigitValue(s[|s| - 1])
  }

  function Pow10(k: nat): (p: nat)
    ensures p >= 1
  {
    if k == 0 then 1 else 10 * Pow10(k - 1)
  }

  /** The value of the digits after a decimal point. */
  function FractionValue(digits: string): (v: real)
    requires AllDigits(digits)
    ensures 0.0 <= v
  {
    DigitsValue(digits) as real / Pow10(|digits|) as real
  }

  /** `int(s)` where `s` is a non-empty run of ASCII digits; None stands for
      the ValueError raised on anything else. */
  function ParseInt(s: string): (r: Option<nat>)
    ensures r.Some? ==> s != [] && AllDigits(s)
  {
    if s != [] && AllDigits(s) then Some(DigitsValue(s)) else None
  }

  /** `float(s)` where `s` is digits with at most one `.` and at least one
      digit ("5", "05.250", "5.", ".5"); None stands for the ValueError. */
  function ParseFloat(s: string): (r: Option<real>)
    ensures r.Some? ==> r.value >= 0.0
  {
    var parts := Split(s, ".");
    if |parts| == 1 then
      match ParseInt(s)
      case Some(n) => Some(n as real)
      case None => None
    else if |parts| == 2 && AllDigits(parts[0]) && AllDigits(parts[1]) && (parts[0] != [] || parts[1] != []) then
      Some(DigitsValue(parts[0]) as real + FractionValue(parts[1]))
    else
      None
  }

  predicate DecimalChar(c: char) { IsDigit(c) || c == '.' }

  /** Whatever `float()` accepts here is non-empty and made of digits and
      dots only. */
  lemma FloatCharset(s: string)
    requires ParseFloat(s).Some?
    ensures s != [] && forall i :: 0 <= i < |s| ==> DecimalChar(s[i])
  {
    var parts := Split(s, ".");
    JoinSplit(s, ".");
    if |parts| == 2 {
      assert Join(parts[1..], ".") == parts[1];
      assert s == parts[0] + "." + parts[1];
      forall i | 0 <= i < |s| ensures DecimalChar(s[i]) {
        if i < |parts[0]| {
          assert s[i] == parts[0][i];
        } else if i > |parts[0]| {
          assert s[i] == parts[1][i - |parts[0]| - 1];
        }
      }
    }
  }

  lemma DigitsHaveNo(s: string, c: char)
    requires AllDigits(s) && !IsDigit(c)
    ensures c !in s
  {
    forall i | 0 <= i < |s| ensures s[i] != c {
      assert IsDigit(s[i]);
    }
  }

  /** `float()` reads a plain run of digits as its integer value: the
      seconds field `05` is five seconds. */
  lemma FloatOfDigits(digits: string)
    requires digits != [] && AllDigits(digits)
    ensures ParseFloat(digits) == Some(DigitsValue(digits) as real)
  {
    DigitsHaveNo(digits, '.');
    SplitWhole(digits, ".");
  }

  /** `float()` reads `W.F` as the digits `W` plus the digits after the
      point over the matching power of ten; either side may be empty
      (`5.`, `.5`), not both. */
  lemma FloatOfFraction(whole: string, fraction: string)
    requires AllDigits(whole) && AllDigits(fraction) && (whole != [] || fraction != [])
    ensures ParseFloat(whole + "." + fraction)
         == Some(DigitsValue(whole) as real + FractionValue(fraction))
  {
    var s := whole + "." + fraction;
    DigitsHaveNo(whole, '.');
    DigitsHaveNo(fraction, '.');
    SplitAfterPrefix(whole, ".", fraction);
    SplitWhole(fraction, ".");
    assert Split(s, ".") == [whole, fraction];
  }
}
