/**
 * Python string operations used by the pages and the statement builders:
 * str.isspace, str.strip, str.split with a one-character separator,
 * str.join, the `in` substring test and str() of a non-negative int.
 */
module Text {

  /** Python's str.isspace() on a single character. */
  predicate IsSpace(c: char)
  {
    || c == ' '
    || ('\t' <= c <= '\r')
    || ('\U{1c}' <= c <= '\U{1f}')
    || c == '\U{85}' || c == '\U{a0}' || c == '\U{1680}'
    || ('\U{2000}' <= c <= '\U{200a}')
    || c == '\U{2028}' || c == '\U{2029}' || c == '\U{202f}' || c == '\U{205f}' || c == '\U{3000}'
  }

  /** True when `s` has no leading and no trailing whitespace. */
  predicate IsStripped(s: string)
  {
    s == [] || (!IsSpace(s[0]) && !IsSpace(s[|s| - 1]))
  }

  predicate IsPrefix(p: string, s: string)
  {
    |p| <= |s| && s[..|p|] == p
  }

  predicate IsSuffix(p: string, s: string)
  {
    |p| <= |s| && s[|s| - |p|..] == p
  }

  lemma {:induction false} ConcatEnds(a: string, b: string)
    ensures IsPrefix(a, a + b) && IsSuffix(b, a + b)
  {
    assert (a + b)[..|a|] == a;
    assert (a + b)[|a|..] == b;
  }

  function LStrip(s: string): (r: string)
    ensures |r| <= |s|
    ensures r == [] || !IsSpace(r[0])
    ensures forall k :: 0 <= k < |s| - |r| ==> IsSpace(s[k])
  {
    if |s| > 0 && IsSpace(s[0]) then LStrip(s[1..]) else s
  }

  function RStrip(s: string): (r: string)
    ensures |r| <= |s|
    ensures r == [] || !IsSpace(r[|r| - 1])
    ensures forall k :: |r| <= k < |s| ==> IsSpace(s[k])
  {
    if |s| > 0 && IsSpace(s[|s| - 1]) then RStrip(s[..|s| - 1]) else s
  }

  /** lstrip() removes a prefix. */
  lemma {:induction false} LStripIsSuffix(s: string)
    ensures LStrip(s) == s[|s| - |LStrip(s)|..]
  {
    if |s| > 0 && IsSpace(s[0]) {
      LStripIsSuffix(s[1..]);
    }
  }

  /** rstrip() removes a suffix. */
  lemma {:induction false} RStripIsPrefix(s: string)
    ensures RStrip(s) == s[..|RStrip(s)|]
  {
    if |s| > 0 && IsSpace(s[|s| - 1]) {
      RStripIsPrefix(s[..|s| - 1]);
    }
  }

  /** The number of whitespace characters that s.strip() removes at the front. */
  function LeadingBlanks(s: string): nat
  {
    |s| - |LStrip(s)|
  }

  /**
   * Python's s.strip(): the longest slice of `s` that neither starts nor ends
   * with whitespace, everything cut away on either side being whitespace.
   */
  function Strip(s: string): (r: string)
    ensures IsStripped(r)
  {
    var l := LStrip(s);
    RStripIsPrefix(l);
    RStrip(l)
  }

  /** Where the strip sits inside the original string. */
  lemma {:induction false} StripIsSlice(s: string)
    ensures LeadingBlanks(s) + |Strip(s)| <= |s|
    ensures Strip(s) == s[LeadingBlanks(s)..LeadingBlanks(s) + |Strip(s)|]
    ensures forall k :: 0 <= k < LeadingBlanks(s) ==> IsSpace(s[k])
    ensures forall k :: LeadingBlanks(s) + |Strip(s)| <= k < |s| ==> IsSpace(s[k])
  {
    var l := LStrip(s);
    var a := |s| - |l|;
    var r := RStrip(l);
    LStripIsSuffix(s);
    RStripIsPrefix(l);
    assert LeadingBlanks(s) == a && Strip(s) == r;
    assert l == s[a..];
    assert r == l[..|r|];
    SliceOfSuffix(s, a, |r|);
    forall k | a + |r| <= k < |s| ensures IsSpace(s[k]) {
      assert s[k] == l[k - a];
      assert |r| <= k - a < |l|;
    }
  }

  lemma {:induction false} SliceOfSuffix(s: string, a: nat, n: nat)
    requires a <= |s| && n <= |s| - a
    ensures s[a..][..n] == s[a..a + n]
  {
  }

  /** Stripping only removes characters. */
  lemma {:induction false} StripKeepsAbsent(s: string, c: char)
    requires c !in s
    ensures c !in Strip(s)
  {
    StripIsSlice(s);
  }

  /** A string without surrounding whitespace is its own strip. */
  lemma {:induction false} StrippedIsFixed(s: string)
    requires IsStripped(s)
    ensures Strip(s) == s
  {
  }

  /** Strip is idempotent. */
  lemma {:induction false} StripIdempotent(s: string)
    ensures Strip(Strip(s)) == Strip(s)
  {
    StrippedIsFixed(Strip(s));
  }

  /** A leading blank does not change the strip. */
  lemma {:induction false} StripLeadingBlank(s: string)
    ensures Strip([' '] + s) == Strip(s)
  {
    assert ([' '] + s)[1..] == s;
  }

  /** Strip gives "" exactly when every character is whitespace (Python's `s.strip() == ""`). */
  lemma {:induction false} StripEmptyIffBlank(s: string)
    ensures Strip(s) == "" <==> forall k :: 0 <= k < |s| ==> IsSpace(s[k])
  {
    StripIsSlice(s);
    if Strip(s) != "" {
      var i := LeadingBlanks(s);
      assert Strip(s)[0] == s[i] && !IsSpace(s[i]);
    }
  }

  /**
   * Python's s.split(d) for a one-character separator: the pieces between
   * occurrences of d, so "a,,b" gives ["a", "", "b"] and "" gives [""].
   */
  function Split(s: string, d: char): (r: seq<string>)
    ensures |r| >= 1
    ensures forall k :: 0 <= k < |r| ==> d !in r[k]
  {
    if |s| == 0 then [""]
    else
      var t := Split(s[1..], d);
      if s[0] == d then [""] + t else [[s[0]] + t[0]] + t[1..]
  }

  /** Python's sep.join(parts). */
  function Join(parts: seq<string>, sep: string): string
  {
    if |parts| == 0 then ""
    else if |parts| == 1 then parts[0]
    else parts[0] + sep + Join(parts[1..], sep)
  }

  /** Joining one more part adds the separator and the part at the end. */
  lemma {:induction false} JoinSnoc(parts: seq<string>, x: string, sep: string)
    requires |parts| >= 1
    ensures Join(parts + [x], sep) == Join(parts, sep) + sep + x
  {
    if |parts| > 1 {
      assert (parts + [x])[1..] == parts[1..] + [x];
      JoinSnoc(parts[1..], x, sep);
    }
  }

  /** Joining the pieces of a split with the separator gives back the string. */
  lemma {:induction false} JoinSplit(s: string, d: char)
    ensures Join(Split(s, d), [d]) == s
  {
    if |s| > 0 {
      var t := Split(s[1..], d);
      JoinSplit(s[1..], d);
      if s[0] != d && |t| > 1 {
        assert Join(t, [d]) == t[0] + [d] + Join(t[1..], [d]);
        assert ([[s[0]] + t[0]] + t[1..])[1..] == t[1..];
      }
    }
  }

  lemma {:induction false} SplitWithoutSeparator(a: string, d: char)
    requires d !in a
    ensures Split(a, d) == [a]
  {
    if |a| > 0 {
      SplitWithoutSeparator(a[1..], d);
      assert [a[0]] + a[1..] == a;
    }
  }

  lemma {:induction false} SplitAtSeparator(a: string, rest: string, d: char)
    requires d !in a
    ensures Split(a + [d] + rest, d) == [a] + Split(rest, d)
  {
    if |a| == 0 {
      assert (a + [d] + rest)[1..] == rest;
    } else {
      assert (a + [d] + rest)[1..] == a[1..] + [d] + rest;
      SplitAtSeparator(a[1..], rest, d);
      assert [a[0]] + a[1..] == a;
    }
  }

  /** Splitting a join of separator-free pieces recovers the pieces. */
  lemma {:induction false} SplitJoin(parts: seq<string>, d: char)
    requires |parts| >= 1
    requires forall k :: 0 <= k < |parts| ==> d !in parts[k]
    ensures Split(Join(parts, [d]), d) == parts
  {
    if |parts| == 1 {
      SplitWithoutSeparator(parts[0], d);
    } else {
      SplitJoin(parts[1..], d);
      SplitAtSeparator(parts[0], Join(parts[1..], [d]), d);
    }
  }

  /** Python's [e.strip() for e in parts]. */
  function StripAll(parts: seq<string>): (r: seq<string>)
    ensures |r| == |parts|
    ensures forall k :: 0 <= k < |r| ==> r[k] == Strip(parts[k])
  {
    seq(|parts|, k requires 0 <= k < |parts| => Strip(parts[k]))
  }

  /** Python's [e.strip() for e in s.split(',')]: the elements of a comma-separated list. */
  function Elements(s: string): (r: seq<string>)
    ensures |r| >= 1
    ensures forall k :: 0 <= k < |r| ==> ',' !in r[k] && IsStripped(r[k])
  {
    var r := StripAll(Split(s, ','));
    assert forall k :: 0 <= k < |r| ==> ',' !in r[k] by {
      forall k | 0 <= k < |r| ensures ',' !in r[k] {
        StripKeepsAbsent(Split(s, ',')[k], ',');
      }
    }
    r
  }

  lemma {:induction false} SplitBlankPrefix(s: string)
    ensures |Split([' '] + s, ',')| == |Split(s, ',')|
    ensures Split([' '] + s, ',')[0] == [' '] + Split(s, ',')[0]
    ensures Split([' '] + s, ',')[1..] == Split(s, ',')[1..]
  {
    assert ([' '] + s)[1..] == s;
  }

  /**
   * Reading back a ", "-joined list of stripped, comma-free pieces with
   * Elements gives exactly the pieces: the list form is an inverse of the join.
   */
  lemma {:induction false} ElementsOfJoin(parts: seq<string>)
    requires |parts| >= 1
    requires forall k :: 0 <= k < |parts| ==> ',' !in parts[k] && IsStripped(parts[k])
    ensures Elements(Join(parts, ", ")) == parts
  {
    if |parts| == 1 {
      ElementsOfSingle(parts[0]);
    } else {
      ElementsOfJoin(parts[1..]);
      ElementsOfJoinStep(parts);
    }
  }

  lemma {:induction false} ElementsOfSingle(p: string)
    requires ',' !in p && IsStripped(p)
    ensures Elements(p) == [p]
  {
    SplitWithoutSeparator(p, ',');
    StrippedIsFixed(p);
    var pieces := StripAll(Split(p, ','));
    assert |pieces| == 1 && pieces[0] == Strip(p);
  }

  lemma {:induction false} ElementsOfJoinStep(parts: seq<string>)
    requires |parts| >= 2 && ',' !in parts[0] && IsStripped(parts[0])
    requires Elements(Join(parts[1..], ", ")) == parts[1..]
    ensures Elements(Join(parts, ", ")) == parts
  {
    var tailText := Join(parts[1..], ", ");
    var t := Split(tailText, ',');
    var u := Split([' '] + tailText, ',');
    SplitOfCommaSpaceJoin(parts);
    assert Split(Join(parts, ", "), ',') == [parts[0]] + u;
    SplitBlankPrefix(tailText);
    StripAllBlankPrefix(t, u);
    assert StripAll(u) == StripAll(t) == parts[1..];
    StrippedIsFixed(parts[0]);
    StripAllCons(parts[0], u);
    assert StripAll([parts[0]] + u) == [parts[0]] + parts[1..];
    assert [parts[0]] + parts[1..] == parts;
  }

  lemma {:induction false} SplitOfCommaSpaceJoin(parts: seq<string>)
    requires |parts| >= 2 && ',' !in parts[0]
    ensures Split(Join(parts, ", "), ',') == [parts[0]] + Split([' '] + Join(parts[1..], ", "), ',')
  {
    var tailText := Join(parts[1..], ", ");
    assert Join(parts, ", ") == parts[0] + [','] + ([' '] + tailText);
    SplitAtSeparator(parts[0], [' '] + tailText, ',');
  }

  lemma {:induction false} StripAllBlankPrefix(t: seq<string>, u: seq<string>)
    requires |t| >= 1 && |u| == |t| && u[0] == [' '] + t[0] && u[1..] == t[1..]
    ensures StripAll(u) == StripAll(t)
  {
    StripLeadingBlank(t[0]);
    forall k | 0 <= k < |u| ensures StripAll(u)[k] == StripAll(t)[k] {
      if k > 0 {
        assert u[k] == u[1..][k - 1] == t[1..][k - 1] == t[k];
      }
    }
  }

  lemma {:induction false} StripAllCons(p: string, u: seq<string>)
    requires Strip(p) == p
    ensures StripAll([p] + u) == [p] + StripAll(u)
  {
    var l := [p] + u;
    forall k | 0 <= k < |l| ensures StripAll(l)[k] == ([p] + StripAll(u))[k] {
      if k > 0 {
        assert l[k] == u[k - 1];
      }
    }
  }

  /** Python's `sub in s` for strings. */
  predicate Contains(s: string, sub: string)
  {
    exists i :: 0 <= i <= |s| - |sub| && OccursAt(s, sub, i)
  }

  predicate OccursAt(s: string, sub: string, i: int)
  {
    0 <= i <= |s| - |sub| && s[i..i + |sub|] == sub
  }

  function DigitChar(d: nat): (c: char)
    requires d < 10
    ensures '0' <= c <= '9'
  {
    (48 + d) as char
  }

  /** Python's str(n) for a non-negative int: its decimal digits. */
  function NatToString(n: nat): (r: string)
    ensures |r| >= 1
    ensures forall k :: 0 <= k < |r| ==> '0' <= r[k] <= '9'
    ensures n >= 10 ==> |r| >= 2
  {
    if n < 10 then [DigitChar(n)] else NatToString(n / 10) + [DigitChar(n % 10)]
  }

  /** Distinct numbers have distinct decimal forms. */
  lemma {:induction false} NatToStringInjective(a: nat, b: nat)
    requires NatToString(a) == NatToString(b)
    ensures a == b
  {
    if a >= 10 && b >= 10 {
      var sa, sb := NatToString(a), NatToString(b);
      assert sa[|sa| - 1] == DigitChar(a % 10) && sb[|sb| - 1] == DigitChar(b % 10);
      assert NatToString(a / 10) == sa[..|sa| - 1] == sb[..|sb| - 1] == NatToString(b / 10);
      NatToStringInjective(a / 10, b / 10);
    } else if a < 10 && b < 10 {
      assert DigitChar(a) == NatToString(a)[0] == NatToString(b)[0] == DigitChar(b);
    }
  }

  /** Two keys built as a fixed prefix followed by a number agree only for the same number. */
  lemma {:induction false} NumberedKeyInjective(prefix: string, a: nat, b: nat)
    requires prefix + NatToString(a) == prefix + NatToString(b)
    ensures a == b
  {
    assert (prefix + NatToString(a))[|prefix|..] == NatToString(a);
    assert (prefix + NatToString(b))[|prefix|..] == NatToString(b);
    NatToStringInjective(a, b);
  }
}
