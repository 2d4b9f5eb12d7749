/**
 * The order the dashboard sorts cell values by: Python's ordering of strings
 * by code point, False before True, and non-negative integer texts by
 * magnitude (shorter first, then digit by digit). A missing value sorts
 * below every other, which puts it last in a descending sort.
 */
module ValueOrder {
  import opened Frames

  /** Lexicographic order by character code: a proper prefix comes first. */
  predicate TextLess(a: string, b: string)
    decreases |a|
  {
    |b| > 0 && (|a| == 0 || a[0] < b[0] || (a[0] == b[0] && TextLess(a[1..], b[1..])))
  }

  lemma {:induction false} TextLessIrreflexive(a: string)
    ensures !TextLess(a, a)
    decreases |a|
  {
    if |a| > 0 {
      TextLessIrreflexive(a[1..]);
    }
  }

  lemma {:induction false} TextLessTransitive(a: string, b: string, c: string)
    requires TextLess(a, b) && TextLess(b, c)
    ensures TextLess(a, c)
    decreases |a|
  {
    if |a| > 0 && a[0] == b[0] && b[0] == c[0] {
      TextLessTransitive(a[1..], b[1..], c[1..]);
    }
  }

  lemma {:induction false} TextLessTotal(a: string, b: string)
    requires a != b
    ensures TextLess(a, b) || TextLess(b, a)
    decreases |a|
  {
    if |a| > 0 && |b| > 0 && a[0] == b[0] {
      assert a == [a[0]] + a[1..] && b == [b[0]] + b[1..];
      TextLessTotal(a[1..], b[1..]);
    }
  }

  /** Integer texts by magnitude: fewer digits first, then digit by digit. */
  predicate NumberLess(a: string, b: string)
  {
    |a| < |b| || (|a| == |b| && TextLess(a, b))
  }

  function Rank(v: Value): nat
  {
    match v
    case Null => 0
    case Flag(_) => 1
    case Number(_) => 2
    case Str(_) => 3
  }

  /** The strict order on cell values. */
  predicate Less(a: Value, b: Value)
  {
    if Rank(a) != Rank(b) then Rank(a) < Rank(b)
    else match a
      case Null => false
      case Flag(x) => !x && b.b
      case Number(x) => NumberLess(x, b.repr)
      case Str(x) => TextLess(x, b.s)
  }

  lemma {:induction false} LessIrreflexive(a: Value)
    ensures !Less(a, a)
  {
    match a
    case Null =>
    case Flag(_) =>
    case Number(x) => TextLessIrreflexive(x);
    case Str(x) => TextLessIrreflexive(x);
  }

  lemma {:induction false} LessTransitive(a: Value, b: Value, c: Value)
    requires Less(a, b) && Less(b, c)
    ensures Less(a, c)
  {
    if Rank(a) == Rank(b) == Rank(c) {
      match a
      case Null =>
      case Flag(_) =>
      case Number(x) =>
        if |x| == |b.repr| == |c.repr| {
          TextLessTransitive(x, b.repr, c.repr);
        }
      case Str(x) => TextLessTransitive(x, b.s, c.s);
    }
  }

  lemma {:induction false} LessTotal(a: Value, b: Value)
    requires a != b
    ensures Less(a, b) || Less(b, a)
  {
    if Rank(a) == Rank(b) {
      match a
      case Null =>
      case Flag(_) =>
      case Number(x) =>
        if |x| == |b.repr| {
          TextLessTotal(x, b.repr);
        }
      case Str(x) => TextLessTotal(x, b.s);
    }
  }

  lemma {:induction false} LessAsymmetric(a: Value, b: Value)
    requires Less(a, b)
    ensures !Less(b, a)
  {
    if Less(b, a) {
      LessTransitive(a, b, a);
      LessIrreflexive(a);
    }
  }

  lemma {:induction false} NotLessAfterLess(a: Value, b: Value, c: Value)
    requires Less(a, b) && !Less(a, c)
    ensures !Less(b, c)
  {
    if Less(b, c) {
      LessTransitive(a, b, c);
    }
  }

  /** Nothing sorts below a missing value. */
  lemma {:induction false} NullIsLeast(a: Value)
    ensures !Less(a, Null)
    ensures a != Null ==> Less(Null, a)
  {
  }

  /** Strictly increasing: sorted and without repeats. */
  predicate Increasing(s: seq<Value>)
  {
    forall i, j :: 0 <= i < j < |s| ==> Less(s[i], s[j])
  }

  /**
   * Puts v into a strictly increasing list, unless it is there already.
   */
  function InsertValue(s: seq<Value>, v: Value): (r: seq<Value>)
    requires Increasing(s)
    ensures forall x :: x in r <==> x in s || x == v
    ensures |r| <= |s| + 1
    decreases |s|
  {
    if s == [] then [v]
    else if v == s[0] then s
    else if Less(v, s[0]) then [v] + s
    else [s[0]] + InsertValue(s[1..], v)
  }

  lemma {:induction false} InsertValueIncreasing(s: seq<Value>, v: Value)
    requires Increasing(s)
    ensures Increasing(InsertValue(s, v))
    decreases |s|
  {
    if s != [] && v != s[0] {
      if Less(v, s[0]) {
        forall j | 0 < j < |s| + 1 ensures Less(v, ([v] + s)[j]) {
          if j > 1 {
            LessTransitive(v, s[0], s[j - 1]);
          }
        }
      } else {
        LessTotal(v, s[0]);
        InsertValueIncreasing(s[1..], v);
        var rest := InsertValue(s[1..], v);
        forall y | y in rest ensures Less(s[0], y) {
          if y != v {
            var k :| 0 <= k < |s[1..]| && s[1..][k] == y;
            assert s[k + 1] == y;
          }
        }
        var r := [s[0]] + rest;
        forall i, j | 0 <= i < j < |r| ensures Less(r[i], r[j]) {
          if i == 0 {
            assert r[j] == rest[j - 1] && r[j] in rest;
          } else {
            assert r[i] == rest[i - 1] && r[j] == rest[j - 1];
          }
        }
      }
    }
  }

  /** Non-increasing by the cell in column c. */
  predicate Descending(rows: seq<Row>, c: string)
  {
    forall i, j :: 0 <= i < j < |rows| ==> !Less(Get(rows[i], c), Get(rows[j], c))
  }

  /** Puts x after every row whose key is not below its own: a stable insertion. */
  function InsertRow(s: seq<Row>, x: Row, c: string): (r: seq<Row>)
    ensures multiset(r) == multiset(s) + multiset{x}
    decreases |s|
  {
    if s == [] then [x]
    else if Less(Get(s[0], c), Get(x, c)) then [x] + s
    else
      assert s == [s[0]] + s[1..];
      [s[0]] + InsertRow(s[1..], x, c)
  }

  /** No key with the sorted list in front of it is smaller than what follows. */
  lemma {:induction false} NotLessTransitive(a: Value, b: Value, c: Value)
    requires !Less(a, b) && !Less(b, c)
    ensures !Less(a, c)
  {
    if Less(a, c) {
      if a == b {
      } else if b == c {
      } else {
        LessTotal(a, b);
        LessTotal(b, c);
        LessTransitive(b, a, c);
      }
    }
  }

  /** No row of s has a key above k. */
  predicate NoneAbove(k: Value, s: seq<Row>, c: string)
  {
    forall y :: y in s ==> !Less(k, Get(y, c))
  }

  lemma {:induction false} InsertRowMembers(s: seq<Row>, x: Row, c: string)
    ensures forall y :: y in InsertRow(s, x, c) ==> y in s || y == x
  {
    forall y | y in InsertRow(s, x, c) ensures y in s || y == x {
      assert y in multiset(InsertRow(s, x, c));
    }
  }

  /** A list whose head has no key above the rest and whose tail is descending is descending. */
  lemma {:induction false} DescendingCons(y: Row, rest: seq<Row>, c: string)
    requires NoneAbove(Get(y, c), rest, c) && Descending(rest, c)
    ensures Descending([y] + rest, c)
  {
    var r := [y] + rest;
    forall i, j | 0 <= i < j < |r| ensures !Less(Get(r[i], c), Get(r[j], c)) {
      assert r[j] == rest[j - 1];
      if i > 0 {
        assert r[i] == rest[i - 1];
      }
    }
  }

  lemma {:induction false} InsertRowDescending(s: seq<Row>, x: Row, c: string)
    requires Descending(s, c)
    ensures Descending(InsertRow(s, x, c), c)
    decreases |s|
  {
    if s == [] {
      return;
    }
    var k0 := Get(s[0], c);
    var kx := Get(x, c);
    assert Descending(s[1..], c) by {
      forall i, j | 0 <= i < j < |s[1..]| ensures !Less(Get(s[1..][i], c), Get(s[1..][j], c)) {
        assert s[1..][i] == s[i + 1] && s[1..][j] == s[j + 1];
      }
    }
    assert NoneAbove(k0, s[1..], c) by {
      forall y | y in s[1..] ensures !Less(k0, Get(y, c)) {
        var k :| 0 <= k < |s[1..]| && s[1..][k] == y;
        assert s[k + 1] == y;
      }
    }
    if Less(k0, kx) {
      forall y | y in s ensures !Less(kx, Get(y, c)) {
        if y == s[0] {
          LessAsymmetric(k0, kx);
        } else {
          assert y in s[1..] by {
            assert s == [s[0]] + s[1..];
          }
          NotLessAfterLess(k0, kx, Get(y, c));
        }
      }
      DescendingCons(x, s, c);
    } else {
      InsertRowDescending(s[1..], x, c);
      InsertRowMembers(s[1..], x, c);
      DescendingCons(s[0], InsertRow(s[1..], x, c), c);
    }
  }

  /** sort_values(by=c, ascending=False): the rows by descending key, missing keys last. */
  function SortDescending(rows: seq<Row>, c: string): (r: seq<Row>)
    ensures multiset(r) == multiset(rows)
    decreases |rows|
  {
    if rows == [] then []
    else
      assert rows == rows[..|rows| - 1] + [rows[|rows| - 1]];
      InsertRow(SortDescending(rows[..|rows| - 1], c), rows[|rows| - 1], c)
  }

  lemma {:induction false} SortDescendingSorted(rows: seq<Row>, c: string)
    ensures Descending(SortDescending(rows, c), c)
    decreases |rows|
  {
    if rows != [] {
      SortDescendingSorted(rows[..|rows| - 1], c);
      InsertRowDescending(SortDescending(rows[..|rows| - 1], c), rows[|rows| - 1], c);
    }
  }
}
