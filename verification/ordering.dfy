/** Python's `sorted(...unique())` on string cells: code-point lexicographic
    order, and the distinct, ascending list of the non-null values of a column. */
module Ordering {
  import opened Wrappers

  /** Strict lexicographic order on strings, comparing code points from the
      left; a proper prefix comes first. This is Python's `<` on `str`. */
  predicate Below(a: string, b: string)
    decreases |a|
  {
    if a == [] then b != []
    else if b == [] then false
    else a[0] < b[0] || (a[0] == b[0] && Below(a[1..], b[1..]))
  }

  lemma {:induction false} BelowIrreflexive(a: string)
    ensures !Below(a, a)
  {
    if a != [] {
      BelowIrreflexive(a[1..]);
    }
  }

  lemma {:induction false} BelowTransitive(a: string, b: string, c: string)
    requires Below(a, b) && Below(b, c)
    ensures Below(a, c)
  {
    if a != [] && a[0] == b[0] && b[0] == c[0] {
      BelowTransitive(a[1..], b[1..], c[1..]);
    }
  }

  lemma {:induction false} BelowTotal(a: string, b: string)
    requires a != b
    ensures Below(a, b) || Below(b, a)
  {
    if a != [] && b != [] && a[0] == b[0] {
      assert a == [a[0]] + a[1..] && b == [b[0]] + b[1..];
      BelowTotal(a[1..], b[1..]);
    }
  }

  /** Every element is strictly below every later one: ascending and without
      duplicates. */
  predicate StrictlySorted(s: seq<string>)
  {
    forall i, j :: 0 <= i < j < |s| ==> Below(s[i], s[j])
  }

  lemma StrictlySortedHasNoDuplicates(s: seq<string>)
    requires StrictlySorted(s)
    ensures forall i, j :: 0 <= i < j < |s| ==> s[i] != s[j]
  {
    forall i, j | 0 <= i < j < |s|
      ensures s[i] != s[j]
    {
      BelowIrreflexive(s[i]);
    }
  }

  /** Adds `x` to a strictly sorted list unless it is already there. */
  function Insert(x: string, s: seq<string>): (r: seq<string>)
    requires StrictlySorted(s)
    ensures StrictlySorted(r)
    ensures forall y :: y in r <==> y == x || y in s
    decreases |s|
  {
    if s == [] then [x]
    else if x == s[0] then s
    else if Below(x, s[0]) then
      assert forall j :: 0 < j < |s| ==> Below(x, s[j]) by {
        forall j | 0 < j < |s| ensures Below(x, s[j]) {
          BelowTransitive(x, s[0], s[j]);
        }
      }
      [x] + s
    else
      BelowTotal(x, s[0]);
      var rest := Insert(x, s[1..]);
      assert forall y :: y in rest ==> Below(s[0], y) by {
        forall y | y in rest ensures Below(s[0], y) {
          if y != x {
            var j :| 0 <= j < |s[1..]| && s[1..][j] == y;
            assert s[j + 1] == y;
          }
        }
      }
      [s[0]] + rest
  }

  /** The distinct non-null values of a column, ascending: pandas'
      `sorted(column.dropna().unique().tolist())`. */
  function DistinctSorted(cells: seq<Option<string>>): (r: seq<string>)
    ensures StrictlySorted(r)
    ensures forall v :: v in r <==> Some(v) in cells
  {
    if cells == [] then []
    else
      var rest := DistinctSorted(cells[1..]);
      assert forall v :: Some(v) in cells <==> cells[0] == Some(v) || Some(v) in cells[1..] by {
        assert cells == [cells[0]] + cells[1..];
      }
      match cells[0]
      case None => rest
      case Some(v) => Insert(v, rest)
  }

  /** Gives `SortedUnique` the fact `s[0] in s` without an index check in its
      impossible case (one list empty, the other not). */
  lemma HeadIsMember(s: seq<string>)
    ensures |s| > 0 ==> s[0] in s
  {
  }

  /** A strictly sorted list is determined by its elements: two of them with
      the same elements are equal. So the candidate lists are THE ascending
      list of distinct values, whatever order the rows came in. */
  lemma {:induction false} SortedUnique(a: seq<string>, b: seq<string>)
    requires StrictlySorted(a) && StrictlySorted(b)
    requires forall v :: v in a <==> v in b
    ensures a == b
  {
    if a == [] {
      HeadIsMember(b);
    } else {
      assert a[0] in b;
      assert b != [];
      assert b[0] in a;
      var k :| 0 <= k < |b| && b[k] == a[0];
      var m :| 0 <= m < |a| && a[m] == b[0];
      if k > 0 && m > 0 {
        assert Below(b[0], a[0]) && Below(a[0], b[0]);
        BelowTransitive(a[0], b[0], a[0]);
        BelowIrreflexive(a[0]);
      }
      assert a[0] == b[0];
      StrictlySortedHasNoDuplicates(a);
      StrictlySortedHasNoDuplicates(b);
      forall v
        ensures v in a[1..] <==> v in b[1..]
      {
        if v in a[1..] {
          var i :| 0 <= i < |a[1..]| && a[1..][i] == v;
          assert a[i + 1] == v && v != a[0];
          assert v in b;
          var j :| 0 <= j < |b| && b[j] == v;
          assert j != 0;
          assert b[1..][j - 1] == v;
        }
        if v in b[1..] {
          var i :| 0 <= i < |b[1..]| && b[1..][i] == v;
          assert b[i + 1] == v && v != b[0];
          assert v in a;
          var j :| 0 <= j < |a| && a[j] == v;
          assert j != 0;
          assert a[1..][j - 1] == v;
        }
      }
      SortedUnique(a[1..], b[1..]);
      assert a == [a[0]] + a[1..] && b == [b[0]] + b[1..];
    }
  }
}
