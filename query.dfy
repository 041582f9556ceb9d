/**
 * The date filter shared by the read-only view and the analytics view,
 * and the read-only view's newest-first ordering.
 *
 * Both views keep the rows with `start_date <= date <= end_date`; the
 * read-only view then shows them sorted by date, latest first.
 */
module Query {
  import opened Entries

  /** Both bounds are inclusive. */
  predicate InRange(e: Entry, lo: Day, hi: Day)
  {
    lo <= e.date <= hi
  }

  /**
   * The boolean-mask selection `df[(df.date >= lo) & (df.date <= hi)]`:
   * keeps exactly the entries in range, each as often as it occurs,
   * without changing them. An empty range (`lo > hi`) keeps nothing.
   */
  function FilterByDate(es: seq<Entry>, lo: Day, hi: Day): (r: seq<Entry>)
    ensures |r| <= |es|
    ensures forall e :: e in r <==> e in es && InRange(e, lo, hi)
    ensures forall e :: multiset(r)[e] == if InRange(e, lo, hi) then multiset(es)[e] else 0
    ensures lo > hi ==> r == []
  {
    if es == [] then []
    else
      assert es == [es[0]] + es[1..];
      (if InRange(es[0], lo, hi) then [es[0]] else []) + FilterByDate(es[1..], lo, hi)
  }

  /** The mask never reorders: filtering a concatenation filters each part in turn. */
  lemma {:induction false} FilterAppend(a: seq<Entry>, b: seq<Entry>, lo: Day, hi: Day)
    ensures FilterByDate(a + b, lo, hi) == FilterByDate(a, lo, hi) + FilterByDate(b, lo, hi)
  {
    if a == [] {
      assert a + b == b;
    } else {
      assert (a + b)[0] == a[0];
      assert (a + b)[1..] == a[1..] + b;
      FilterAppend(a[1..], b, lo, hi);
    }
  }

  /** A range that covers every entry keeps the whole sequence, in its order. */
  lemma {:induction false} FilterKeepsAllInRange(es: seq<Entry>, lo: Day, hi: Day)
    requires forall i :: 0 <= i < |es| ==> InRange(es[i], lo, hi)
    ensures FilterByDate(es, lo, hi) == es
  {
    if es != [] {
      FilterKeepsAllInRange(es[1..], lo, hi);
      assert es == [es[0]] + es[1..];
    }
  }

  /** Earliest date of a non-empty sequence: the default start of the date pickers (`df["date"].min()`). */
  function MinDate(es: seq<Entry>): (d: Day)
    requires es != []
    ensures forall i :: 0 <= i < |es| ==> d <= es[i].date
    ensures exists i :: 0 <= i < |es| && d == es[i].date
  {
    if |es| == 1 then es[0].date
    else
      var m := MinDate(es[1..]);
      assert forall i :: 1 <= i < |es| ==> es[i] == es[1..][i - 1];
      if es[0].date <= m then es[0].date else m
  }

  /** Latest date of a non-empty sequence: the default end of the date pickers (`df["date"].max()`). */
  function MaxDate(es: seq<Entry>): (d: Day)
    requires es != []
    ensures forall i :: 0 <= i < |es| ==> es[i].date <= d
    ensures exists i :: 0 <= i < |es| && d == es[i].date
  {
    if |es| == 1 then es[0].date
    else
      var m := MaxDate(es[1..]);
      assert forall i :: 1 <= i < |es| ==> es[i] == es[1..][i - 1];
      if es[0].date >= m then es[0].date else m
  }

  /** With the pickers left at their defaults, the filter keeps every entry. */
  lemma DefaultRangeKeepsAll(es: seq<Entry>)
    requires es != []
    ensures FilterByDate(es, MinDate(es), MaxDate(es)) == es
  {
    FilterKeepsAllInRange(es, MinDate(es), MaxDate(es));
  }

  /** Latest date first: no entry is dated after one shown before it. */
  predicate SortedByDateDesc(s: seq<Entry>)
  {
    forall i, j :: 0 <= i < j < |s| ==> s[i].date >= s[j].date
  }

  /** Prefixing an entry dated no earlier than every element keeps the order. */
  lemma PrependKeepsSorted(x: Entry, s: seq<Entry>)
    requires SortedByDateDesc(s)
    requires forall y :: y in s ==> y.date <= x.date
    ensures SortedByDateDesc([x] + s)
  {
    var r := [x] + s;
    forall i, j | 0 <= i < j < |r|
      ensures r[i].date >= r[j].date
    {
      if i == 0 {
        assert r[j] == s[j - 1];
      } else {
        assert r[i] == s[i - 1] && r[j] == s[j - 1];
      }
    }
  }

  /** Inserts an entry ahead of every entry dated no later than it. */
  function InsertByDateDesc(e: Entry, s: seq<Entry>): (r: seq<Entry>)
    requires SortedByDateDesc(s)
    ensures SortedByDateDesc(r)
    ensures multiset(r) == multiset(s) + multiset{e}
  {
    if s == [] || e.date >= s[0].date then
      PrependKeepsSorted(e, s);
      [e] + s
    else
      var rest := InsertByDateDesc(e, s[1..]);
      assert s == [s[0]] + s[1..];
      assert forall y :: y in rest ==> y.date <= s[0].date by {
        forall y | y in rest
          ensures y.date <= s[0].date
        {
          assert y in multiset(rest);
          if y != e {
            assert y in multiset(s[1..]);
            var k :| 0 <= k < |s[1..]| && s[1..][k] == y;
            assert s[k + 1] == y;
          }
        }
      }
      PrependKeepsSorted(s[0], rest);
      [s[0]] + rest
  }

  /** `sort_values("date", ascending=False)`: a rearrangement of its input, latest date first. */
  function SortByDateDesc(es: seq<Entry>): (r: seq<Entry>)
    ensures SortedByDateDesc(r)
    ensures multiset(r) == multiset(es)
  {
    if es == [] then []
    else
      assert es == [es[0]] + es[1..];
      InsertByDateDesc(es[0], SortByDateDesc(es[1..]))
  }

  /**
   * The read-only view (`filtered.sort_values("date", ascending=False)`):
   * exactly the entries of the range, each as often as stored, latest first.
   */
  function ViewEntries(es: seq<Entry>, lo: Day, hi: Day): (r: seq<Entry>)
    ensures SortedByDateDesc(r)
    ensures multiset(r) == multiset(FilterByDate(es, lo, hi))
    ensures forall e :: multiset(r)[e] == if InRange(e, lo, hi) then multiset(es)[e] else 0
    ensures |r| == |FilterByDate(es, lo, hi)|
  {
    var kept := FilterByDate(es, lo, hi);
    var r := SortByDateDesc(kept);
    assert |r| == |multiset(r)| == |multiset(kept)| == |kept|;
    r
  }
}
