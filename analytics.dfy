/**
 * The analytics view's summaries of the date-filtered entries.
 *
 * Per person (in order of first appearance) and per checkbox: how many of
 * the person's entries have the box ticked ("Yes") and how many do not
 * ("No"), a value that never occurs getting no row at all.
 *
 * Overall, per checkbox: how many ticked entries each person has, one row
 * per person with at least one, ordered by name; when nobody has one, the
 * single placeholder row ("No Data", 1).
 */
module Analytics {
  import opened Entries
  import opened Query
  import opened TextOrder

  /** The three checkbox columns, in the order the view shows them. */
  datatype Field = Started | TypeTx | TypeSrp

  const CheckboxFields: seq<Field> := [Started, TypeTx, TypeSrp]

  function Flag(e: Entry, f: Field): bool
  {
    match f
    case Started => e.started
    case TypeTx => e.typeTx
    case TypeSrp => e.typeSrp
  }

  // ---------------------------------------------------------------------
  // Counting
  // ---------------------------------------------------------------------

  /** Number of occurrences of `x` in `s`. */
  function Count<T(==)>(s: seq<T>, x: T): (n: nat)
    ensures n <= |s|
    ensures n > 0 <==> x in s
  {
    if s == [] then 0
    else
      assert s == [s[0]] + s[1..];
      (if s[0] == x then 1 else 0) + Count(s[1..], x)
  }

  /** Every boolean is either true or false: the two counts make up the whole sequence. */
  lemma {:induction false} CountTrueFalse(bs: seq<bool>)
    ensures Count(bs, true) + Count(bs, false) == |bs|
  {
    if bs != [] {
      CountTrueFalse(bs[1..]);
      assert Count(bs, true) == (if bs[0] then 1 else 0) + Count(bs[1..], true);
      assert Count(bs, false) == (if bs[0] then 0 else 1) + Count(bs[1..], false);
    }
  }

  /** The column `f` of a sequence of entries. */
  function Flags(es: seq<Entry>, f: Field): (bs: seq<bool>)
    ensures |bs| == |es|
    ensures forall i :: 0 <= i < |es| ==> bs[i] == Flag(es[i], f)
  {
    seq(|es|, i requires 0 <= i < |es| => Flag(es[i], f))
  }

  /** The column `name` of a sequence of entries. */
  function NamesOf(es: seq<Entry>): (ns: seq<string>)
    ensures |ns| == |es|
    ensures forall i :: 0 <= i < |es| ==> ns[i] == es[i].name
  {
    seq(|es|, i requires 0 <= i < |es| => es[i].name)
  }

  /** `df[df["name"] == name]`: the person's entries, in order. */
  function OfPerson(es: seq<Entry>, name: string): (r: seq<Entry>)
    ensures forall e :: e in r <==> e in es && e.name == name
    ensures forall e :: multiset(r)[e] == if e.name == name then multiset(es)[e] else 0
    ensures |r| == Count(NamesOf(es), name)
  {
    if es == [] then []
    else
      assert es == [es[0]] + es[1..];
      assert NamesOf(es) == [es[0].name] + NamesOf(es[1..]);
      (if es[0].name == name then [es[0]] else []) + OfPerson(es[1..], name)
  }

  /** Number of entries with `f` ticked. */
  function TrueCount(es: seq<Entry>, f: Field): nat
  {
    Count(Flags(es, f), true)
  }

  /** Number of entries of person `name` whose checkbox `f` is `b`. */
  function FlagCountOf(es: seq<Entry>, f: Field, name: string, b: bool): nat
  {
    if es == [] then 0
    else (if es[0].name == name && Flag(es[0], f) == b then 1 else 0) + FlagCountOf(es[1..], f, name, b)
  }

  /** Number of entries of person `name` with `f` ticked. */
  function TrueCountOf(es: seq<Entry>, f: Field, name: string): nat
  {
    FlagCountOf(es, f, name, true)
  }

  lemma CountCons<T>(x: T, s: seq<T>, v: T)
    ensures Count([x] + s, v) == (if x == v then 1 else 0) + Count(s, v)
  {
    assert ([x] + s)[1..] == s;
  }

  lemma FlagsCons(e: Entry, es: seq<Entry>, f: Field)
    ensures Flags([e] + es, f) == [Flag(e, f)] + Flags(es, f)
  {
  }

  /**
   * The checkbox column of a person's entries holds `b` exactly as often
   * as that person has entries whose checkbox is `b`.
   */
  lemma {:induction false} PersonFlagCount(es: seq<Entry>, name: string, f: Field, b: bool)
    ensures Count(Flags(OfPerson(es, name), f), b) == FlagCountOf(es, f, name, b)
  {
    if es != [] {
      var tail := OfPerson(es[1..], name);
      PersonFlagCount(es[1..], name, f, b);
      assert FlagCountOf(es, f, name, b)
          == (if es[0].name == name && Flag(es[0], f) == b then 1 else 0) + FlagCountOf(es[1..], f, name, b);
      if es[0].name == name {
        assert OfPerson(es, name) == [es[0]] + tail;
        FlagsCons(es[0], tail, f);
        CountCons(Flag(es[0], f), Flags(tail, f), b);
      } else {
        assert OfPerson(es, name) == tail;
      }
    }
  }

  // ---------------------------------------------------------------------
  // Per-person "Yes"/"No" counts
  // ---------------------------------------------------------------------

  /** `pd.unique`: each value once, in order of first appearance. */
  function FirstIndex(s: seq<string>, x: string): (k: nat)
    requires x in s
    ensures k < |s| && s[k] == x && x !in s[..k]
  {
    if s[0] == x then 0
    else
      var k := FirstIndex(s[1..], x);
      assert s[..k + 1] == [s[0]] + s[1..][..k];
      k + 1
  }

  /** The first position of a value is the only position with no earlier occurrence. */
  lemma FirstIndexUnique(s: seq<string>, x: string, k: nat)
    requires k < |s| && s[k] == x && x !in s[..k]
    ensures FirstIndex(s, x) == k
  {
  }

  /** First appearance in a prefix is first appearance in the whole. */
  lemma FirstIndexPrefix(s: seq<string>, n: nat, x: string)
    requires n <= |s| && x in s[..n]
    ensures FirstIndex(s[..n], x) == FirstIndex(s, x)
  {
    var k := FirstIndex(s[..n], x);
    assert s[..n][..k] == s[..k];
    FirstIndexUnique(s, x, k);
  }

  /**
   * `unique()`: every value of `s` exactly once, listed in order of its
   * first appearance in `s`.
   */
  function Unique(s: seq<string>): (r: seq<string>)
    ensures forall x :: x in r <==> x in s
    ensures forall i, j :: 0 <= i < j < |r| ==> r[i] != r[j]
    ensures forall i, j :: 0 <= i < j < |r| ==> FirstIndex(s, r[i]) < FirstIndex(s, r[j])
  {
    if s == [] then []
    else
      var init := s[..|s| - 1];
      var x := s[|s| - 1];
      var u := Unique(init);
      assert s == init + [x];
      assert forall y :: y in u ==> FirstIndex(init, y) == FirstIndex(s, y) by {
        forall y | y in u
          ensures FirstIndex(init, y) == FirstIndex(s, y)
        {
          FirstIndexPrefix(s, |s| - 1, y);
        }
      }
      if x in u then u
      else
        assert x !in s[..|s| - 1];
        FirstIndexUnique(s, x, |s| - 1);
        u + [x]
  }

  datatype ValueCount = ValueCount(answer: string, count: nat)

  /** How `value_counts()` labels a value once renamed: True is "Yes", False is "No". */
  function Label(b: bool): (s: string)
    ensures s == "Yes" || s == "No"
    ensures s == "Yes" <==> b
  {
    if b then "Yes" else "No"
  }

  /** The answer column of a count table (a column projection, like `NamesOf`). */
  function Answers(rows: seq<ValueCount>): (ns: seq<string>)
    ensures |ns| == |rows|
    ensures forall i :: 0 <= i < |rows| ==> ns[i] == rows[i].answer
  {
    seq(|rows|, i requires 0 <= i < |rows| => rows[i].answer)
  }

  /**
   * `rows` is the renamed `value_counts()` table of a column with `yes`
   * true values and `no` false ones: the "Yes" row counts the true values,
   * the "No" row the false ones, each row present exactly when its count
   * is positive, and the counts add up to the column's length.
   */
  predicate YesNoTable(rows: seq<ValueCount>, yes: nat, no: nat)
  {
    && (forall i :: 0 <= i < |rows| ==> rows[i].answer == "Yes" || rows[i].answer == "No")
    && (forall i :: 0 <= i < |rows| ==> rows[i].count == if rows[i].answer == "Yes" then yes else no)
    && ("Yes" in Answers(rows) <==> yes > 0)
    && ("No" in Answers(rows) <==> no > 0)
    && Total(rows) == yes + no
  }

  /** Sum of the count column. */
  function Total(rows: seq<ValueCount>): nat
  {
    if rows == [] then 0 else rows[0].count + Total(rows[1..])
  }

  /**
   * `value_counts()` of one boolean column, renamed to "Yes"/"No": one row
   * per value that occurs, with its number of occurrences, the larger count
   * first and, on a tie, the value that appears first.
   */
  function ValueCounts(bs: seq<bool>): (r: seq<ValueCount>)
    ensures forall i :: 0 <= i < |r| ==> r[i].count > 0
    ensures forall i :: 0 <= i < |r| ==>
      (r[i].answer == "Yes" || r[i].answer == "No") && r[i].count == Count(bs, r[i].answer == "Yes")
    ensures forall b :: b in bs <==> Label(b) in Answers(r)
    ensures |r| == 2 ==> r[0].answer != r[1].answer && r[0].count >= r[1].count
    ensures |r| <= 2
    ensures Total(r) == |bs|
    ensures YesNoTable(r, Count(bs, true), Count(bs, false))
  {
    var yes, no := Count(bs, true), Count(bs, false);
    CountTrueFalse(bs);
    assert Label(true) == "Yes" && Label(false) == "No";
    var yesRow, noRow := ValueCount("Yes", yes), ValueCount("No", no);
    assert [yesRow, noRow][1..] == [noRow] && [noRow, yesRow][1..] == [yesRow];
    assert [noRow][1..] == [] && [yesRow][1..] == [];
    assert Total([yesRow]) == yes && Total([noRow]) == no;
    assert Total([yesRow, noRow]) == yes + no && Total([noRow, yesRow]) == yes + no;
    if yes == 0 && no == 0 then []
    else if yes == 0 then [noRow]
    else if no == 0 then [yesRow]
    else if yes > no || (yes == no && bs[0]) then [yesRow, noRow]
    else [noRow, yesRow]
  }

  /**
   * The counts shown for one person and one checkbox: "Yes" is the number
   * of that person's entries with the box ticked, "No" the number without,
   * and together they are all of that person's entries.
   */
  function PersonFieldCounts(es: seq<Entry>, name: string, f: Field): (r: seq<ValueCount>)
    ensures YesNoTable(r, FlagCountOf(es, f, name, true), FlagCountOf(es, f, name, false))
    ensures Total(r) == |OfPerson(es, name)|
  {
    var bs := Flags(OfPerson(es, name), f);
    PersonFlagCount(es, name, f, true);
    PersonFlagCount(es, name, f, false);
    CountTrueFalse(bs);
    ValueCounts(bs)
  }

  datatype PersonSummary = PersonSummary(name: string, counts: seq<seq<ValueCount>>)

  /** One person's part of the section: one count table per checkbox, in the order the view shows them. */
  function PersonSection(es: seq<Entry>, name: string): (p: PersonSummary)
    ensures p.name == name && |p.counts| == |CheckboxFields|
    ensures forall k :: 0 <= k < |CheckboxFields| ==>
      p.counts[k] == ValueCounts(Flags(OfPerson(es, name), CheckboxFields[k]))
    ensures forall k :: 0 <= k < |CheckboxFields| ==> Total(p.counts[k]) == |OfPerson(es, name)|
    ensures forall k :: 0 <= k < |CheckboxFields| ==>
      YesNoTable(p.counts[k], FlagCountOf(es, CheckboxFields[k], name, true), FlagCountOf(es, CheckboxFields[k], name, false))
  {
    PersonSummary(name, seq(|CheckboxFields|, k requires 0 <= k < |CheckboxFields| =>
      PersonFieldCounts(es, name, CheckboxFields[k])))
  }

  /**
   * The per-person section: the people of the filtered entries in order of
   * first appearance, each with one count table per checkbox, whose counts
   * add up to that person's number of entries.
   */
  function PerPersonCounts(es: seq<Entry>): (r: seq<PersonSummary>)
    ensures |r| == |Unique(NamesOf(es))|
    ensures forall i :: 0 <= i < |r| ==> r[i].name == Unique(NamesOf(es))[i]
    ensures forall i :: 0 <= i < |r| ==> |OfPerson(es, r[i].name)| > 0
    ensures forall i :: 0 <= i < |r| ==> |r[i].counts| == |CheckboxFields|
    ensures forall i, k :: 0 <= i < |r| && 0 <= k < |CheckboxFields| ==>
      r[i].counts[k] == ValueCounts(Flags(OfPerson(es, r[i].name), CheckboxFields[k]))
    ensures forall i, k :: 0 <= i < |r| && 0 <= k < |CheckboxFields| ==>
      Total(r[i].counts[k]) == |OfPerson(es, r[i].name)|
    ensures forall i, k :: 0 <= i < |r| && 0 <= k < |CheckboxFields| ==>
      YesNoTable(r[i].counts[k],
        FlagCountOf(es, CheckboxFields[k], r[i].name, true), FlagCountOf(es, CheckboxFields[k], r[i].name, false))
  {
    var people := Unique(NamesOf(es));
    seq(|people|, i requires 0 <= i < |people| => PersonSection(es, people[i]))
  }

  // ---------------------------------------------------------------------
  // Overall "Yes" count by person
  // ---------------------------------------------------------------------

  datatype NameCount = NameCount(name: string, count: nat)

  /** The placeholder that stands in for an empty table. */
  const NoDataRow := NameCount("No Data", 1)

  /** The name column of a grouped table (a column projection, like `NamesOf`). */
  function RowNames(rows: seq<NameCount>): (ns: seq<string>)
    ensures |ns| == |rows|
    ensures forall i :: 0 <= i < |rows| ==> ns[i] == rows[i].name
  {
    seq(|rows|, i requires 0 <= i < |rows| => rows[i].name)
  }

  /** Names strictly increasing, hence each name at most once. */
  predicate Ascending(rows: seq<NameCount>)
  {
    forall i, j :: 0 <= i < j < |rows| ==> StrLess(rows[i].name, rows[j].name)
  }

  predicate AllPositive(rows: seq<NameCount>)
  {
    forall i :: 0 <= i < |rows| ==> rows[i].count > 0
  }

  /** The count of `name`, or 0 without a row for it. */
  function Lookup(rows: seq<NameCount>, name: string): nat
  {
    if rows == [] then 0
    else if rows[0].name == name then rows[0].count
    else Lookup(rows[1..], name)
  }

  function GroupTotal(rows: seq<NameCount>): nat
  {
    if rows == [] then 0 else rows[0].count + GroupTotal(rows[1..])
  }

  lemma PrependAscending(x: NameCount, rows: seq<NameCount>)
    requires Ascending(rows)
    requires forall j :: 0 <= j < |rows| ==> StrLess(x.name, rows[j].name)
    ensures Ascending([x] + rows)
  {
    var r := [x] + rows;
    forall i, j | 0 <= i < j < |r|
      ensures StrLess(r[i].name, r[j].name)
    {
      if i == 0 {
        assert r[j] == rows[j - 1];
      } else {
        assert r[i] == rows[i - 1] && r[j] == rows[j - 1];
      }
    }
  }

  /** A name without a row looks up as 0. */
  lemma {:induction false} LookupMissing(rows: seq<NameCount>, name: string)
    requires forall j :: 0 <= j < |rows| ==> rows[j].name != name
    ensures Lookup(rows, name) == 0
  {
    if rows != [] {
      LookupMissing(rows[1..], name);
    }
  }

  /** Every name of the table comes after `lo`. */
  predicate Above(lo: string, rows: seq<NameCount>)
  {
    forall j :: 0 <= j < |rows| ==> StrLess(lo, rows[j].name)
  }

  /**
   * `r` is the table `rows` with one more ticked entry for `name`: names
   * still ascending and counts positive, the count of `name` one higher and
   * every other count unchanged, the total one higher, and no name added
   * other than `name`, so every lower bound of both stays a lower bound.
   */
  ghost predicate IsBumped(rows: seq<NameCount>, name: string, r: seq<NameCount>)
  {
    && Ascending(r) && AllPositive(r)
    && (forall m :: Lookup(r, m) == Lookup(rows, m) + (if m == name then 1 else 0))
    && GroupTotal(r) == GroupTotal(rows) + 1
    && (forall lo :: Above(lo, rows) && StrLess(lo, name) ==> Above(lo, r))
  }

  /** A name before every name of the table gets a new first row with count 1. */
  lemma BumpNew(rows: seq<NameCount>, name: string)
    requires Ascending(rows) && AllPositive(rows)
    requires rows == [] || StrLess(name, rows[0].name)
    ensures IsBumped(rows, name, [NameCount(name, 1)] + rows)
  {
    forall j | 0 <= j < |rows|
      ensures StrLess(name, rows[j].name) && rows[j].name != name
    {
      if j > 0 {
        StrLessTransitive(name, rows[0].name, rows[j].name);
      }
      StrLessIrreflexive(rows[j].name);
    }
    LookupMissing(rows, name);
    PrependAscending(NameCount(name, 1), rows);
    assert ([NameCount(name, 1)] + rows)[1..] == rows;
  }

  /** A name that has the first row gets that row's count raised by one. */
  lemma BumpExisting(rows: seq<NameCount>, name: string)
    requires Ascending(rows) && AllPositive(rows)
    requires rows != [] && rows[0].name == name
    ensures IsBumped(rows, name, [NameCount(name, rows[0].count + 1)] + rows[1..])
  {
    var r := [NameCount(name, rows[0].count + 1)] + rows[1..];
    assert r[1..] == rows[1..];
    PrependAscending(r[0], rows[1..]);
  }

  /** A name after the first row's name is bumped in the rest of the table. */
  lemma BumpPast(rows: seq<NameCount>, name: string, rest: seq<NameCount>)
    requires Ascending(rows) && AllPositive(rows)
    requires rows != [] && rows[0].name != name && !StrLess(name, rows[0].name)
    requires IsBumped(rows[1..], name, rest)
    ensures IsBumped(rows, name, [rows[0]] + rest)
  {
    var r := [rows[0]] + rest;
    StrLessTotal(name, rows[0].name);
    assert Above(rows[0].name, rows[1..]);
    PrependAscending(rows[0], rest);
    assert r[1..] == rest;
    forall m
      ensures Lookup(r, m) == Lookup(rows, m) + (if m == name then 1 else 0)
    {
      assert Lookup(r, m) == if rows[0].name == m then rows[0].count else Lookup(rest, m);
    }
    forall lo | Above(lo, rows) && StrLess(lo, name)
      ensures Above(lo, r)
    {
      assert Above(lo, rows[1..]);
    }
  }

  /** Adds one to the count of `name`, adding its row in name order if it had none. */
  function Bump(rows: seq<NameCount>, name: string): (r: seq<NameCount>)
    requires Ascending(rows) && AllPositive(rows)
    ensures Ascending(r) && AllPositive(r)
    ensures forall m :: Lookup(r, m) == Lookup(rows, m) + (if m == name then 1 else 0)
    ensures GroupTotal(r) == GroupTotal(rows) + 1
    ensures forall lo :: Above(lo, rows) && StrLess(lo, name) ==> Above(lo, r)
  {
    if rows == [] || StrLess(name, rows[0].name) then
      BumpNew(rows, name);
      [NameCount(name, 1)] + rows
    else if rows[0].name == name then
      BumpExisting(rows, name);
      [NameCount(name, rows[0].count + 1)] + rows[1..]
    else
      var rest := Bump(rows[1..], name);
      BumpPast(rows, name, rest);
      [rows[0]] + rest
  }

  /** `df[df[f] == True].groupby("name").size()`, built one entry at a time. */
  function Tally(es: seq<Entry>, f: Field): (r: seq<NameCount>)
    ensures Ascending(r) && AllPositive(r)
    ensures forall m :: Lookup(r, m) == TrueCountOf(es, f, m)
    ensures GroupTotal(r) == TrueCount(es, f)
  {
    if es == [] then []
    else
      var rest := Tally(es[1..], f);
      assert Flags(es, f) == [Flag(es[0], f)] + Flags(es[1..], f);
      if Flag(es[0], f) then Bump(rest, es[0].name) else rest
  }

  /** In a table with distinct names, a row's count is what looking up its name gives. */
  lemma {:induction false} LookupAt(rows: seq<NameCount>, i: nat)
    requires Ascending(rows) && i < |rows|
    ensures Lookup(rows, rows[i].name) == rows[i].count
  {
    if i > 0 {
      StrLessIrreflexive(rows[0].name);
      assert rows[0].name != rows[i].name;
      LookupAt(rows[1..], i - 1);
    }
  }

  /** With positive counts, a name has a row exactly when its lookup is positive. */
  lemma {:induction false} LookupPositive(rows: seq<NameCount>, name: string)
    requires AllPositive(rows)
    ensures Lookup(rows, name) > 0 <==> name in RowNames(rows)
  {
    if rows != [] {
      LookupPositive(rows[1..], name);
      assert RowNames(rows) == [rows[0].name] + RowNames(rows[1..]);
    }
  }

  /**
   * The overall table for one checkbox before the placeholder: one row per
   * person with at least one ticked entry, ordered by name, each counting
   * that person's ticked entries; the counts add up to all ticked entries.
   */
  function GroupYes(es: seq<Entry>, f: Field): (r: seq<NameCount>)
    ensures Ascending(r)
    ensures forall i :: 0 <= i < |r| ==> r[i].count > 0 && r[i].count == TrueCountOf(es, f, r[i].name)
    ensures forall m :: m in RowNames(r) <==> TrueCountOf(es, f, m) > 0
    ensures GroupTotal(r) == TrueCount(es, f)
    ensures r == [] <==> TrueCount(es, f) == 0
  {
    var r := Tally(es, f);
    forall i | 0 <= i < |r|
      ensures r[i].count == TrueCountOf(es, f, r[i].name)
    {
      LookupAt(r, i);
    }
    forall m
      ensures m in RowNames(r) <==> TrueCountOf(es, f, m) > 0
    {
      LookupPositive(r, m);
    }
    r
  }

  /**
   * The overall table shown for one checkbox: the grouped counts when some
   * entry has the box ticked, otherwise exactly the row ("No Data", 1).
   */
  function OverallYes(es: seq<Entry>, f: Field): (r: seq<NameCount>)
    ensures TrueCount(es, f) == 0 ==> r == [NoDataRow]
    ensures TrueCount(es, f) > 0 ==> r == GroupYes(es, f) && GroupTotal(r) == TrueCount(es, f)
  {
    var g := GroupYes(es, f);
    if g == [] then [NoDataRow] else g
  }

  // ---------------------------------------------------------------------
  // The analytics view
  // ---------------------------------------------------------------------

  datatype Report = Report(perPerson: seq<PersonSummary>, overall: seq<seq<NameCount>>)

  /**
   * The analytics view over the stored entries and a date range: nothing
   * when no entry falls in the range (the view stops with a warning),
   * otherwise the per-person section and one overall table per checkbox,
   * all computed from the entries in range.
   */
  function Analyze(es: seq<Entry>, lo: Day, hi: Day): (r: Option<Report>)
    ensures r.None? <==> forall i :: 0 <= i < |es| ==> !InRange(es[i], lo, hi)
    ensures r.Some? ==> r.value.perPerson == PerPersonCounts(FilterByDate(es, lo, hi))
    ensures r.Some? ==> |r.value.overall| == |CheckboxFields|
    ensures r.Some? ==> forall k :: 0 <= k < |CheckboxFields| ==>
      r.value.overall[k] == OverallYes(FilterByDate(es, lo, hi), CheckboxFields[k])
  {
    var kept := FilterByDate(es, lo, hi);
    if kept == [] then
      assert forall i :: 0 <= i < |es| ==> es[i] !in kept;
      None
    else
      Some(Report(
        PerPersonCounts(kept),
        seq(|CheckboxFields|, k requires 0 <= k < |CheckboxFields| => OverallYes(kept, CheckboxFields[k]))))
  }

  /**
   * A small worked case: Venus on day 1 with "started" ticked, Jupiter on
   * day 2 without. Filtering on day 1 alone keeps only Venus, whose
   * "started" table is the single row ("Yes", 1), with no "No" row.
   */
  lemma TwoPersonExample()
    ensures var venus := Entry("Venus", 1, "8:00 AM", true, false, false, "");
      var jupiter := Entry("Jupiter", 2, "9:00 AM", false, false, false, "");
      && FilterByDate([venus, jupiter], 1, 1) == [venus]
      && ValueCounts(Flags(OfPerson([venus], "Venus"), Started)) == [ValueCount("Yes", 1)]
  {
    var venus := Entry("Venus", 1, "8:00 AM", true, false, false, "");
    var jupiter := Entry("Jupiter", 2, "9:00 AM", false, false, false, "");
    assert [venus, jupiter][1..] == [jupiter] && [jupiter][1..] == [];
    assert FilterByDate([venus, jupiter], 1, 1) == [venus] + [] + [];
    assert [venus][1..] == [];
    assert OfPerson([venus], "Venus") == [venus] + [];
    var bs := Flags([venus], Started);
    assert bs == [true] && bs[1..] == [];
    assert Count(bs, true) == 1 && Count(bs, false) == 0;
  }
}
