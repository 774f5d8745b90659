/** The rows of the two tables and the read-only queries over them: the
    per-category totals of `calc_costs` and `calc_costs_between`, and the monthly
    limit rule of `check_limit`. */
module Aggregate {
  import opened Dates

  /** A row of `costs`. */
  datatype Entry = Entry(id: nat, date: Date, group: string, amount: real)

  /** A row of `costs_limits`; its date is the first day of the month it limits. */
  datatype LimitRow = LimitRow(date: Date, group: string, limit: real)

  /** The WHERE clauses of the three aggregate queries. */
  datatype Where =
    | OnDate(day: Date)                       // col_date == :date
    | Between(first: Date, last: Date)        // col_date BETWEEN :first AND :last
    | InMonth(month: Date, category: string)  // TRUNC(col_date) == TRUNC(:date) AND col_group == :group

  predicate Selects(w: Where, e: Entry) {
    match w
    case OnDate(d) => e.date == d
    case Between(a, b) => Le(a, e.date) && Le(e.date, b)
    case InMonth(m, g) => SameMonth(e.date, m) && e.group == g
  }

  /** The sum of the amounts of the selected rows of category `g`, the reference
      meaning of `SUM(col_summ)` for one group. */
  function SumWhere(rows: seq<Entry>, w: Where, g: string): (total: real)
    ensures (forall i :: 0 <= i < |rows| ==> !(Selects(w, rows[i]) && rows[i].group == g)) ==> total == 0.0
    ensures (forall i :: 0 <= i < |rows| ==> rows[i].amount >= 0.0) ==> total >= 0.0
    decreases |rows|
  {
    if rows == [] then 0.0
    else
      var init := rows[..|rows| - 1];
      var e := rows[|rows| - 1];
      assert forall i :: 0 <= i < |init| ==> init[i] == rows[i];
      SumWhere(init, w, g) + (if Selects(w, e) && e.group == g then e.amount else 0.0)
  }

  /** `SELECT col_group, SUM(col_summ) ... WHERE w GROUP BY col_group`, folded over the
      rows in storage order; the map holds one entry per result row. */
  function GroupBy(rows: seq<Entry>, w: Where): (totals: map<string, real>)
    ensures forall g :: g in totals <==> exists i :: 0 <= i < |rows| && Selects(w, rows[i]) && rows[i].group == g
    ensures forall g :: g in totals ==> totals[g] == SumWhere(rows, w, g)
    decreases |rows|
  {
    if rows == [] then map[]
    else
      var init := rows[..|rows| - 1];
      var e := rows[|rows| - 1];
      var acc := GroupBy(init, w);
      assert forall i :: 0 <= i < |init| ==> init[i] == rows[i];
      if Selects(w, e) then
        var prior := if e.group in acc then acc[e.group] else 0.0;
        assert prior == SumWhere(init, w, e.group);
        acc[e.group := prior + e.amount]
      else acc
  }

  /** `calc_costs` for a normalized date: a category appears exactly when it has an
      entry dated exactly `day`, and its total is the sum of that category's amounts
      on `day`. */
  function DailyTotals(entries: seq<Entry>, day: Date): (totals: map<string, real>)
    ensures forall g :: g in totals <==> exists e :: e in entries && e.date == day && e.group == g
    ensures forall g :: g in totals ==> totals[g] == SumWhere(entries, OnDate(day), g)
  {
    var totals := GroupBy(entries, OnDate(day));
    assert forall g :: g in totals <==> exists e :: e in entries && e.date == day && e.group == g by {
      forall g | exists e :: e in entries && e.date == day && e.group == g
        ensures g in totals
      {
        var e :| e in entries && e.date == day && e.group == g;
        var i :| 0 <= i < |entries| && entries[i] == e;
        assert Selects(OnDate(day), entries[i]);
      }
    }
    totals
  }

  /** `calc_costs_between` for normalized bounds: both bounds are inclusive, each
      category's total is the sum over the entries dated within the closed range, and
      bounds in the wrong order select nothing. */
  function RangeTotals(entries: seq<Entry>, first: Date, last: Date): (totals: map<string, real>)
    ensures forall g :: g in totals <==> exists e :: e in entries && Le(first, e.date) && Le(e.date, last) && e.group == g
    ensures forall g :: g in totals ==> totals[g] == SumWhere(entries, Between(first, last), g)
    ensures !Le(first, last) ==> totals == map[]
  {
    var totals := GroupBy(entries, Between(first, last));
    assert forall g :: g in totals <==> exists e :: e in entries && Le(first, e.date) && Le(e.date, last) && e.group == g by {
      forall g | exists e :: e in entries && Le(first, e.date) && Le(e.date, last) && e.group == g
        ensures g in totals
      {
        var e :| e in entries && Le(first, e.date) && Le(e.date, last) && e.group == g;
        var i :| 0 <= i < |entries| && entries[i] == e;
        assert Selects(Between(first, last), entries[i]);
      }
    }
    totals
  }

  /** Over entries with real dates, the range from the first to the last day of a
      month sums a category exactly as the monthly query does. */
  lemma {:induction false} WholeMonthRange(entries: seq<Entry>, m: Date, g: string)
    requires forall i :: 0 <= i < |entries| ==> ValidDate(entries[i].date)
    ensures SumWhere(entries, Between(FirstOfMonth(m), LastOfMonth(m)), g) == SumWhere(entries, InMonth(m, g), g)
    decreases |entries|
  {
    if entries != [] {
      var init := entries[..|entries| - 1];
      assert forall i :: 0 <= i < |init| ==> init[i] == entries[i];
      WholeMonthRange(init, m, g);
      MonthIsClosedRange(m, entries[|entries| - 1].date);
    }
  }

  // ---------------------------------------------------------------------------
  // check_limit

  /** What `check_limit` reports: nothing, or that a month's category total went
      over the limit carried in the warning. */
  datatype LimitCheck = NoWarning | Overage(limit: real)

  /** `SELECT col_limit FROM costs_limits WHERE col_date = :first AND col_group = :group`,
      in insertion order. */
  function LimitsFor(limits: seq<LimitRow>, first: Date, group: string): (r: seq<real>)
    ensures |r| <= |limits|
    ensures forall v :: v in r <==>
      exists j :: 0 <= j < |limits| && limits[j].date == first && limits[j].group == group && limits[j].limit == v
    decreases |limits|
  {
    if limits == [] then []
    else
      var init := limits[..|limits| - 1];
      var l := limits[|limits| - 1];
      assert forall j :: 0 <= j < |init| ==> init[j] == limits[j];
      LimitsFor(init, first, group) + (if l.date == first && l.group == group then [l.limit] else [])
  }

  /** The limit in force: the most recently inserted one for that month and category. */
  predicate IsLatestLimit(limits: seq<LimitRow>, first: Date, group: string, value: real) {
    exists j :: 0 <= j < |limits| && limits[j].date == first && limits[j].group == group && limits[j].limit == value &&
      forall k :: j < k < |limits| ==> !(limits[k].date == first && limits[k].group == group)
  }

  lemma {:induction false} LimitsForLast(limits: seq<LimitRow>, first: Date, group: string)
    ensures LimitsFor(limits, first, group) == [] <==>
      forall j :: 0 <= j < |limits| ==> !(limits[j].date == first && limits[j].group == group)
    ensures LimitsFor(limits, first, group) != [] ==>
      IsLatestLimit(limits, first, group, LimitsFor(limits, first, group)[|LimitsFor(limits, first, group)| - 1])
    decreases |limits|
  {
    if limits != [] {
      var init := limits[..|limits| - 1];
      assert forall i :: 0 <= i < |init| ==> init[i] == limits[i];
      LimitsForLast(init, first, group);
      var l := limits[|limits| - 1];
      if !(l.date == first && l.group == group) && LimitsFor(init, first, group) != [] {
        var r := LimitsFor(init, first, group);
        var j :| 0 <= j < |init| && init[j].date == first && init[j].group == group && init[j].limit == r[|r| - 1] &&
          forall k :: j < k < |init| ==> !(init[k].date == first && init[k].group == group);
        assert limits[j] == init[j];
      }
    }
  }

  /** `check_limit(month, group)`: the month's total for the category (no row when the
      category has no entry that month) against the limit stored for the first day of
      that month (none when no limit is set). Either missing row suppresses the
      warning; otherwise it warns when the total is strictly above the limit. */
  function LimitStatus(entries: seq<Entry>, limits: seq<LimitRow>, month: Date, group: string): (c: LimitCheck)
    ensures c.Overage? ==>
      (exists j :: 0 <= j < |limits| && limits[j].date == FirstOfMonth(month) && limits[j].group == group &&
         limits[j].limit == c.limit) &&
      SumWhere(entries, InMonth(month, group), group) > c.limit
  {
    var sums := GroupBy(entries, InMonth(month, group));
    var caps := LimitsFor(limits, FirstOfMonth(month), group);
    if group !in sums || caps == [] then NoWarning
    else
      var cap := caps[|caps| - 1];
      assert cap in caps;
      if sums[group] > cap then Overage(cap) else NoWarning
  }

  /** The monthly sum query has a row exactly when the category has an entry that month. */
  lemma MonthHasRow(entries: seq<Entry>, month: Date, group: string)
    ensures group in GroupBy(entries, InMonth(month, group)) <==>
      exists e :: e in entries && SameMonth(e.date, month) && e.group == group
  {
    if exists e :: e in entries && SameMonth(e.date, month) && e.group == group {
      var e :| e in entries && SameMonth(e.date, month) && e.group == group;
      var i :| 0 <= i < |entries| && entries[i] == e;
      assert Selects(InMonth(month, group), entries[i]);
    }
  }

  /** The limit in force is unique, and it is the last value the lookup returns. */
  lemma LatestLimitIsLast(limits: seq<LimitRow>, first: Date, group: string, l: real)
    ensures var caps := LimitsFor(limits, first, group);
      IsLatestLimit(limits, first, group, l) <==> caps != [] && caps[|caps| - 1] == l
  {
    LimitsForLast(limits, first, group);
    var caps := LimitsFor(limits, first, group);
    if IsLatestLimit(limits, first, group, l) {
      var j :| 0 <= j < |limits| && limits[j].date == first && limits[j].group == group && limits[j].limit == l &&
        forall k :: j < k < |limits| ==> !(limits[k].date == first && limits[k].group == group);
      assert caps != [];
      var j' :| 0 <= j' < |limits| && limits[j'].date == first && limits[j'].group == group && limits[j'].limit == caps[|caps| - 1] &&
        forall k :: j' < k < |limits| ==> !(limits[k].date == first && limits[k].group == group);
      assert j == j';
    }
  }

  /** `check_limit` warns, citing limit `l`, exactly when the category has an entry in
      that calendar month, `l` is the limit in force for that month and category, and
      the month's total is strictly greater than `l`. */
  lemma LimitStatusSpec(entries: seq<Entry>, limits: seq<LimitRow>, month: Date, group: string, l: real)
    ensures LimitStatus(entries, limits, month, group) == Overage(l) <==>
      (exists e :: e in entries && SameMonth(e.date, month) && e.group == group) &&
      IsLatestLimit(limits, FirstOfMonth(month), group, l) &&
      SumWhere(entries, InMonth(month, group), group) > l
  {
    MonthHasRow(entries, month, group);
    LatestLimitIsLast(limits, FirstOfMonth(month), group, l);
  }

  /** No entry in the month, or no limit for it: never a warning. */
  lemma LimitStatusQuiet(entries: seq<Entry>, limits: seq<LimitRow>, month: Date, group: string)
    requires (forall e :: e in entries ==> !(SameMonth(e.date, month) && e.group == group)) ||
             (forall j :: 0 <= j < |limits| ==> !(limits[j].date == FirstOfMonth(month) && limits[j].group == group))
    ensures LimitStatus(entries, limits, month, group) == NoWarning
  {
    LimitsForLast(limits, FirstOfMonth(month), group);
  }

  // ---------------------------------------------------------------------------
  // check_limit as written: the total and the limits merged by a set union, then
  // compared by position

  /** A possible result of `query.union(query2)`: the month's total and every matching
      limit, duplicates removed, in whatever order the database returns them. */
  predicate IsUnionResult(rows: seq<real>, total: real, caps: seq<real>) {
    (forall i, j :: 0 <= i < j < |rows| ==> rows[i] != rows[j]) &&
    (forall i :: 0 <= i < |rows| ==> rows[i] == total || rows[i] in caps) &&
    total in rows && (forall k :: 0 <= k < |caps| ==> caps[k] in rows)
  }

  /** The comparison `check_limit` performs on the union's rows: no warning when the
      category has no entry that month (the total row is missing), when the first
      value is zero, or when there is no second row (the errors these raise are
      swallowed); otherwise a warning citing the first value whenever the second is
      larger. */
  function PositionalStatus(entries: seq<Entry>, month: Date, group: string, rows: seq<real>): LimitCheck
  {
    var sums := GroupBy(entries, InMonth(month, group));
    if group !in sums then NoWarning
    else if |rows| == 0 || rows[0] == 0.0 then NoWarning
    else if |rows| < 2 then NoWarning
    else if rows[1] > rows[0] then Overage(rows[0])
    else NoWarning
  }

  /** The positional comparison against the limit rule, for a category with entries in
      the month and exactly one matching limit `l` different from the month's total
      (so that the union has two rows). With the limit row first and `l` non-zero it
      gives exactly what the limit rule gives. With the total first it warns exactly
      when the total is non-zero and below the limit, citing the total, and so never
      when the total is over the limit. */
  lemma PositionalStatusByOrder(entries: seq<Entry>, limits: seq<LimitRow>, month: Date, group: string, l: real)
    requires group in GroupBy(entries, InMonth(month, group))
    requires LimitsFor(limits, FirstOfMonth(month), group) == [l]
    requires GroupBy(entries, InMonth(month, group))[group] != l
    ensures var total := GroupBy(entries, InMonth(month, group))[group];
      IsUnionResult([l, total], total, [l]) && IsUnionResult([total, l], total, [l]) &&
      (l != 0.0 ==> PositionalStatus(entries, month, group, [l, total]) == LimitStatus(entries, limits, month, group)) &&
      PositionalStatus(entries, month, group, [total, l]) ==
        (if total != 0.0 && l > total then Overage(total) else NoWarning) &&
      (total > l ==> PositionalStatus(entries, month, group, [total, l]) == NoWarning &&
                     LimitStatus(entries, limits, month, group) == Overage(l))
  {
  }

  /** The same category and month with no entry: both the positional comparison and the
      limit rule stay silent, whatever the union returns. */
  lemma PositionalStatusNoEntries(entries: seq<Entry>, limits: seq<LimitRow>, month: Date, group: string, rows: seq<real>)
    requires group !in GroupBy(entries, InMonth(month, group))
    ensures PositionalStatus(entries, month, group, rows) == NoWarning == LimitStatus(entries, limits, month, group)
  {
  }

  /** The positional comparison follows the limit rule only when the database happens
      to return the limit before the total. One March entry of 80 under a limit of 100
      must not warn, and one of 150 must warn citing 100; with the union's rows in
      ascending order (what a sort-based duplicate elimination yields) the first case
      warns, citing 80, and with the total first the second case stays silent. */
  lemma PositionalStatusMisreports(rows80: seq<real>, rows150: seq<real>)
    requires IsUnionResult(rows80, 80.0, [100.0]) && IsUnionResult(rows150, 150.0, [100.0])
    ensures var m := Date(1, 3, 2024);
      var limits := [LimitRow(m, "food", 100.0)];
      var under := [Entry(1, Date(5, 3, 2024), "food", 80.0)];
      var over := [Entry(1, Date(5, 3, 2024), "food", 150.0)];
      LimitStatus(under, limits, m, "food") == NoWarning &&
      LimitStatus(over, limits, m, "food") == Overage(100.0) &&
      (PositionalStatus(under, m, "food", rows80) == NoWarning &&
       PositionalStatus(over, m, "food", rows150) == Overage(100.0)
       <==> rows80[0] == 100.0 && rows150[0] == 100.0)
  {
    var m := Date(1, 3, 2024);
    var limits := [LimitRow(m, "food", 100.0)];
    var under := [Entry(1, Date(5, 3, 2024), "food", 80.0)];
    var over := [Entry(1, Date(5, 3, 2024), "food", 150.0)];
    assert limits[..0] == [];
    assert under[..0] == [] && over[..0] == [];
    assert LimitsFor(limits, m, "food") == [100.0];
    assert Selects(InMonth(m, "food"), under[0]) && Selects(InMonth(m, "food"), over[0]);
    assert GroupBy(under, InMonth(m, "food")) == map["food" := 80.0];
    assert GroupBy(over, InMonth(m, "food")) == map["food" := 150.0];
    UnionOfTwo(rows80, 80.0, 100.0);
    UnionOfTwo(rows150, 150.0, 100.0);
    assert PositionalStatus(under, m, "food", rows80) ==
      (if rows80[0] == 80.0 then Overage(80.0) else NoWarning);
    assert PositionalStatus(over, m, "food", rows150) ==
      (if rows150[0] == 150.0 then NoWarning else Overage(100.0));
  }

  /** A union of a total and one different limit starts with those two values, in
      one order or the other. */
  lemma UnionOfTwo(rows: seq<real>, a: real, b: real)
    requires a != b && IsUnionResult(rows, a, [b])
    ensures |rows| >= 2
    ensures (rows[0] == a && rows[1] == b) || (rows[0] == b && rows[1] == a)
  {
    assert [b][0] in rows;
    assert forall k :: 0 <= k < |rows| ==> rows[k] == a || rows[k] == b;
    var i :| 0 <= i < |rows| && rows[i] == a;
    var j :| 0 <= j < |rows| && rows[j] == b;
    assert i != j;
  }
}
