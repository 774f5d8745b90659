/** The ledger store: class `DataBase` with its two tables, the batch insert of
    expense entries (normalize all, then insert in one transaction, then check the
    limit once per inserted row), the undo of the latest entry, the insertion of a
    monthly limit, and the three read-only queries. */
module Ledger {
  import opened Dates
  import opened Text
  import opened Normalize
  import opened Aggregate

  /** One caller tuple `[date text, category text, amount]`. */
  datatype RawEntry = RawEntry(dateText: string, groupText: string, amount: real)

  /** One normalized tuple, the dict handed to `insert_data`. */
  datatype Row = Row(date: Date, group: string, amount: real)

  /** The comprehension body of `insert_tbl_costs`: the date first, then the category. */
  function NormalizeEntry(raw: RawEntry): (r: Result<Row>)
    ensures r.Success? <==> CheckDate(raw.dateText).Success? && CheckGroup(raw.groupText).Success?
    ensures r.Success? ==>
      CheckDate(raw.dateText) == Success(r.value.date) && ValidDate(r.value.date) &&
      CheckGroup(raw.groupText) == Success(r.value.group) && IsLowerWord(r.value.group) &&
      r.value.amount == raw.amount
    ensures r.Failure? ==>
      r.error == (if CheckDate(raw.dateText).Failure? then CheckDate(raw.dateText).error else NoWord)
  {
    var date :- CheckDate(raw.dateText);
    var group :- CheckGroup(raw.groupText);
    Success(Row(date, group, raw.amount))
  }

  /** Gathers per-item results in order; the first failure, if any, is the outcome. */
  function Collect<T>(rs: seq<Result<T>>): (r: Result<seq<T>>)
    ensures r.Success? ==> (|r.value| == |rs| && forall i :: 0 <= i < |rs| ==> rs[i] == Success(r.value[i]))
    ensures r.Failure? ==> exists i ::
      0 <= i < |rs| && rs[i] == Failure(r.error) &&
      (forall j :: 0 <= j < i ==> rs[j].Success?)
    decreases |rs|
  {
    if rs == [] then Success([])
    else if rs[0].Failure? then Failure(rs[0].error)
    else
      var tail := rs[1..];
      var rest := Collect(tail);
      if rest.Failure? then
        assert exists i ::
          0 <= i < |rs| && rs[i] == Failure(rest.error) &&
          (forall j :: 0 <= j < i ==> rs[j].Success?) by {
          var k :| 0 <= k < |tail| && tail[k] == Failure(rest.error) && (forall j :: 0 <= j < k ==> tail[j].Success?);
          assert rs[k + 1] == tail[k];
          assert forall j :: 1 <= j < k + 1 ==> rs[j] == tail[j - 1];
        }
        Failure(rest.error)
      else
        var r := [rs[0].value] + rest.value;
        assert forall i :: 1 <= i < |rs| ==> rs[i] == tail[i - 1] && r[i] == rest.value[i - 1];
        Success(r)
  }

  /** The whole comprehension of `insert_tbl_costs`: every tuple is normalized, in
      order, before anything is inserted; the first failing tuple's error escapes. */
  function NormalizeBatch(batch: seq<RawEntry>): (r: Result<seq<Row>>)
    ensures r.Success? ==> (|r.value| == |batch| &&
      forall i :: 0 <= i < |batch| ==> NormalizeEntry(batch[i]) == Success(r.value[i]))
    ensures r.Failure? ==> exists i ::
      0 <= i < |batch| && NormalizeEntry(batch[i]) == Failure(r.error) &&
      (forall j :: 0 <= j < i ==> NormalizeEntry(batch[j]).Success?)
  {
    var rs := seq(|batch|, i requires 0 <= i < |batch| => NormalizeEntry(batch[i]));
    var r := Collect(rs);
    assert r.Failure? ==> exists i ::
      0 <= i < |batch| && NormalizeEntry(batch[i]) == Failure(r.error) &&
      (forall j :: 0 <= j < i ==> NormalizeEntry(batch[j]).Success?) by {
      if r.Failure? {
        var k :| 0 <= k < |rs| && rs[k] == Failure(r.error) && (forall j :: 0 <= j < k ==> rs[j].Success?);
        assert NormalizeEntry(batch[k]) == Failure(r.error);
        assert forall j :: 0 <= j < k ==> NormalizeEntry(batch[j]) == rs[j];
      }
    }
    r
  }

  /** The batch is accepted exactly when every tuple normalizes. */
  lemma NormalizeBatchAllOrNothing(batch: seq<RawEntry>)
    ensures NormalizeBatch(batch).Success? <==> forall i :: 0 <= i < |batch| ==> NormalizeEntry(batch[i]).Success?
  {
  }

  /** The rows as stored: identity values handed out consecutively from `firstId`. */
  function Stamp(rows: seq<Row>, firstId: nat): (r: seq<Entry>)
    ensures |r| == |rows|
    ensures forall i :: 0 <= i < |rows| ==>
      r[i] == Entry(firstId + i, rows[i].date, rows[i].group, rows[i].amount)
    decreases |rows|
  {
    if rows == [] then []
    else [Entry(firstId, rows[0].date, rows[0].group, rows[0].amount)] + Stamp(rows[1..], firstId + 1)
  }

  /** Identity values increase strictly with storage order. */
  predicate IdsIncreasing(entries: seq<Entry>) {
    forall i, j :: 0 <= i < j < |entries| ==> entries[i].id < entries[j].id
  }

  /** The largest identity value in the table (SQL `MAX(id)`). */
  function MaxId(entries: seq<Entry>): (m: nat)
    requires entries != []
    ensures exists i :: 0 <= i < |entries| && entries[i].id == m
    ensures forall i :: 0 <= i < |entries| ==> entries[i].id <= m
    decreases |entries|
  {
    if |entries| == 1 then entries[0].id
    else
      var rest := MaxId(entries[1..]);
      assert forall i :: 1 <= i < |entries| ==> entries[i] == entries[1..][i - 1];
      if entries[0].id >= rest then entries[0].id else rest
  }

  /** `DELETE FROM costs WHERE id = :id`: every other row kept, in order. */
  function WithoutId(entries: seq<Entry>, id: nat): (r: seq<Entry>)
    ensures forall e :: e in r <==> e in entries && e.id != id
    decreases |entries|
  {
    if entries == [] then []
    else if entries[0].id == id then WithoutId(entries[1..], id)
    else [entries[0]] + WithoutId(entries[1..], id)
  }

  /** Deleting by the last row's identity, when no earlier row carries it, drops
      exactly the last row. */
  lemma {:induction false} WithoutLastId(entries: seq<Entry>)
    requires entries != []
    requires forall i :: 0 <= i < |entries| - 1 ==> entries[i].id != entries[|entries| - 1].id
    ensures WithoutId(entries, entries[|entries| - 1].id) == entries[..|entries| - 1]
    decreases |entries|
  {
    if |entries| > 1 {
      var tail := entries[1..];
      assert forall i :: 0 <= i < |tail| ==> tail[i] == entries[i + 1];
      WithoutLastId(tail);
      assert entries[..|entries| - 1] == [entries[0]] + tail[..|tail| - 1];
    }
  }

  /** With increasing identities, the row with the largest one is the last, and
      deleting by that identity drops exactly the last row. */
  lemma DeleteMaxIsDropLast(entries: seq<Entry>)
    requires entries != [] && IdsIncreasing(entries)
    ensures MaxId(entries) == entries[|entries| - 1].id
    ensures WithoutId(entries, MaxId(entries)) == entries[..|entries| - 1]
  {
    var n := |entries|;
    var i :| 0 <= i < n && entries[i].id == MaxId(entries);
    assert entries[n - 1].id <= MaxId(entries);
    assert forall k :: 0 <= k < n - 1 ==> entries[k].id < entries[n - 1].id;
    WithoutLastId(entries);
  }

  /** Appending freshly stamped rows keeps identities increasing and below the next
      identity value, and keeps every date valid. */
  lemma AppendStamped(entries: seq<Entry>, rows: seq<Row>, nextId: nat)
    requires IdsIncreasing(entries)
    requires forall i :: 0 <= i < |entries| ==> 1 <= entries[i].id < nextId && ValidDate(entries[i].date)
    requires nextId >= 1
    requires forall i :: 0 <= i < |rows| ==> ValidDate(rows[i].date)
    ensures IdsIncreasing(entries + Stamp(rows, nextId))
    ensures forall i :: 0 <= i < |entries + Stamp(rows, nextId)| ==>
      1 <= (entries + Stamp(rows, nextId))[i].id < nextId + |rows| && ValidDate((entries + Stamp(rows, nextId))[i].date)
  {
    var all := entries + Stamp(rows, nextId);
    forall i, j | 0 <= i < j < |all| ensures all[i].id < all[j].id {
      if j >= |entries| && i < |entries| {
        assert entries[i].id < nextId;
      }
    }
  }

  /** What an insert into `costs` leaves behind: whether the transaction committed,
      and the result of the limit check run for each row of the batch. */
  datatype InsertReport = InsertReport(committed: bool, checks: seq<LimitCheck>)

  /** The limit row `set_limit` inserts, after normalizing the month and the category. */
  function NormalizeLimit(monthYear: string, groupText: string, limit: real): (r: Result<LimitRow>)
    ensures r.Success? <==> ParseMonthYear(monthYear).Success? && CheckGroup(groupText).Success?
    ensures r.Success? ==>
      ParseMonthYear(monthYear) == Success(r.value.date) && r.value.date.day == 1 && ValidDate(r.value.date) &&
      CheckGroup(groupText) == Success(r.value.group) && IsLowerWord(r.value.group) &&
      r.value.limit == limit
    ensures r.Failure? ==>
      r.error == (if ParseMonthYear(monthYear).Failure? then ParseMonthYear(monthYear).error else NoWord)
  {
    var first :- ParseMonthYear(monthYear);
    var group :- CheckGroup(groupText);
    Success(LimitRow(first, group, limit))
  }

  /** The month-year tokens of `март 2024`. */
  lemma MarchTokens()
    ensures Runs("март 2024", MonthYear) == ["март", "2024"]
  {
    var parts := ["март", "2024"];
    assert Join(parts, ' ') == "март 2024";
    RunsOfJoin(parts, ' ', MonthYear);
  }

  /** `2024` is a four-digit year field worth 2024. */
  lemma YearToken()
    ensures YearField("2024") && Val("2024") == 2024
  {
    assert "2024" == "202" + ['4'] && "202" == "20" + ['2'] && "20" == "2" + ['0'] && "2" == "" + ['2'];
    ValAppend("", '2');
    ValAppend("2", '0');
    ValAppend("20", '2');
    ValAppend("202", '4');
  }

  /** `март 2024` names 1 March 2024. */
  lemma MarchIsParsed()
    ensures ParseMonthYear("март 2024") == Success(Date(1, 3, 2024))
  {
    MarchTokens();
    YearToken();
    assert LowerStr("март") == "март";
    assert Months["март"] == 3;
    ParseMonthYearSpec("март 2024");
  }

  /** `food` is a lower-case word, so it is its own normal form. */
  lemma FoodIsNormal()
    ensures CheckGroup("food") == Success("food")
  {
    assert LowerStr("food") == "food";
    CheckGroupFixesLowerWord("food");
  }

  /** A limit of 100 for food in March 2024, given as `март 2024`: the row stored is
      dated 1 March 2024 and carries the category `food`. */
  lemma MarchLimitRow()
    ensures NormalizeLimit("март 2024", "food", 100.0) == Success(LimitRow(Date(1, 3, 2024), "food", 100.0))
  {
    MarchIsParsed();
    FoodIsNormal();
  }

  /** The expense ledger. `storageOk` arguments stand for the outcome of the storage
      engine's own work on a statement (an integrity or connectivity error makes it
      false), which is outside this model. */
  class DataBase {
    /** The `costs` table, in storage order. */
    var costs: seq<Entry>
    /** The `costs_limits` table, in storage order. */
    var costsLimits: seq<LimitRow>
    /** The next value of the `id` identity column. */
    var nextId: nat

    ghost predicate Valid()
      reads this
    {
      nextId >= 1 &&
      IdsIncreasing(costs) &&
      (forall i :: 0 <= i < |costs| ==> 1 <= costs[i].id < nextId && ValidDate(costs[i].date)) &&
      (forall i, j :: 0 <= i < j < |costsLimits| ==> costsLimits[i] != costsLimits[j])
    }

    /** Freshly created tables; the identity starts at 1. */
    constructor ()
      ensures Valid()
      ensures costs == [] && costsLimits == [] && nextId == 1
    {
      costs := [];
      costsLimits := [];
      nextId := 1;
    }

    /** `check_limit`: read-only. */
    method CheckLimit(month: Date, group: string) returns (c: LimitCheck)
      ensures c == LimitStatus(costs, costsLimits, month, group)
    {
      c := LimitStatus(costs, costsLimits, month, group);
    }

    /** The loop at the end of `insert_data`: `check_limit` for each row, in order,
        against the tables as they stand. */
    method CheckRows(rows: seq<Row>) returns (checks: seq<LimitCheck>)
      ensures |checks| == |rows|
      ensures forall i :: 0 <= i < |rows| ==> checks[i] == LimitStatus(costs, costsLimits, rows[i].date, rows[i].group)
    {
      checks := [];
      var k := 0;
      while k < |rows|
        invariant 0 <= k <= |rows|
        invariant |checks| == k
        invariant forall i :: 0 <= i < k ==> checks[i] == LimitStatus(costs, costsLimits, rows[i].date, rows[i].group)
      {
        var c := CheckLimit(rows[k].date, rows[k].group);
        checks := checks + [c];
        k := k + 1;
      }
    }

    /** `insert_data('costs', rows)`: one transaction that appends every row with fresh
        identities or, when the storage fails, is rolled back and changes nothing.
        Afterwards the limit is checked once per row when `chkLmt` is set; as written,
        this happens whether or not the transaction committed. */
    method InsertCosts(rows: seq<Row>, chkLmt: bool, storageOk: bool) returns (report: InsertReport)
      requires Valid()
      requires forall i :: 0 <= i < |rows| ==> ValidDate(rows[i].date)
      modifies this
      ensures Valid()
      ensures costsLimits == old(costsLimits)
      ensures report.committed == storageOk
      ensures storageOk ==> costs == old(costs) + Stamp(rows, old(nextId)) && nextId == old(nextId) + |rows|
      ensures !storageOk ==> costs == old(costs) && nextId == old(nextId)
      ensures |report.checks| == (if chkLmt then |rows| else 0)
      ensures forall i :: 0 <= i < |report.checks| ==>
        report.checks[i] == LimitStatus(costs, costsLimits, rows[i].date, rows[i].group)
    {
      if storageOk {
        AppendStamped(costs, rows, nextId);
        costs := costs + Stamp(rows, nextId);
        nextId := nextId + |rows|;
      }
      var checks: seq<LimitCheck> := [];
      if chkLmt {
        checks := CheckRows(rows);
      }
      report := InsertReport(storageOk, checks);
    }

    /** `insert_tbl_costs` with a list of tuples: an empty list fails on `value[0]`;
        otherwise the whole batch is normalized first, so one malformed tuple inserts
        nothing; then `InsertCosts` with the limit check on. */
    method InsertTblCosts(batch: seq<RawEntry>, storageOk: bool) returns (r: Result<InsertReport>)
      requires Valid()
      modifies this
      ensures Valid()
      ensures costsLimits == old(costsLimits)
      ensures batch == [] ==> r == Failure(EmptyBatch)
      ensures batch != [] && NormalizeBatch(batch).Failure? ==> r == Failure(NormalizeBatch(batch).error)
      ensures r.Failure? || !storageOk ==> costs == old(costs) && nextId == old(nextId)
      ensures r.Success? <==> batch != [] && NormalizeBatch(batch).Success?
      ensures r.Success? ==>
        var rows := NormalizeBatch(batch).value;
        r.value.committed == storageOk &&
        (storageOk ==> costs == old(costs) + Stamp(rows, old(nextId)) && nextId == old(nextId) + |batch|) &&
        |r.value.checks| == |batch| &&
        forall i :: 0 <= i < |batch| ==> r.value.checks[i] == LimitStatus(costs, costsLimits, rows[i].date, rows[i].group)
    {
      if batch == [] {
        return Failure(EmptyBatch);
      }
      var normalized := NormalizeBatch(batch);
      if normalized.Failure? {
        return Failure(normalized.error);
      }
      var rows := normalized.value;
      var report := InsertCosts(rows, true, storageOk);
      r := Success(report);
    }

    /** `insert_tbl_costs` with a single tuple: a batch of one. */
    method InsertTblCost(raw: RawEntry, storageOk: bool) returns (r: Result<InsertReport>)
      requires Valid()
      modifies this
      ensures Valid()
      ensures costsLimits == old(costsLimits)
      ensures r.Failure? <==> NormalizeEntry(raw).Failure?
      ensures r.Failure? ==> r.error == NormalizeEntry(raw).error
      ensures r.Success? ==> r.value.committed == storageOk
      ensures r.Failure? || !storageOk ==> costs == old(costs) && nextId == old(nextId)
      ensures r.Success? ==>
        var row := NormalizeEntry(raw).value;
        (storageOk ==> costs == old(costs) + [Entry(old(nextId), row.date, row.group, row.amount)] && nextId == old(nextId) + 1) &&
        r.value.checks == [LimitStatus(costs, costsLimits, row.date, row.group)]
    {
      r := InsertTblCosts([raw], storageOk);
    }

    /** `del_last_rec`: in one transaction, delete the row whose identity is the
        largest. An empty table, or a storage failure, changes nothing. Identities
        are not handed out again. Returns the number of rows deleted. */
    method DelLastRec(storageOk: bool) returns (deleted: nat)
      requires Valid()
      modifies this
      ensures Valid()
      ensures costsLimits == old(costsLimits) && nextId == old(nextId)
      ensures deleted == (if storageOk && old(costs) != [] then 1 else 0)
      ensures deleted == 1 ==> costs == WithoutId(old(costs), MaxId(old(costs)))
      ensures deleted == 0 ==> costs == old(costs)
      ensures |costs| == |old(costs)| - deleted
    {
      if storageOk && costs != [] {
        DeleteMaxIsDropLast(costs);
        costs := costs[..|costs| - 1];
        deleted := 1;
      } else {
        deleted := 0;
      }
    }

    /** `insert_data('costs_limits', row, chk_lmt=False)`: the unique constraint on
        the whole triple rejects a duplicate, which rolls back; no limit check runs. */
    method InsertLimit(row: LimitRow, storageOk: bool) returns (committed: bool)
      requires Valid()
      modifies this
      ensures Valid()
      ensures costs == old(costs) && nextId == old(nextId)
      ensures committed <==> storageOk && row !in old(costsLimits)
      ensures costsLimits == if committed then old(costsLimits) + [row] else old(costsLimits)
    {
      committed := storageOk && row !in costsLimits;
      if committed {
        costsLimits := costsLimits + [row];
      }
    }

    /** `set_limit`: normalize the month-year text and the category, then insert one
        limit row. Entries are untouched and no limit check runs. */
    method SetLimit(monthYear: string, groupText: string, limit: real, storageOk: bool) returns (r: Result<bool>)
      requires Valid()
      modifies this
      ensures Valid()
      ensures costs == old(costs) && nextId == old(nextId)
      ensures r.Failure? <==> NormalizeLimit(monthYear, groupText, limit).Failure?
      ensures r.Failure? ==> r.error == NormalizeLimit(monthYear, groupText, limit).error && costsLimits == old(costsLimits)
      ensures r.Success? ==>
        var row := NormalizeLimit(monthYear, groupText, limit).value;
        (r.value <==> storageOk && row !in old(costsLimits)) &&
        costsLimits == if r.value then old(costsLimits) + [row] else old(costsLimits)
    {
      var normalized := NormalizeLimit(monthYear, groupText, limit);
      if normalized.Failure? {
        return Failure(normalized.error);
      }
      var committed := InsertLimit(normalized.value, storageOk);
      r := Success(committed);
    }

    /** `calc_costs`: normalize the date, then the per-category totals of that day. */
    method CalcCosts(dateText: string) returns (r: Result<map<string, real>>)
      ensures r.Failure? <==> CheckDate(dateText).Failure?
      ensures r.Failure? ==> r.error == InvalidDate
      ensures r.Success? ==> r.value == DailyTotals(costs, CheckDate(dateText).value)
    {
      var day :- CheckDate(dateText);
      r := Success(DailyTotals(costs, day));
    }

    /** `calc_costs_between`: normalize both bounds (the first one first), then the
        per-category totals over the closed range. */
    method CalcCostsBetween(firstText: string, lastText: string) returns (r: Result<map<string, real>>)
      ensures r.Failure? <==> CheckDate(firstText).Failure? || CheckDate(lastText).Failure?
      ensures r.Failure? ==> r.error == InvalidDate
      ensures r.Success? ==> r.value == RangeTotals(costs, CheckDate(firstText).value, CheckDate(lastText).value)
    {
      var first :- CheckDate(firstText);
      var last :- CheckDate(lastText);
      r := Success(RangeTotals(costs, first, last));
    }
  }
}
