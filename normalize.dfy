/** The input normalizers of `DataBase`: free text to a calendar date, to a
    category word, and to the first day of a named month. Each Python exception
    they raise becomes a `Failure`. */
module Normalize {
  import opened Dates
  import opened Text

  datatype Error =
    | InvalidDate    // ValueError from datetime.strptime
    | NoWord         // IndexError: the category text holds no \w+ run
    | MissingToken   // IndexError: the month name or the year token is absent
    | UnknownMonth   // KeyError: the month name is not in the month table
    | EmptyBatch     // IndexError: value[0] of an empty batch

  datatype Result<T> = Success(value: T) | Failure(error: Error) {
    predicate IsFailure() { Failure? }
    function PropagateFailure<U>(): Result<U> requires Failure? { Failure(error) }
    function Extract(): T requires Success? { value }
  }

  // ---------------------------------------------------------------------------
  // datetime.strptime(t, '%d.%m.%Y')

  /** The `%d` pattern `3[01]|[12]\d|0[1-9]|[1-9]` matching a whole field. (Its
      space-padded alternative ` [1-9]` is left out: the strings parsed here hold
      no spaces.) */
  predicate DayField(f: string) {
    (|f| == 1 && '1' <= f[0] <= '9') ||
    (|f| == 2 && ((f[0] == '3' && (f[1] == '0' || f[1] == '1')) ||
                  ((f[0] == '1' || f[0] == '2') && IsDigit(f[1])) ||
                  (f[0] == '0' && '1' <= f[1] <= '9')))
  }

  /** The `%m` pattern `1[0-2]|0[1-9]|[1-9]` matching a whole field. */
  predicate MonthField(f: string) {
    (|f| == 1 && '1' <= f[0] <= '9') ||
    (|f| == 2 && ((f[0] == '1' && '0' <= f[1] <= '2') || (f[0] == '0' && '1' <= f[1] <= '9')))
  }

  /** The `%Y` pattern `\d\d\d\d`, with nothing left after it. */
  predicate YearField(f: string) {
    |f| == 4 && AllIn(f, Digit)
  }

  /** Parse `t` against `%d.%m.%Y`. The day and month fields end at the first and
      second dot; the year is exactly four digits ending the string; the three
      numbers must then form a date `datetime` accepts. Every failure is a
      ValueError. */
  function ParseDayMonthYear(t: string): (r: Result<Date>)
    ensures r.Success? ==> ValidDate(r.value)
  {
    var i := IndexOf(t, '.');
    if i == |t| then Failure(InvalidDate)
    else
      var rest := t[i + 1..];
      var j := IndexOf(rest, '.');
      if j == |rest| then Failure(InvalidDate)
      else if !(DayField(t[..i]) && MonthField(rest[..j]) && YearField(rest[j + 1..])) then Failure(InvalidDate)
      else
        var d := Date(Val(t[..i]), Val(rest[..j]), Val(rest[j + 1..]));
        if ValidDate(d) then Success(d) else Failure(InvalidDate)
  }

  /** The `%d` alternatives accept exactly the one- or two-digit spellings of 1..31. */
  lemma DayFieldValue(f: string)
    ensures DayField(f) <==> 1 <= |f| <= 2 && AllIn(f, Digit) && 1 <= Val(f) <= 31
  {
    if |f| == 1 {
      assert f == [] + [f[0]];
      ValAppend([], f[0]);
    } else if |f| == 2 {
      assert f == [f[0]] + [f[1]];
      assert [f[0]] == [] + [f[0]];
      ValAppend([f[0]], f[1]);
      ValAppend([], f[0]);
    }
  }

  /** The `%m` alternatives accept exactly the one- or two-digit spellings of 1..12. */
  lemma MonthFieldValue(f: string)
    ensures MonthField(f) <==> 1 <= |f| <= 2 && AllIn(f, Digit) && 1 <= Val(f) <= 12
  {
    if |f| == 1 {
      assert f == [] + [f[0]];
      ValAppend([], f[0]);
    } else if |f| == 2 {
      assert f == [f[0]] + [f[1]];
      assert [f[0]] == [] + [f[0]];
      ValAppend([f[0]], f[1]);
      ValAppend([], f[0]);
    }
  }

  /** Splitting `a.b` at its first dot when `a` holds none. */
  lemma SplitAtDot(a: string, b: string)
    requires forall k :: 0 <= k < |a| ==> a[k] != '.'
    ensures IndexOf(a + ['.'] + b, '.') == |a|
    ensures (a + ['.'] + b)[..|a|] == a && (a + ['.'] + b)[|a| + 1..] == b
  {
    var s := a + ['.'] + b;
    var n := IndexOf(s, '.');
    assert s[|a|] == '.';
    assert s[..|a|] == a;
    assert s[|a| + 1..] == b;
  }

  /** Parsing three dot-free fields joined by dots. */
  lemma ParseFields(a: string, b: string, c: string)
    requires forall k :: 0 <= k < |a| ==> a[k] != '.'
    requires forall k :: 0 <= k < |b| ==> b[k] != '.'
    ensures ParseDayMonthYear(a + ['.'] + b + ['.'] + c) ==
      if DayField(a) && MonthField(b) && YearField(c) && ValidDate(Date(Val(a), Val(b), Val(c)))
      then Success(Date(Val(a), Val(b), Val(c))) else Failure(InvalidDate)
  {
    var rest := b + ['.'] + c;
    var t := a + ['.'] + rest;
    assert a + ['.'] + b + ['.'] + c == t;
    SplitAtDot(a, rest);
    SplitAtDot(b, c);
    assert IndexOf(t, '.') == |a| && t[..|a|] == a && t[|a| + 1..] == rest;
    assert IndexOf(rest, '.') == |b| && rest[..|b|] == b && rest[|b| + 1..] == c;
    if DayField(a) && MonthField(b) && YearField(c) {
      var d := Date(Val(a), Val(b), Val(c));
      assert ParseDayMonthYear(t) == if ValidDate(d) then Success(d) else Failure(InvalidDate);
    } else {
      assert ParseDayMonthYear(t) == Failure(InvalidDate);
    }
  }

  lemma DigitsHaveNoDot(a: string)
    requires AllIn(a, Digit)
    ensures forall k :: 0 <= k < |a| ==> a[k] != '.'
  {
  }

  // ---------------------------------------------------------------------------
  // __check_date

  /** `__check_date`: join every run of digits with '.' and parse the result as
      `%d.%m.%Y`. */
  function CheckDate(text: string): (r: Result<Date>)
    ensures r.Success? ==> ValidDate(r.value)
  {
    ParseDayMonthYear(Join(Runs(text, Digit), '.'))
  }

  /** The date `d` as three digit strings, one per field. */
  predicate SpellsDate(runs: seq<string>, d: Date) {
    |runs| == 3 && 1 <= |runs[0]| <= 2 && 1 <= |runs[1]| <= 2 && |runs[2]| == 4 &&
    d == Date(Val(runs[0]), Val(runs[1]), Val(runs[2]))
  }

  /** `__check_date` succeeds exactly when the text holds three runs of digits (a
      day and a month of one or two digits, a year of four) that form a valid
      Gregorian date, and then yields that date. */
  lemma {:induction false} CheckDateSpec(text: string)
    ensures var runs := Runs(text, Digit);
      CheckDate(text).Success? <==>
        |runs| == 3 && |runs[0]| <= 2 && |runs[1]| <= 2 && |runs[2]| == 4 &&
        ValidDate(Date(Val(runs[0]), Val(runs[1]), Val(runs[2])))
    ensures CheckDate(text).Success? ==> SpellsDate(Runs(text, Digit), CheckDate(text).value)
  {
    var runs := Runs(text, Digit);
    var t := Join(runs, '.');
    if |runs| == 0 {
      assert t == [];
    } else if |runs| == 1 {
      DigitsHaveNoDot(runs[0]);
      assert IndexOf(t, '.') == |t|;
    } else {
      DigitsHaveNoDot(runs[0]);
      DigitsHaveNoDot(runs[1]);
      SplitAtDot(runs[0], Join(runs[1..], '.'));
      var rest := Join(runs[1..], '.');
      if |runs| == 2 {
        assert rest == runs[1];
        assert IndexOf(rest, '.') == |rest|;
      } else {
        assert runs[1..][0] == runs[1];
        assert rest == runs[1] + ['.'] + Join(runs[2..], '.');
        SplitAtDot(runs[1], Join(runs[2..], '.'));
        var year := Join(runs[2..], '.');
        if |runs| == 3 {
          assert runs[2..] == [runs[2]];
          assert year == runs[2];
        } else {
          assert runs[2..][0] == runs[2];
          assert year == runs[2] + ['.'] + Join(runs[3..], '.');
          assert year[|runs[2]|] == '.';
          assert !YearField(year);
        }
        DayFieldValue(runs[0]);
        MonthFieldValue(runs[1]);
      }
    }
  }

  /** `strftime('%d.%m.%Y')`, the rendering of dates in daily totals. */
  function FormatDate(d: Date): (r: string)
    requires ValidDate(d)
    ensures |r| == 10 && r[2] == '.' && r[5] == '.'
    ensures forall i :: 0 <= i < 10 && i != 2 && i != 5 ==> IsDigit(r[i])
  {
    var dd, mm, yyyy := Pad(d.day, 2), Pad(d.month, 2), Pad(d.year, 4);
    var r := dd + ['.'] + mm + ['.'] + yyyy;
    assert forall i :: 0 <= i < 2 ==> r[i] == dd[i];
    assert forall i :: 3 <= i < 5 ==> r[i] == mm[i - 3];
    assert forall i :: 6 <= i < 10 ==> r[i] == yyyy[i - 6];
    r
  }

  /** A rendered date normalizes back to itself. */
  lemma CheckDateRoundTrip(d: Date)
    requires ValidDate(d)
    ensures CheckDate(FormatDate(d)) == Success(d)
  {
    var dd, mm, yyyy := Pad(d.day, 2), Pad(d.month, 2), Pad(d.year, 4);
    assert FormatDate(d) == dd + ['.'] + (mm + ['.'] + yyyy);
    RunsAfterSeparator(dd, '.', mm + ['.'] + yyyy, Digit);
    RunsAfterSeparator(mm, '.', yyyy, Digit);
    RunsOfRun(yyyy, Digit);
    var runs := Runs(FormatDate(d), Digit);
    assert runs == [dd, mm, yyyy];
    assert Pow10(2) == 100 && Pow10(4) == 10000;
    CheckDateSpec(FormatDate(d));
  }

  /** Any non-digit characters may separate the fields: texts that differ only in
      their non-digit characters normalize alike. */
  lemma CheckDateIgnoresSeparators(s: string, t: string)
    requires SameSkeleton(s, t, Digit)
    ensures CheckDate(s) == CheckDate(t)
  {
    RunsIgnoreSeparators(s, t, Digit);
  }

  // ---------------------------------------------------------------------------
  // __check_group

  /** `__check_group`: the first `\w+` run, lower-cased. It fails with `IndexError`
      exactly when the text has no word character, and otherwise yields one non-empty
      lower-case word. */
  function CheckGroup(text: string): (r: Result<string>)
    ensures r.Failure? <==> NoneIn(text, Word)
    ensures r.Failure? ==> r.error == NoWord
    ensures r.Success? ==> IsLowerWord(r.value)
  {
    var words := Runs(text, Word);
    FirstRun(text, Word);
    if words == [] then Failure(NoWord)
    else
      LowerStrIdempotent(words[0]);
      Success(LowerStr(words[0]))
  }

  /** A normalized category: one non-empty lower-case word. */
  predicate IsLowerWord(w: string) {
    w != [] && AllIn(w, Word) && LowerStr(w) == w
  }

  /** The word `__check_group` returns is the first maximal word run of the text,
      lower-cased: no word character stands before it, and the run cannot be extended. */
  lemma CheckGroupSpec(text: string)
    ensures CheckGroup(text).Success? ==>
      exists i, w :: RunAt(text, i, w, Word) && w != [] && AllIn(w, Word) && CheckGroup(text).value == LowerStr(w)
  {
    FirstRun(text, Word);
  }

  /** A single lower-case word is its own normal form. */
  lemma CheckGroupFixesLowerWord(w: string)
    requires IsLowerWord(w)
    ensures CheckGroup(w) == Success(w)
  {
    RunsOfRun(w, Word);
  }

  /** Normalizing a category twice is normalizing it once. */
  lemma CheckGroupIdempotent(text: string)
    requires CheckGroup(text).Success?
    ensures CheckGroup(CheckGroup(text).value) == CheckGroup(text)
  {
    CheckGroupSpec(text);
    CheckGroupFixesLowerWord(CheckGroup(text).value);
  }

  // ---------------------------------------------------------------------------
  // set_limit's "month-name year" text

  /** `__dict_months`. */
  const Months: map<string, int> := map[
    "январь" := 1, "февраль" := 2, "март" := 3,
    "апрель" := 4, "май" := 5, "июнь" := 6,
    "июль" := 7, "август" := 8, "сентябрь" := 9,
    "октябрь" := 10, "ноябрь" := 11, "декабрь" := 12]

  lemma MonthsInRange(name: string)
    requires name in Months
    ensures 1 <= Months[name] <= 12
  {
  }

  /** The first lines of `set_limit`: take the runs of `[а-яА-Я0-9]`, look the
      lower-cased first one up in the month table, and parse `1.<month>.<second run>`
      as `%d.%m.%Y`. Runs after the second are ignored. */
  function ParseMonthYear(text: string): (r: Result<Date>)
    ensures r.Success? ==> r.value.day == 1 && ValidDate(r.value)
    ensures r.Success? ==> exists name :: name in Months && r.value.month == Months[name]
  {
    var tokens := Runs(text, MonthYear);
    if |tokens| == 0 then Failure(MissingToken)
    else
      var name := LowerStr(tokens[0]);
      if name !in Months then Failure(UnknownMonth)
      else if |tokens| < 2 then Failure(MissingToken)
      else
        MonthsInRange(name);
        ParseFirstOfMonth(Months[name], tokens[1]);
        ParseDayMonthYear("1." + DecimalString(Months[name]) + "." + tokens[1])
  }

  /** The fields `1` and `str(m)` that `set_limit` writes before the year. */
  lemma FirstOfMonthFields(m: int)
    requires 1 <= m <= 12
    ensures DayField(['1']) && Val(['1']) == 1
    ensures MonthField(DecimalString(m)) && Val(DecimalString(m)) == m
    ensures forall k :: 0 <= k < |DecimalString(m)| ==> DecimalString(m)[k] != '.'
  {
    assert ['1'] == [] + ['1'];
    ValAppend([], '1');
    MonthFieldValue(DecimalString(m));
    DigitsHaveNoDot(DecimalString(m));
  }

  /** `1.<m>.<year>` parses as day 1 of month `m` exactly when `year` is four digits
      naming a year from 0001. */
  lemma ParseFirstOfMonth(m: int, year: string)
    requires 1 <= m <= 12
    ensures ParseDayMonthYear("1." + DecimalString(m) + "." + year) ==
      if YearField(year) && Val(year) >= 1 then Success(Date(1, m, Val(year))) else Failure(InvalidDate)
  {
    var ms := DecimalString(m);
    FirstOfMonthFields(m);
    assert "1." + ms + "." + year == ['1'] + ['.'] + ms + ['.'] + year;
    ParseFields(['1'], ms, year);
    assert YearField(year) ==> Val(year) <= 9999 by {
      assert Pow10(4) == 10000;
    }
  }

  /** The month-year text yields day 1 of the named month exactly when its first
      run names a month (in any letter case) and its second run is a four-digit
      year from 0001; each way of failing raises its own error. */
  lemma ParseMonthYearSpec(text: string)
    ensures var tokens := Runs(text, MonthYear);
      match ParseMonthYear(text)
      case Success(d) =>
        |tokens| >= 2 && LowerStr(tokens[0]) in Months &&
        YearField(tokens[1]) && Val(tokens[1]) >= 1 &&
        d == Date(1, Months[LowerStr(tokens[0])], Val(tokens[1]))
      case Failure(e) =>
        (|tokens| == 0 && e == MissingToken) ||
        (|tokens| >= 1 && LowerStr(tokens[0]) !in Months && e == UnknownMonth) ||
        (|tokens| == 1 && LowerStr(tokens[0]) in Months && e == MissingToken) ||
        (|tokens| >= 2 && LowerStr(tokens[0]) in Months && e == InvalidDate &&
         !(YearField(tokens[1]) && Val(tokens[1]) >= 1))
  {
    var tokens := Runs(text, MonthYear);
    if |tokens| >= 2 && LowerStr(tokens[0]) in Months {
      MonthsInRange(LowerStr(tokens[0]));
      ParseFirstOfMonth(Months[LowerStr(tokens[0])], tokens[1]);
    }
  }
}
