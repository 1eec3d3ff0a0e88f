/** The reports of report.c and their earlier copies in budget_tracker.c:
    the yearly budget report (optionally excluding categories), the monthly
    budget report, and the spend report grouped by category, year or month
    over an inclusive date range. Each SQL query is modelled by its meaning:
    a filter and a sum over the transactions. */
module Reports {
  import opened Common
  import opened Dates
  import opened Store
  import opened Grouping
  import Csv

  // ---- sums over the transactions ----

  /** `SELECT SUM(charge) FROM transactions WHERE <keep>`; SQLite's NULL for
      an empty sum is read back by sqlite3_column_double as 0.0. */
  function SumCharges(ts: seq<Transaction>, keep: Transaction -> bool): real
    decreases |ts|
  {
    if ts == [] then 0.0
    else SumCharges(ts[..|ts| - 1], keep) + (if keep(ts[|ts| - 1]) then ts[|ts| - 1].charge else 0.0)
  }

  /** Two filters that agree on every row give the same sum. */
  lemma {:induction false} SumSameFilter(ts: seq<Transaction>, p: Transaction -> bool, q: Transaction -> bool)
    requires forall i :: 0 <= i < |ts| ==> p(ts[i]) == q(ts[i])
    ensures SumCharges(ts, p) == SumCharges(ts, q)
    decreases |ts|
  {
    if ts != [] {
      SumSameFilter(ts[..|ts| - 1], p, q);
    }
  }

  /** Splitting a filter by a second condition splits its sum. */
  lemma {:induction false} SumSplit(ts: seq<Transaction>, p: Transaction -> bool, q: Transaction -> bool,
                                    both: Transaction -> bool, only: Transaction -> bool)
    requires forall i :: 0 <= i < |ts| ==> both(ts[i]) == (p(ts[i]) && q(ts[i]))
    requires forall i :: 0 <= i < |ts| ==> only(ts[i]) == (p(ts[i]) && !q(ts[i]))
    ensures SumCharges(ts, p) == SumCharges(ts, both) + SumCharges(ts, only)
    decreases |ts|
  {
    if ts != [] {
      SumSplit(ts[..|ts| - 1], p, q, both, only);
    }
  }

  /** With only debits and zero charges stored, every sum is at most zero. */
  lemma {:induction false} SumNonPositive(ts: seq<Transaction>, keep: Transaction -> bool)
    requires forall i :: 0 <= i < |ts| ==> ts[i].charge <= 0.0
    ensures SumCharges(ts, keep) <= 0.0
    decreases |ts|
  {
    if ts != [] {
      SumNonPositive(ts[..|ts| - 1], keep);
    }
  }

  /** C's fabs. */
  function Magnitude(x: real): (m: real)
    ensures m >= 0.0 && (m == x || m == -x)
  {
    if x < 0.0 then -x else x
  }


  // ---- SQLite's date functions ----

  predicate LeapYear(y: nat)
  {
    y % 4 == 0 && (y % 100 != 0 || y % 400 == 0)
  }

  /** Days in a month of the Gregorian calendar. */
  function MonthLength(y: nat, m: nat): (n: nat)
    ensures 28 <= n <= 31 && (m == 12 ==> n == 31)
  {
    if m == 2 then (if LeapYear(y) then 29 else 28)
    else if m == 4 || m == 6 || m == 9 || m == 11 then 30
    else 31
  }

  /** SQLite's strftime('%Y', date): NULL (None) unless the text is a
      YYYY-MM-DD date, whose year it writes with four digits. A day past the
      end of its month moves the date forward by at most three days, which
      never leaves December, so the year is the text's own. */
  function SqlYear(s: string): (r: Option<string>)
    ensures r.Some? <==> IsoDate(s)
    ensures r.Some? ==> r.value == s[..4]
  {
    if IsoDate(s) then Some(s[..4]) else None
  }

  /** SQLite's strftime('%Y-%m', date): NULL unless the text is a YYYY-MM-DD
      date. SQLite reads a day past the end of its month as the first days
      of the next month ("2024-04-31" is 2024-05-01). */
  function SqlMonth(s: string): (r: Option<string>)
    ensures r.Some? <==> IsoDate(s)
  {
    if !IsoDate(s) then None
    else
      var d := ParseIso(s);
      if d.day <= MonthLength(d.year, d.month) then Some(s[..7])
      else Some(s[..5] + Pad(d.month + 1, 2))
  }

  /** `strftime('%Y', date) = '<year as %d>'`. */
  predicate InYear(t: Transaction, year: int)
  {
    SqlYear(t.date) == Some(IntText(year))
  }

  /** `category_id NOT IN (<list>)` fails for this row. */
  predicate Excluded(t: Transaction, exclude: Option<set<int>>)
  {
    exclude.Some? && t.categoryId in exclude.value
  }

  /** What the yearly report adds up. */
  function YearSpend(ts: seq<Transaction>, year: int, exclude: Option<set<int>>): real
  {
    SumCharges(ts, t => InYear(t, year) && !Excluded(t, exclude))
  }

  // ---- the yearly budget report ----

  /** What a budget report shows: no budget row, a budget whose spend query
      could not be prepared, or the budget, the spend and what remains. */
  datatype BudgetReport = NoBudget | SpendUnavailable(budget: real) | Report(budget: real, spend: real, remaining: real)

  /** report_budget (report.c:7-72, with exclude None also budget_tracker.c's
      report_budget) with the exclusion list applied to each transaction's
      category. */
  function ReportBudget(db: Db, year: int, exclude: Option<set<int>>): (r: BudgetReport)
    ensures r.NoBudget? <==> year !in db.budgets
    ensures !r.SpendUnavailable?
  {
    if year !in db.budgets then NoBudget
    else
      var spend := YearSpend(db.transactions, year, exclude);
      Report(db.budgets[year], spend, db.budgets[year] - Magnitude(spend))
  }

  /** report_budget as report.c:50 writes it: the exclusion clause names
      `t.category_id`, but the query has no table called `t`, so whenever an
      exclusion list is given the spend query fails to prepare after the
      budget has been shown. */
  function ReportBudgetAsWritten(db: Db, year: int, exclude: Option<set<int>>): (r: BudgetReport)
    ensures r.NoBudget? <==> year !in db.budgets
  {
    if year !in db.budgets then NoBudget
    else if exclude.Some? then SpendUnavailable(db.budgets[year])
    else ReportBudget(db, year, None)
  }

  /** As written, any exclusion list loses the spend and the remaining budget;
      the corrected report shows them, with the list applied. */
  lemma ExclusionLostAsWritten(db: Db, year: int, excluded: set<int>)
    requires year in db.budgets
    ensures ReportBudgetAsWritten(db, year, Some(excluded)) == SpendUnavailable(db.budgets[year])
    ensures ReportBudget(db, year, Some(excluded)) ==
      Report(db.budgets[year], YearSpend(db.transactions, year, Some(excluded)),
             db.budgets[year] - Magnitude(YearSpend(db.transactions, year, Some(excluded))))
  {
  }

  /** Without an exclusion list the two agree. */
  lemma AsWrittenWithoutExclusion(db: Db, year: int)
    ensures ReportBudgetAsWritten(db, year, None) == ReportBudget(db, year, None)
  {
  }

  /** In a ledger of debits the spend is at most zero, so what remains is
      the budget plus the (negative) spend, and never more than the budget. */
  lemma BudgetRemaining(db: Db, year: int, exclude: Option<set<int>>)
    requires ValidDb(db) && year in db.budgets
    ensures var r := ReportBudget(db, year, exclude);
      && r.Report? && r.budget == db.budgets[year]
      && r.spend == YearSpend(db.transactions, year, exclude) && r.spend <= 0.0
      && r.remaining == r.budget + r.spend && r.remaining <= r.budget
  {
    SumNonPositive(db.transactions, t => InYear(t, year) && !Excluded(t, exclude));
  }

  /** The year's total without exclusions is the total with the list E
      excluded plus the total of the year's transactions whose category is in E. */
  lemma ExclusionSplit(ts: seq<Transaction>, year: int, excluded: set<int>)
    ensures YearSpend(ts, year, None) ==
      YearSpend(ts, year, Some(excluded)) + SumCharges(ts, t => InYear(t, year) && t.categoryId in excluded)
  {
    var p := t => InYear(t, year) && !Excluded(t, None);
    var q := (t: Transaction) => t.categoryId !in excluded;
    SumSplit(ts, p, q, t => InYear(t, year) && !Excluded(t, Some(excluded)),
             t => InYear(t, year) && t.categoryId in excluded);
  }

  /** Excluding categories can only leave more of the budget. */
  lemma ExclusionRaisesRemaining(db: Db, year: int, excluded: set<int>)
    requires ValidDb(db) && year in db.budgets
    ensures ReportBudget(db, year, Some(excluded)).remaining >= ReportBudget(db, year, None).remaining
  {
    ExclusionSplit(db.transactions, year, excluded);
    SumNonPositive(db.transactions, t => InYear(t, year) && t.categoryId in excluded);
    BudgetRemaining(db, year, None);
    BudgetRemaining(db, year, Some(excluded));
  }

  /** A date text is counted in `year` exactly when it is canonical, its
      year is `year` and `year` has four digits: SQLite writes the year with
      four digits while '%d' does not, so no year before 1000 matches. */
  lemma YearTextMatch(s: string, year: int)
    ensures SqlYear(s) == Some(IntText(year)) <==> IsoDate(s) && 1000 <= year && ParseIso(s).year == year
  {
    if !IsoDate(s) {
      return;
    }
    var y := s[..4];
    NumberValueBound(y);
    PadOfValue(y);
    if year >= 1000 && ParseIso(s).year == year {
      DigitsIsPad(year, 4);
    }
    if y == IntText(year) {
      assert year >= 0;
      DigitsValue(year);
      assert NumberValue(y) == year;
      if year < 1000 {
        DigitsShort(year, 3);
      }
    }
  }

  // ---- the monthly budget report ----

  /** sscanf(month, "%d", &year): white space, an optional sign, then at least
      one digit. None where it assigns nothing and `year` stays uninitialised. */
  function LeadingInt(s: string): (r: Option<int>)
  {
    var i := SkipSpaces(s, 0);
    var neg := i < |s| && s[i] == '-';
    var j := if i < |s| && (s[i] == '-' || s[i] == '+') then i + 1 else i;
    var n := Csv.DigitRun(s[j..]);
    if n == 0 then None
    else
      var v: int := NumberValue(s[j..][..n]);
      Some(if neg then -v else v)
  }

  /** The month text strftime('%Y-%m') produces starts with the year that
      sscanf reads back. */
  lemma LeadingYear(year: nat, rest: string)
    requires year < 10000 && rest != [] && !IsDigit(rest[0])
    ensures LeadingInt(Pad(year, 4) + rest) == Some(year)
  {
    var s := Pad(year, 4) + rest;
    assert s[0] == Pad(year, 4)[0];
    assert !IsSpace(s[0]);
    assert SkipSpaces(s, 0) == 0;
    assert s[0..] == s;
    Csv.DigitRunStops(Pad(year, 4), rest);
    assert s[..4] == Pad(year, 4);
    PadValue(year, 4);
  }

  /** `strftime('%Y-%m', date) = '<month>'`. */
  predicate InMonth(t: Transaction, month: string)
  {
    SqlMonth(t.date) == Some(month)
  }

  /** SQLite keeps a date's own year and month exactly when its day exists
      in that month; otherwise the date counts in the following month of the
      same year (a day is at most 31, so December never overflows). */
  lemma SqlMonthPlacement(s: string)
    requires IsoDate(s)
    ensures var d := ParseIso(s);
      && (SqlMonth(s) == Some(s[..7]) <==> d.day <= MonthLength(d.year, d.month))
      && (d.day > MonthLength(d.year, d.month) ==>
            d.month < 12 && SqlMonth(s) == Some(s[..5] + Pad(d.month + 1, 2)))
  {
    var d := ParseIso(s);
    if d.day > MonthLength(d.year, d.month) {
      NextMonthText(s, d.month);
    }
  }

  /** Writing the following month into a date's month field changes it. */
  lemma NextMonthText(s: string, m: nat)
    requires |s| >= 7 && AllDigits(s[5..7]) && NumberValue(s[5..7]) == m && m < 12
    ensures s[..5] + Pad(m + 1, 2) != s[..7]
  {
    var next := s[..5] + Pad(m + 1, 2);
    assert Pow10(2) == 100 by { assert Pow10(1) == 10; }
    PadValue(m + 1, 2);
    assert next[5..7] == Pad(m + 1, 2);
    assert s[..7][5..7] == s[5..7];
  }

  /** "2024-04-31" counts in May: April has thirty days. */
  lemma AprilThirtyFirst()
    ensures SqlMonth("2024-04-31") == Some("2024-05")
  {
    var s := "2024-04-31";
    AprilThirtyFirstIsDate();
    assert Pad(5, 2) == "05" by { assert Pad(0, 1) == "0"; }
    assert s[..5] + "05" == "2024-05";
  }

  lemma AprilThirtyFirstIsDate()
    ensures IsoDate("2024-04-31")
    ensures ParseIso("2024-04-31").month == 4 && ParseIso("2024-04-31").day == 31
  {
    var s := "2024-04-31";
    assert s[..4] == "2024";
    assert s[5..7] == "04";
    assert s[8..] == "31";
    assert AllDigits("2024") && AllDigits("04") && AllDigits("31");
    assert NumberValue("04") == 4 by { assert NumberValue("0") == 0; }
    assert NumberValue("31") == 31 by { assert NumberValue("3") == 3; }
  }

  function MonthSpend(ts: seq<Transaction>, month: string): real
  {
    SumCharges(ts, t => InMonth(t, month))
  }

  /** report_budget_month (report.c:74-137, budget_tracker.c:130-193): the
      budget of the month's leading year divided by twelve, the month's spend
      and what remains. None where sscanf assigns no year. */
  function ReportBudgetMonth(db: Db, month: string): (r: Option<BudgetReport>)
    ensures r.None? <==> LeadingInt(month).None?
    ensures r.Some? ==> (r.value.NoBudget? <==> LeadingInt(month).value !in db.budgets)
    ensures r.Some? ==> !r.value.SpendUnavailable?
  {
    var year :- LeadingInt(month);
    if year !in db.budgets then Some(NoBudget)
    else
      var monthly := db.budgets[year] / 12.0;
      var spend := MonthSpend(db.transactions, month);
      Some(Report(monthly, spend, monthly - Magnitude(spend)))
  }

  /** For a month written as strftime writes it, the report takes the year's
      budget, shows a twelfth of it, and what remains is that twelfth plus
      the month's (negative) spend. */
  lemma MonthRemaining(db: Db, year: nat, month: nat)
    requires ValidDb(db) && year < 10000 && year in db.budgets
    ensures var text := Pad(year, 4) + ['-'] + Pad(month, 2);
      var r := ReportBudgetMonth(db, text);
      && r.Some? && r.value.Report?
      && r.value.budget == db.budgets[year] / 12.0
      && r.value.spend == MonthSpend(db.transactions, text) && r.value.spend <= 0.0
      && r.value.remaining == r.value.budget + r.value.spend
  {
    var text := Pad(year, 4) + ['-'] + Pad(month, 2);
    assert text == Pad(year, 4) + (['-'] + Pad(month, 2));
    LeadingYear(year, ['-'] + Pad(month, 2));
    SumNonPositive(db.transactions, t => InMonth(t, text));
  }

  // ---- the spend report ----

  /** The three groupings of report_spend. */
  datatype Aggregation = ByCategory | ByYear | ByMonth

  /** The `agg` argument: NULL groups by category label, "yearly" and
      "monthly" by date prefix, anything else is rejected. */
  function AggregationOf(agg: Option<string>): (r: Option<Aggregation>)
    ensures r == Some(ByCategory) <==> agg.None?
    ensures r == Some(ByYear) <==> agg == Some("yearly")
    ensures r == Some(ByMonth) <==> agg == Some("monthly")
    ensures r.None? <==> agg.Some? && agg.value != "yearly" && agg.value != "monthly"
  {
    match agg
    case None => Some(ByCategory)
    case Some(a) =>
      if a == "yearly" then Some(ByYear) else if a == "monthly" then Some(ByMonth) else None
  }

  /** `t.date BETWEEN '<start>' AND '<end>'`, compared as text. */
  predicate InRange(t: Transaction, start: string, end: string)
  {
    LexLessEq(start, t.date) && LexLessEq(t.date, end)
  }

  /** The label of the category with this id (the join `t.category_id = c.id`). */
  function CategoryName(cs: seq<Category>, id: int): (r: Option<string>)
    ensures r.Some? <==> exists i :: 0 <= i < |cs| && cs[i].id == id
    ensures r.Some? ==> exists i :: 0 <= i < |cs| && cs[i].id == id && cs[i].name == r.value
    decreases |cs|
  {
    if cs == [] then None
    else if cs[0].id == id then Some(cs[0].name)
    else
      var r := CategoryName(cs[1..], id);
      assert forall i :: 1 <= i < |cs| ==> cs[i] == cs[1..][i - 1];
      r
  }

  /** A year or month group key; SQLite's NULL key (a date strftime cannot
      read) is the empty text, which no year or month is. */
  function KeyText(k: Option<string>): string
  {
    match k
    case None => ""
    case Some(text) => text
  }

  /** The row a transaction contributes to the grouping: its category label,
      or its year or month. None when the inner join drops it. */
  function EntryOf(t: Transaction, cs: seq<Category>, g: Aggregation): Option<Entry>
  {
    match g
    case ByCategory =>
      (match CategoryName(cs, t.categoryId)
       case None => None
       case Some(name) => Some(Entry(name, t.charge)))
    case ByYear => Some(Entry(KeyText(SqlYear(t.date)), t.charge))
    case ByMonth => Some(Entry(KeyText(SqlMonth(t.date)), t.charge))
  }

  predicate Selected(t: Transaction, start: string, end: string, exclude: Option<set<int>>)
  {
    InRange(t, start, end) && !Excluded(t, exclude)
  }

  /** The rows the spend query groups, in table order. */
  function Entries(ts: seq<Transaction>, cs: seq<Category>, start: string, end: string,
                   g: Aggregation, exclude: Option<set<int>>): seq<Entry>
    decreases |ts|
  {
    if ts == [] then []
    else
      var t := ts[|ts| - 1];
      var rest := Entries(ts[..|ts| - 1], cs, start, end, g, exclude);
      if Selected(t, start, end, exclude) && EntryOf(t, cs, g).Some? then rest + [EntryOf(t, cs, g).value] else rest
  }

  /** The transaction is in the range, not excluded, kept by the grouping,
      and its row has this key. */
  predicate Carries(t: Transaction, cs: seq<Category>, start: string, end: string,
                    g: Aggregation, exclude: Option<set<int>>, key: string)
  {
    Selected(t, start, end, exclude) && EntryOf(t, cs, g).Some? && EntryOf(t, cs, g).value.key == key
  }

  /** A key appears among the grouped rows exactly when some transaction
      carries it. */
  lemma {:induction false} EntryKeys(ts: seq<Transaction>, cs: seq<Category>, start: string, end: string,
                                     g: Aggregation, exclude: Option<set<int>>, key: string)
    ensures Grouping.HasKey(Entries(ts, cs, start, end, g, exclude), key) <==>
      exists i :: 0 <= i < |ts| && Carries(ts[i], cs, start, end, g, exclude, key)
    decreases |ts|
  {
    if ts != [] {
      var init, t := ts[..|ts| - 1], ts[|ts| - 1];
      var rest := Entries(init, cs, start, end, g, exclude);
      EntryKeys(init, cs, start, end, g, exclude, key);
      if Selected(t, start, end, exclude) && EntryOf(t, cs, g).Some? {
        AppendKeys(rest, EntryOf(t, cs, g).value, key);
      }
      if exists i :: 0 <= i < |ts| && Carries(ts[i], cs, start, end, g, exclude, key) {
        var i :| 0 <= i < |ts| && Carries(ts[i], cs, start, end, g, exclude, key);
        if i < |init| {
          assert init[i] == ts[i];
        }
      }
      if exists i :: 0 <= i < |init| && Carries(init[i], cs, start, end, g, exclude, key) {
        var i :| 0 <= i < |init| && Carries(init[i], cs, start, end, g, exclude, key);
        assert ts[i] == init[i];
      }
    }
  }

  /** Appending a row adds its key and keeps the others. */
  lemma AppendKeys(es: seq<Entry>, e: Entry, key: string)
    ensures Grouping.HasKey(es + [e], key) <==> Grouping.HasKey(es, key) || e.key == key
  {
    var r := es + [e];
    if Grouping.HasKey(es, key) {
      var i :| 0 <= i < |es| && es[i].key == key;
      assert r[i].key == key;
    }
    assert r[|es|] == e;
    if Grouping.HasKey(r, key) {
      var i :| 0 <= i < |r| && r[i].key == key;
      if i < |es| { assert es[i].key == key; }
    }
  }

  datatype SpendReport = InvalidAggregation | Rows(rows: seq<Entry>)

  /** report_spend (report.c:139-201; budget_tracker.c:315-371 is the same
      without the exclusion list): the grouped rows, or the rejection of an
      unknown aggregation. */
  function ReportSpend(db: Db, start: string, end: string, agg: Option<string>, exclude: Option<set<int>>)
    : (r: SpendReport)
    ensures r.InvalidAggregation? <==> AggregationOf(agg).None?
  {
    match AggregationOf(agg)
    case None => InvalidAggregation
    case Some(g) => Rows(Group(Entries(db.transactions, db.categories, start, end, g, exclude)))
  }

  /** The spend of the selected transactions. */
  function RangeSpend(ts: seq<Transaction>, start: string, end: string, exclude: Option<set<int>>): real
  {
    SumCharges(ts, t => Selected(t, start, end, exclude))
  }

  /** The grouped rows add up to the charges of the selected transactions
      that the grouping keeps: all of them by year or month, those with a
      category by label. */
  lemma {:induction false} EntriesTotal(ts: seq<Transaction>, cs: seq<Category>, start: string, end: string,
                                        g: Aggregation, exclude: Option<set<int>>)
    ensures Total(Entries(ts, cs, start, end, g, exclude)) ==
      SumCharges(ts, t => Selected(t, start, end, exclude) && EntryOf(t, cs, g).Some?)
    decreases |ts|
  {
    if ts != [] {
      var rest := Entries(ts[..|ts| - 1], cs, start, end, g, exclude);
      EntriesTotal(ts[..|ts| - 1], cs, start, end, g, exclude);
      var t := ts[|ts| - 1];
      if Selected(t, start, end, exclude) && EntryOf(t, cs, g).Some? {
        TotalAppend(rest, EntryOf(t, cs, g).value);
      }
    }
  }

  /** By year or by month every selected transaction is counted once, so the
      rows of the report add up to the range's total spend. */
  lemma AggregatedTotal(db: Db, start: string, end: string, agg: Option<string>, exclude: Option<set<int>>)
    requires agg == Some("yearly") || agg == Some("monthly")
    ensures var r := ReportSpend(db, start, end, agg, exclude);
      r.Rows? && Total(r.rows) == RangeSpend(db.transactions, start, end, exclude)
  {
    var g := AggregationOf(agg).value;
    var ts, cs := db.transactions, db.categories;
    var es := Entries(ts, cs, start, end, g, exclude);
    GroupTotal(es);
    EntriesTotal(ts, cs, start, end, g, exclude);
    var kept := t => Selected(t, start, end, exclude) && EntryOf(t, cs, g).Some?;
    var selected := t => Selected(t, start, end, exclude);
    forall i | 0 <= i < |ts|
      ensures kept(ts[i]) == selected(ts[i])
    {
      assert EntryOf(ts[i], cs, g).Some? by { assert g != ByCategory; }
    }
    SumSameFilter(ts, kept, selected);
  }

  /** By category, the inner join drops exactly the selected transactions
      whose category id names no category (such as -1, "no category"): the
      rows add up to the range's spend minus theirs. */
  lemma CategoryReportMissesOrphans(db: Db, start: string, end: string, exclude: Option<set<int>>)
    ensures var r := ReportSpend(db, start, end, None, exclude);
      r.Rows? && Total(r.rows) + SumCharges(db.transactions,
                  t => Selected(t, start, end, exclude) && CategoryName(db.categories, t.categoryId).None?)
        == RangeSpend(db.transactions, start, end, exclude)
  {
    var es := Entries(db.transactions, db.categories, start, end, ByCategory, exclude);
    GroupTotal(es);
    EntriesTotal(db.transactions, db.categories, start, end, ByCategory, exclude);
    SumSplit(db.transactions, t => Selected(t, start, end, exclude),
             (t: Transaction) => CategoryName(db.categories, t.categoryId).Some?,
             t => Selected(t, start, end, exclude) && EntryOf(t, db.categories, ByCategory).Some?,
             t => Selected(t, start, end, exclude) && CategoryName(db.categories, t.categoryId).None?);
  }

  /** Each row of a report is one key, shown once, carrying the sum of the
      selected transactions with that key. */
  lemma ReportRows(db: Db, start: string, end: string, agg: Option<string>, exclude: Option<set<int>>)
    requires AggregationOf(agg).Some?
    ensures var r := ReportSpend(db, start, end, agg, exclude);
      var es := Entries(db.transactions, db.categories, start, end, AggregationOf(agg).value, exclude);
      && r.Rows? && DistinctKeys(r.rows)
      && (forall key :: Grouping.HasKey(r.rows, key) <==> Grouping.HasKey(es, key))
      && (forall k :: 0 <= k < |r.rows| ==> r.rows[k].amount == SumFor(es, r.rows[k].key))
  {
    GroupShape(Entries(db.transactions, db.categories, start, end, AggregationOf(agg).value, exclude));
  }

  /** report_spend's output loop over the result rows: the running total is
      the sum of the listed amounts. The ledger is only read. */
  method SpendReportTotal(ledger: Ledger, start: string, end: string, agg: Option<string>, exclude: Option<set<int>>)
    returns (report: SpendReport, total: real)
    ensures report == ReportSpend(ledger.State(), start, end, agg, exclude)
    ensures report.Rows? ==> total == Total(report.rows)
    ensures report.InvalidAggregation? ==> total == 0.0
  {
    report := ReportSpend(ledger.State(), start, end, agg, exclude);
    total := 0.0;
    if report.Rows? {
      total := RunningTotal(report.rows);
    }
  }
}
