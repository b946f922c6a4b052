/** The budget-versus-collections detail view (`detalle_analisis`): the month's budget from the
    projected-collections file, the collections from the payments file, the day-by-day series
    with their running totals, the per-client day vectors, the "as of yesterday" figures and the
    per-client table. The current date is a parameter. */
module Detalle {
  import opened Common

  // ---------------------------------------------------------------- calendar

  /** A calendar date as pandas yields it once a cell parses. */
  datatype Date = Date(year: int, month: int, day: int)

  /** Gregorian leap years. */
  predicate IsLeap(year: int) {
    year % 4 == 0 && (year % 100 != 0 || year % 400 == 0)
  }

  /** `calendar.monthrange(year, month)[1]`: the number of days of a month. */
  function DaysInMonth(year: int, month: int): (n: nat)
    requires 1 <= month <= 12
    ensures 28 <= n <= 31
  {
    if month == 2 then (if IsLeap(year) then 29 else 28)
    else if month == 4 || month == 6 || month == 9 || month == 11 then 30
    else 31
  }

  /** Days of the year before the first of `month` (`month` = 13 gives the whole year). */
  function DaysBefore(year: int, month: int): nat
    requires 1 <= month <= 13
  {
    if month == 1 then 0 else DaysBefore(year, month - 1) + DaysInMonth(year, month - 1)
  }

  /** The month lengths add up to the length of the Gregorian year. */
  lemma YearLength(year: int)
    ensures DaysBefore(year, 13) == if IsLeap(year) then 366 else 365
  {
    var feb := DaysInMonth(year, 2);
    assert DaysBefore(year, 2) == 31;
    assert DaysBefore(year, 3) == 31 + feb;
    assert DaysBefore(year, 4) == 62 + feb;
    assert DaysBefore(year, 5) == 92 + feb;
    assert DaysBefore(year, 6) == 123 + feb;
    assert DaysBefore(year, 7) == 153 + feb;
    assert DaysBefore(year, 8) == 184 + feb;
    assert DaysBefore(year, 9) == 215 + feb;
    assert DaysBefore(year, 10) == 245 + feb;
    assert DaysBefore(year, 11) == 276 + feb;
    assert DaysBefore(year, 12) == 306 + feb;
  }

  predicate ValidDate(d: Date) {
    1 <= d.month <= 12 && 1 <= d.day <= DaysInMonth(d.year, d.month)
  }

  // ---------------------------------------------------------------- the two files

  /** One row of the projected-collections file: client code, business name, due date (None when
      it does not parse) and amount (`TOTAL CARTERA`). */
  datatype BudgetRow = BudgetRow(client: Option<string>, name: Option<string>, due: Option<Date>, total: Option<real>)

  /** One row of the consolidated payments file: client code, payment date (None when it does not
      parse) and amount (`VALOR PAGADO`). */
  datatype PaymentRow = PaymentRow(client: Option<string>, paid: Option<Date>, value: Option<real>)

  predicate InMonth(d: Option<Date>, year: int, month: int) {
    d.Some? && d.value.year == year && d.value.month == month
  }

  function DueIn(year: int, month: int): BudgetRow -> bool {
    (r: BudgetRow) => InMonth(r.due, year, month)
  }

  /** The budget rows falling due in the given month (every state, not only pending ones). */
  function MonthRows(rows: seq<BudgetRow>, year: int, month: int): (m: seq<BudgetRow>)
    ensures forall r :: r in m <==> r in rows && InMonth(r.due, year, month)
    ensures |m| <= |rows|
  {
    Filter(rows, DueIn(year, month))
  }

  function TotalOf(): BudgetRow -> real {
    (r: BudgetRow) => Coerce(r.total)
  }

  function ValueOf(): PaymentRow -> real {
    (p: PaymentRow) => Coerce(p.value)
  }

  // ---------------------------------------------------------------- day series

  /** What one item adds to day `d`: its amount when it falls on that day. */
  function OnDay<T>(dayOf: T -> Option<int>, amount: T -> real, d: int): T -> real {
    (t: T) => if dayOf(t) == Some(d) then amount(t) else 0.0
  }

  /** What one item adds to days 1..last together. */
  function UpToDay<T>(dayOf: T -> Option<int>, amount: T -> real, last: int): T -> real {
    (t: T) => if dayOf(t).Some? && 1 <= dayOf(t).value <= last then amount(t) else 0.0
  }

  /** The amounts grouped by day and laid out on days 1..last, days without data holding 0
      (a group-by-day sum merged onto every day of the month, then `fillna(0)`). */
  function DayTotals<T>(s: seq<T>, dayOf: T -> Option<int>, amount: T -> real, last: nat): (v: seq<real>)
    ensures |v| == last
  {
    seq(last, i requires 0 <= i < last => SumBy(s, OnDay(dayOf, amount, i + 1)))
  }

  /** A day series adds up to the amounts of the items dated within days 1..last. */
  lemma {:induction false} DayTotalsSum<T>(s: seq<T>, dayOf: T -> Option<int>, amount: T -> real, last: nat)
    ensures Sum(DayTotals(s, dayOf, amount, last)) == SumBy(s, UpToDay(dayOf, amount, last))
    decreases last
  {
    var v := DayTotals(s, dayOf, amount, last);
    if last == 0 {
      SumByCongruent(s, UpToDay(dayOf, amount, 0), (t: T) => 0.0);
      SumByZero(s);
    } else {
      assert v[..last - 1] == DayTotals(s, dayOf, amount, last - 1);
      DayTotalsSum(s, dayOf, amount, last - 1);
      SumByAdd(s, UpToDay(dayOf, amount, last - 1), OnDay(dayOf, amount, last), UpToDay(dayOf, amount, last));
    }
  }

  lemma {:induction false} SumByZero<T>(s: seq<T>)
    ensures SumBy(s, (t: T) => 0.0) == 0.0
    decreases |s|
  {
    if |s| > 0 {
      SumByZero(s[..|s| - 1]);
    }
  }

  /** A day no item falls on holds 0 in the series. */
  lemma DayTotalsZeroFilled<T>(s: seq<T>, dayOf: T -> Option<int>, amount: T -> real, last: nat, d: int)
    requires 1 <= d <= last
    requires forall t :: t in s ==> dayOf(t) != Some(d)
    ensures DayTotals(s, dayOf, amount, last)[d - 1] == 0.0
  {
    SumByCongruent(s, OnDay(dayOf, amount, d), (t: T) => 0.0);
    SumByZero(s);
  }

  // ---------------------------------------------------------------- running totals

  /** `cumsum`, by definition: entry i is the sum of the first i + 1 entries. */
  function PrefixSums(xs: seq<real>): (acc: seq<real>)
    ensures |acc| == |xs|
  {
    seq(|xs|, i requires 0 <= i < |xs| => Sum(xs[..i + 1]))
  }

  /** `cumsum` as a single pass with a running total. */
  method CumSum(xs: seq<real>) returns (acc: seq<real>)
    ensures acc == PrefixSums(xs)
    ensures |xs| > 0 ==> acc[|xs| - 1] == Sum(xs)
  {
    acc := [];
    var running := 0.0;
    var i := 0;
    while i < |xs|
      invariant 0 <= i <= |xs|
      invariant |acc| == i
      invariant running == Sum(xs[..i])
      invariant forall k :: 0 <= k < i ==> acc[k] == Sum(xs[..k + 1])
    {
      assert xs[..i + 1][..i] == xs[..i];
      running := running + xs[i];
      acc := acc + [running];
      i := i + 1;
    }
    assert |xs| > 0 ==> xs[..|xs|] == xs;
  }

  /** The running totals determine the daily amounts: differencing them gives the series back. */
  lemma PrefixSumsSteps(xs: seq<real>)
    ensures |xs| > 0 ==> PrefixSums(xs)[0] == xs[0]
    ensures forall i :: 0 < i < |xs| ==> PrefixSums(xs)[i] - PrefixSums(xs)[i - 1] == xs[i]
  {
    var acc := PrefixSums(xs);
    if |xs| > 0 {
      assert xs[..1][..0] == [] && xs[..1][0] == xs[0];
      assert Sum(xs[..1]) == Sum([]) + xs[0];
    }
    forall i | 0 < i < |xs| ensures acc[i] - acc[i - 1] == xs[i] {
      var p := xs[..i + 1];
      assert p[..i] == xs[..i] && p[i] == xs[i];
      assert Sum(p) == Sum(xs[..i]) + xs[i];
    }
  }

  /** Running totals of non-negative amounts never decrease. */
  lemma PrefixSumsMonotone(xs: seq<real>)
    requires forall i :: 0 <= i < |xs| ==> xs[i] >= 0.0
    ensures forall i, j :: 0 <= i <= j < |xs| ==> PrefixSums(xs)[i] <= PrefixSums(xs)[j]
  {
    var acc := PrefixSums(xs);
    PrefixSumsSteps(xs);
    forall i, j | 0 <= i <= j < |xs| ensures acc[i] <= acc[j] {
      PrefixSumsMonotoneFrom(xs, i, j);
    }
  }

  lemma {:induction false} PrefixSumsMonotoneFrom(xs: seq<real>, i: nat, j: nat)
    requires i <= j < |xs|
    requires forall k :: 0 <= k < |xs| ==> xs[k] >= 0.0
    requires forall k :: 0 < k < |xs| ==> PrefixSums(xs)[k] - PrefixSums(xs)[k - 1] == xs[k]
    ensures PrefixSums(xs)[i] <= PrefixSums(xs)[j]
    decreases j - i
  {
    if i < j {
      PrefixSumsMonotoneFrom(xs, i, j - 1);
    }
  }

  // ---------------------------------------------------------------- the daily chart

  /** Day numbers and the four series of the line chart; all empty when the payments file is
      absent. */
  datatype DailyChart = DailyChart(days: seq<int>, budget: seq<real>, income: seq<real>,
                                   budgetAcc: seq<real>, incomeAcc: seq<real>)

  /** A budget row's day of the month (the rows are already narrowed to one month). */
  function DueDay(): BudgetRow -> Option<int> {
    (r: BudgetRow) => if r.due.Some? then Some(r.due.value.day) else None
  }

  /** A payment's day when it was made in the given month: the series are keyed by full date. */
  function PaidDayIn(year: int, month: int): PaymentRow -> Option<int> {
    (p: PaymentRow) => if InMonth(p.paid, year, month) then Some(p.paid.value.day) else None
  }

  /** The line chart: budget and collections for every day of the current month, and their
      running totals. */
  method DailySeries(month: seq<BudgetRow>, ps: seq<PaymentRow>, today: Date) returns (c: DailyChart)
    requires ValidDate(today)
    ensures var last := DaysInMonth(today.year, today.month);
      && |c.days| == last && (forall i :: 0 <= i < last ==> c.days[i] == i + 1)
      && c.budget == DayTotals(month, DueDay(), TotalOf(), last)
      && c.income == DayTotals(ps, PaidDayIn(today.year, today.month), ValueOf(), last)
      && c.budgetAcc == PrefixSums(c.budget) && c.incomeAcc == PrefixSums(c.income)
  {
    var last := DaysInMonth(today.year, today.month);
    var budget := DayTotals(month, DueDay(), TotalOf(), last);
    var income := DayTotals(ps, PaidDayIn(today.year, today.month), ValueOf(), last);
    var budgetAcc := CumSum(budget);
    var incomeAcc := CumSum(income);
    c := DailyChart(seq(last, i requires 0 <= i < last => i + 1), budget, income, budgetAcc, incomeAcc);
  }

  /** With every due date a real date of the month, the budget's running total ends at the
      month's budget. */
  lemma BudgetSeriesEndsAtBudget(month: seq<BudgetRow>, year: int, m: int)
    requires 1 <= m <= 12
    requires forall r :: r in month ==> InMonth(r.due, year, m) && ValidDate(r.due.value)
    ensures var v := DayTotals(month, DueDay(), TotalOf(), DaysInMonth(year, m));
      PrefixSums(v)[|v| - 1] == SumBy(month, TotalOf())
  {
    var last := DaysInMonth(year, m);
    var v := DayTotals(month, DueDay(), TotalOf(), last);
    DayTotalsSum(month, DueDay(), TotalOf(), last);
    SumByCongruent(month, UpToDay(DueDay(), TotalOf(), last), TotalOf());
    assert v[..|v|] == v;
  }

  /** Payments are charted only on the days of the current month: the collections' running total
      ends at what was paid this month, not at the collections figure. */
  lemma IncomeSeriesEndsAtMonthPayments(ps: seq<PaymentRow>, year: int, m: int)
    requires 1 <= m <= 12
    requires forall p :: p in ps && p.paid.Some? ==> ValidDate(p.paid.value)
    ensures var v := DayTotals(ps, PaidDayIn(year, m), ValueOf(), DaysInMonth(year, m));
      PrefixSums(v)[|v| - 1] == SumBy(Filter(ps, PaidIn(year, m)), ValueOf())
  {
    var last := DaysInMonth(year, m);
    var v := DayTotals(ps, PaidDayIn(year, m), ValueOf(), last);
    DayTotalsSum(ps, PaidDayIn(year, m), ValueOf(), last);
    SumByFilter(ps, PaidIn(year, m), ValueOf());
    SumByCongruent(ps, UpToDay(PaidDayIn(year, m), ValueOf(), last), Masked(PaidIn(year, m), ValueOf()));
    assert v[..|v|] == v;
  }

  function PaidIn(year: int, month: int): PaymentRow -> bool {
    (p: PaymentRow) => InMonth(p.paid, year, month)
  }

  // ---------------------------------------------------------------- per-client day vectors

  /** A payment's day of the month, whatever its month: the per-client vectors group payments by
      day number only, so payments of other months land on the same days. */
  function PaidDay(): PaymentRow -> Option<int> {
    (p: PaymentRow) => if p.paid.Some? then Some(p.paid.value.day) else None
  }

  function BudgetOfClient(c: string): BudgetRow -> Option<int> {
    (r: BudgetRow) => if r.client == Some(c) && r.due.Some? then Some(r.due.value.day) else None
  }

  function PaymentOfClient(c: string): PaymentRow -> Option<int> {
    (p: PaymentRow) => if p.client == Some(c) && p.paid.Some? then Some(p.paid.value.day) else None
  }

  /** The clients with a dated budget row. */
  function BudgetClients(month: seq<BudgetRow>): set<string> {
    set r | r in month && r.client.Some? && r.due.Some? :: r.client.value
  }

  /** The clients with a dated payment. */
  function PaymentClients(ps: seq<PaymentRow>): set<string> {
    set p | p in ps && p.client.Some? && p.paid.Some? :: p.client.value
  }

  /** Per client, the month's budget by day of the month, `last` entries. */
  function BudgetVectors(month: seq<BudgetRow>, last: nat): (vs: map<string, seq<real>>)
    ensures vs.Keys == BudgetClients(month)
    ensures forall c :: c in vs ==> |vs[c]| == last
  {
    var clients := BudgetClients(month);
    map c | c in clients :: DayTotals(month, BudgetOfClient(c), TotalOf(), last)
  }

  /** Per client, the payments by day of the month, `last` entries. */
  function PaymentVectors(ps: seq<PaymentRow>, last: nat): (vs: map<string, seq<real>>)
    ensures vs.Keys == PaymentClients(ps)
    ensures forall c :: c in vs ==> |vs[c]| == last
  {
    var clients := PaymentClients(ps);
    map c | c in clients :: DayTotals(ps, PaymentOfClient(c), ValueOf(), last)
  }

  /** A client's budget vector holds, on each day, what that client has due on it. */
  lemma BudgetVectorEntries(month: seq<BudgetRow>, last: nat, c: string, d: int)
    requires c in BudgetClients(month) && 1 <= d <= last
    ensures BudgetVectors(month, last)[c][d - 1] == SumBy(Filter(month, DueOnFor(c, d)), TotalOf())
  {
    assert BudgetVectors(month, last)[c][d - 1] == SumBy(month, OnDay(BudgetOfClient(c), TotalOf(), d));
    SumByFilter(month, DueOnFor(c, d), TotalOf());
    forall r | r in month
      ensures OnDay(BudgetOfClient(c), TotalOf(), d)(r) == Masked(DueOnFor(c, d), TotalOf())(r)
    {
      assert BudgetOfClient(c)(r) == Some(d) <==> DueOnFor(c, d)(r);
    }
    SumByCongruent(month, OnDay(BudgetOfClient(c), TotalOf(), d), Masked(DueOnFor(c, d), TotalOf()));
  }

  /** ... and 0 on the days it has nothing due. */
  lemma BudgetVectorZeroFilled(month: seq<BudgetRow>, last: nat, c: string, d: int)
    requires c in BudgetClients(month) && 1 <= d <= last
    requires forall r :: r in month && r.client == Some(c) && r.due.Some? ==> r.due.value.day != d
    ensures BudgetVectors(month, last)[c][d - 1] == 0.0
  {
    forall r | r in month ensures BudgetOfClient(c)(r) != Some(d) {
      if r.client == Some(c) && r.due.Some? {
        assert r.due.value.day != d;
      }
    }
    DayTotalsZeroFilled(month, BudgetOfClient(c), TotalOf(), last, d);
  }

  function DueOnFor(c: string, d: int): BudgetRow -> bool {
    (r: BudgetRow) => r.client == Some(c) && r.due.Some? && r.due.value.day == d
  }

  /** With every due date a real date of the month, a client's budget vector adds up to the
      client's budget for the month. */
  lemma BudgetVectorTotal(month: seq<BudgetRow>, year: int, m: int, c: string)
    requires 1 <= m <= 12 && c in BudgetClients(month)
    requires forall r :: r in month ==> InMonth(r.due, year, m) && ValidDate(r.due.value)
    ensures Sum(BudgetVectors(month, DaysInMonth(year, m))[c]) == SumBy(Filter(month, OfClient(c)), TotalOf())
  {
    var last := DaysInMonth(year, m);
    var v := DayTotals(month, BudgetOfClient(c), TotalOf(), last);
    assert BudgetVectors(month, last)[c] == v;
    DayTotalsSum(month, BudgetOfClient(c), TotalOf(), last);
    SumByFilter(month, OfClient(c), TotalOf());
    ClientDaysInMonth(month, year, m, c);
    SumByCongruent(month, UpToDay(BudgetOfClient(c), TotalOf(), last), Masked(OfClient(c), TotalOf()));
  }

  lemma ClientDaysInMonth(month: seq<BudgetRow>, year: int, m: int, c: string)
    requires 1 <= m <= 12
    requires forall r :: r in month ==> InMonth(r.due, year, m) && ValidDate(r.due.value)
    ensures forall r :: r in month ==>
      UpToDay(BudgetOfClient(c), TotalOf(), DaysInMonth(year, m))(r) == Masked(OfClient(c), TotalOf())(r)
  {
    var last := DaysInMonth(year, m);
    forall r | r in month
      ensures UpToDay(BudgetOfClient(c), TotalOf(), last)(r) == Masked(OfClient(c), TotalOf())(r)
    {
      var d := r.due.value;
      assert d.month == m && d.year == year && 1 <= d.day <= last;
    }
  }

  function OfClient(c: string): BudgetRow -> bool {
    (r: BudgetRow) => r.client == Some(c)
  }

  /** A client's payment vector holds, on each day number, that client's payments made on that
      day of any month. */
  lemma PaymentVectorEntries(ps: seq<PaymentRow>, last: nat, c: string, d: int)
    requires c in PaymentClients(ps) && 1 <= d <= last
    ensures PaymentVectors(ps, last)[c][d - 1] == SumBy(Filter(ps, PaidOnFor(c, d)), ValueOf())
  {
    SumByFilter(ps, PaidOnFor(c, d), ValueOf());
    forall p | p in ps
      ensures OnDay(PaymentOfClient(c), ValueOf(), d)(p) == Masked(PaidOnFor(c, d), ValueOf())(p)
    {
      assert PaymentOfClient(c)(p) == Some(d) <==> PaidOnFor(c, d)(p);
    }
    SumByCongruent(ps, OnDay(PaymentOfClient(c), ValueOf(), d), Masked(PaidOnFor(c, d), ValueOf()));
  }

  function PaidOnFor(c: string, d: int): PaymentRow -> bool {
    (p: PaymentRow) => p.client == Some(c) && p.paid.Some? && p.paid.value.day == d
  }

  // ---------------------------------------------------------------- "as of yesterday"

  /** The cut-off day: yesterday's day number, but never before the first of the month. */
  function DiaAyer(today: int): (d: int)
    ensures d >= 1
    ensures today >= 1 ==> d <= today
    ensures d == today - 1 <==> today >= 2
    ensures d != today - 1 ==> d == 1
  {
    if today > 1 then today - 1 else 1
  }

  function DueBy(cut: int): BudgetRow -> bool {
    (r: BudgetRow) => r.due.Some? && r.due.value.day <= cut
  }

  /** The budget falling due up to the cut-off day. */
  function ActualBudget(month: seq<BudgetRow>, cut: int): real {
    SumBy(Filter(month, DueBy(cut)), TotalOf())
  }

  /** With non-negative amounts the budget to date lies between 0 and the month's budget, and
      grows with the cut-off day. */
  lemma ActualBudgetBounds(month: seq<BudgetRow>, cut: int, later: int)
    requires cut <= later
    requires forall r :: r in month ==> Coerce(r.total) >= 0.0
    ensures 0.0 <= ActualBudget(month, cut) <= ActualBudget(month, later) <= SumBy(month, TotalOf())
  {
    SumByFilter(month, DueBy(cut), TotalOf());
    SumByFilter(month, DueBy(later), TotalOf());
    SumByMono(month, (r: BudgetRow) => 0.0, Masked(DueBy(cut), TotalOf()));
    SumByZero(month);
    SumByMono(month, Masked(DueBy(cut), TotalOf()), Masked(DueBy(later), TotalOf()));
    SumByMono(month, Masked(DueBy(later), TotalOf()), TotalOf());
  }

  /** A cut-off at or after every due day takes in the whole month's budget. */
  lemma ActualBudgetWholeMonth(month: seq<BudgetRow>, cut: int)
    requires forall r :: r in month ==> r.due.Some? && r.due.value.day <= cut
    ensures ActualBudget(month, cut) == SumBy(month, TotalOf())
  {
    FilterAll(month, DueBy(cut));
  }

  // ---------------------------------------------------------------- guarded ratios

  /** `part / whole * 100` as the client table computes it: a zero whole gives infinity or NaN,
      which the table replaces by 0; a negative whole is divided by like any other. */
  function Ratio(part: real, whole: real): (r: real)
    ensures whole == 0.0 ==> r == 0.0
    ensures whole != 0.0 ==> r * whole == part * 100.0
  {
    if whole != 0.0 then part / whole * 100.0 else 0.0
  }

  /** The table's ratio and the headline percentage agree on positive wholes; only the headline
      guard turns a negative whole into 0. */
  lemma RatioVersusPercent(part: real, whole: real)
    ensures whole > 0.0 ==> Ratio(part, whole) == Percent(part, whole)
    ensures whole < 0.0 ==> Percent(part, whole) == 0.0 && (Ratio(part, whole) == 0.0 <==> part == 0.0)
  {
  }

  // ---------------------------------------------------------------- the client table

  /** One line of the client table. */
  datatype ClientLine = ClientLine(
    monthly: real,     // the client's budget for the month under this name
    actual: real,      // the client's budget due up to the cut-off day (all names)
    received: real,    // everything the client paid, any date
    deviation: real,
    effActual: real,
    effMonthly: real)

  function OfClientName(c: string, n: string): BudgetRow -> bool {
    (r: BudgetRow) => r.client == Some(c) && r.name == Some(n)
  }

  function PaidBy(c: string): PaymentRow -> bool {
    (p: PaymentRow) => p.client == Some(c)
  }

  /** The (client, name) pairs of the month's rows: rows missing either are not grouped. */
  function ClientNames(month: seq<BudgetRow>): set<(string, string)> {
    set r | r in month && r.client.Some? && r.name.Some? :: (r.client.value, r.name.value)
  }

  function LineOf(month: seq<BudgetRow>, ps: seq<PaymentRow>, cut: int, c: string, n: string): (l: ClientLine)
    ensures l.monthly == SumBy(Filter(month, OfClientName(c, n)), TotalOf())
    ensures l.actual == ActualBudget(Filter(month, OfClient(c)), cut)
    ensures l.received == SumBy(Filter(ps, PaidBy(c)), ValueOf())
    ensures l.deviation == l.received - l.actual
    ensures l.effActual == Ratio(l.received, l.actual) && l.effMonthly == Ratio(l.received, l.monthly)
  {
    var monthly := SumBy(Filter(month, OfClientName(c, n)), TotalOf());
    var actual := ActualBudget(Filter(month, OfClient(c)), cut);
    var received := SumBy(Filter(ps, PaidBy(c)), ValueOf());
    ClientLine(monthly, actual, received, received - actual, Ratio(received, actual), Ratio(received, monthly))
  }

  /** The client table: one line per (client, name) of the month's budget. */
  function ClientTable(month: seq<BudgetRow>, ps: seq<PaymentRow>, cut: int): (t: map<(string, string), ClientLine>)
    ensures t.Keys == ClientNames(month)
  {
    var keys := ClientNames(month);
    map k | k in keys :: LineOf(month, ps, cut, k.0, k.1)
  }

  /** For a client written under a single name, the budget to date never exceeds the monthly
      budget on its line when amounts are non-negative. */
  lemma ActualWithinMonthly(month: seq<BudgetRow>, ps: seq<PaymentRow>, cut: int, c: string, n: string)
    requires (c, n) in ClientNames(month)
    requires forall r :: r in month ==> Coerce(r.total) >= 0.0
    requires forall r :: r in month && r.client == Some(c) ==> r.name == Some(n)
    ensures var l := ClientTable(month, ps, cut)[(c, n)]; 0.0 <= l.actual <= l.monthly
  {
    var mine := Filter(month, OfClient(c));
    assert Filter(month, OfClientName(c, n)) == mine by {
      FilterSame(month, OfClientName(c, n), OfClient(c));
    }
    ActualBudgetBounds(mine, cut, cut);
  }

  /** With every due date a real date of the month, a table line's budget to date is the client's
      day vector accumulated up to the cut-off day: the table and the vectors agree. */
  lemma TableMatchesVectors(month: seq<BudgetRow>, ps: seq<PaymentRow>, year: int, m: int, cut: int,
                            c: string, n: string)
    requires 1 <= m <= 12 && 1 <= cut <= DaysInMonth(year, m)
    requires forall r :: r in month ==> InMonth(r.due, year, m) && ValidDate(r.due.value)
    requires (c, n) in ClientNames(month)
    ensures c in BudgetVectors(month, DaysInMonth(year, m))
    ensures ClientTable(month, ps, cut)[(c, n)].actual
         == PrefixSums(BudgetVectors(month, DaysInMonth(year, m))[c])[cut - 1]
  {
    NamedClientHasVector(month, c, n);
    VectorPrefix(month, DaysInMonth(year, m), cut, c);
    ActualIsClientUpToDay(month, cut, c);
    assert ClientTable(month, ps, cut)[(c, n)] == LineOf(month, ps, cut, c, n);
  }

  lemma NamedClientHasVector(month: seq<BudgetRow>, c: string, n: string)
    requires forall r :: r in month ==> r.due.Some?
    requires (c, n) in ClientNames(month)
    ensures c in BudgetClients(month)
  {
    var r0 :| r0 in month && r0.client.Some? && r0.name.Some? && (r0.client.value, r0.name.value) == (c, n);
    assert r0.client.value in BudgetClients(month);
  }

  /** A client's vector accumulated up to a day is the client's amounts dated on days 1..that day. */
  lemma VectorPrefix(month: seq<BudgetRow>, last: nat, cut: int, c: string)
    requires c in BudgetClients(month) && 1 <= cut <= last
    ensures PrefixSums(BudgetVectors(month, last)[c])[cut - 1] == SumBy(month, UpToDay(BudgetOfClient(c), TotalOf(), cut))
  {
    var v := BudgetVectors(month, last)[c];
    assert v == DayTotals(month, BudgetOfClient(c), TotalOf(), last);
    assert v[..cut] == DayTotals(month, BudgetOfClient(c), TotalOf(), cut);
    DayTotalsSum(month, BudgetOfClient(c), TotalOf(), cut);
  }

  /** A client's budget to date, read off the rows as a running total of its dated amounts. */
  lemma ActualIsClientUpToDay(month: seq<BudgetRow>, cut: int, c: string)
    requires forall r :: r in month ==> r.due.Some? && 1 <= r.due.value.day
    ensures ActualBudget(Filter(month, OfClient(c)), cut) == SumBy(month, UpToDay(BudgetOfClient(c), TotalOf(), cut))
  {
    var mine := Filter(month, OfClient(c));
    SumByFilter(mine, DueBy(cut), TotalOf());
    SumByFilter(month, OfClient(c), Masked(DueBy(cut), TotalOf()));
    forall r | r in month
      ensures UpToDay(BudgetOfClient(c), TotalOf(), cut)(r) == Masked(OfClient(c), Masked(DueBy(cut), TotalOf()))(r)
    {
    }
    SumByCongruent(month, UpToDay(BudgetOfClient(c), TotalOf(), cut), Masked(OfClient(c), Masked(DueBy(cut), TotalOf())));
  }

  /** Two selections that agree on every row select the same rows. */
  lemma {:induction false} FilterSame<T(!new)>(s: seq<T>, p: T -> bool, q: T -> bool)
    requires forall x :: x in s ==> p(x) == q(x)
    ensures Filter(s, p) == Filter(s, q)
    decreases |s|
  {
    if |s| > 0 {
      var init := s[..|s| - 1];
      assert forall x :: x in init ==> x in s;
      FilterSame(init, p, q);
    }
  }

  // ---------------------------------------------------------------- the view

  /** The headline figures of the view. */
  datatype DetalleKpis = DetalleKpis(
    ingresos: real,
    presupuesto: real,
    desviacion: real,
    efectividad: real,
    presupuestoActual: real,
    ingresosActual: real,
    desviacionActual: real,
    ejecucionActual: real)

  datatype DetalleReport = DetalleReport(
    kpis: DetalleKpis,
    chart: DailyChart,
    paymentVectors: map<string, seq<real>>,
    budgetVectors: map<string, seq<real>>,
    table: map<(string, string), ClientLine>)

  /** The month's budget rows; none when the projected-collections file is absent. */
  function MonthOf(budget: Option<seq<BudgetRow>>, today: Date): seq<BudgetRow> {
    if budget.Some? then MonthRows(budget.value, today.year, today.month) else []
  }

  /** The headline figures. The "as of yesterday" figures need the payments file; the budget file
      being absent then aborts the view after the vectors, leaving the later figures at 0. The
      collections "as of yesterday" are set to the collections on every path, after the abort. */
  function KpisOf(budget: Option<seq<BudgetRow>>, payments: Option<seq<PaymentRow>>, today: Date): (k: DetalleKpis)
    ensures k.presupuesto == SumBy(MonthOf(budget, today), TotalOf())
    ensures payments.None? ==> k.ingresos == 0.0
    ensures payments.Some? ==> k.ingresos == SumBy(payments.value, ValueOf())
    ensures budget.Some? || payments.None? ==>
      k.desviacion == k.ingresos - k.presupuesto && k.efectividad == Percent(k.ingresos, k.presupuesto)
    ensures k.ingresosActual == k.ingresos
    ensures budget.Some? && payments.Some? ==>
      && k.presupuestoActual == ActualBudget(MonthOf(budget, today), DiaAyer(today.day))
      && k.desviacionActual == k.ingresos - k.presupuestoActual
      && k.ejecucionActual == Percent(k.ingresos, k.presupuestoActual)
    ensures budget.None? && payments.Some? ==>
      k.desviacion == 0.0 && k.efectividad == 0.0 && k.presupuestoActual == 0.0
      && k.desviacionActual == 0.0 && k.ejecucionActual == 0.0
    ensures payments.None? ==>
      k.presupuestoActual == 0.0 && k.desviacionActual == 0.0 && k.ejecucionActual == 0.0
  {
    var month := MonthOf(budget, today);
    var presupuesto := SumBy(month, TotalOf());
    var ingresos := if payments.Some? then SumBy(payments.value, ValueOf()) else 0.0;
    if payments.Some? && budget.None? then
      DetalleKpis(ingresos, presupuesto, 0.0, 0.0, 0.0, ingresos, 0.0, 0.0)
    else if payments.Some? then
      var actual := ActualBudget(month, DiaAyer(today.day));
      DetalleKpis(ingresos, presupuesto, ingresos - presupuesto, Percent(ingresos, presupuesto),
        actual, ingresos, ingresos - actual, Percent(ingresos, actual))
    else
      DetalleKpis(ingresos, presupuesto, ingresos - presupuesto, Percent(ingresos, presupuesto),
        0.0, ingresos, 0.0, 0.0)
  }

  /** With both files present and real due dates, the headline budget is where the chart's budget
      line ends; with non-negative amounts the budget to date lies between 0 and it. */
  lemma KpisMatchChart(budget: seq<BudgetRow>, payments: seq<PaymentRow>, today: Date)
    requires ValidDate(today)
    requires forall r :: r in budget && r.due.Some? ==> ValidDate(r.due.value)
    ensures var k := KpisOf(Some(budget), Some(payments), today);
      var v := DayTotals(MonthOf(Some(budget), today), DueDay(), TotalOf(), DaysInMonth(today.year, today.month));
      k.presupuesto == PrefixSums(v)[|v| - 1]
    ensures (forall r :: r in budget ==> Coerce(r.total) >= 0.0) ==>
      var k := KpisOf(Some(budget), Some(payments), today);
      0.0 <= k.presupuestoActual <= k.presupuesto
  {
    var month := MonthOf(Some(budget), today);
    BudgetSeriesEndsAtBudget(month, today.year, today.month);
    if forall r :: r in budget ==> Coerce(r.total) >= 0.0 {
      var cut := DiaAyer(today.day);
      ActualBudgetBounds(month, cut, cut);
    }
  }

  /** `detalle_analisis` for a given date: the projected-collections and payments files (None
      when absent) turned into the figures, chart, vectors and table of the view. */
  method DetalleAnalisis(budget: Option<seq<BudgetRow>>, payments: Option<seq<PaymentRow>>, today: Date)
    returns (rep: DetalleReport)
    requires ValidDate(today)
    ensures rep.kpis == KpisOf(budget, payments, today)
    ensures payments.None? ==>
      && rep.chart == DailyChart([], [], [], [], [])
      && rep.paymentVectors == map[] && rep.budgetVectors == map[] && rep.table == map[]
    ensures payments.Some? ==> var last := DaysInMonth(today.year, today.month);
      && |rep.chart.days| == last
      && rep.chart.budget == DayTotals(MonthOf(budget, today), DueDay(), TotalOf(), last)
      && rep.chart.income == DayTotals(payments.value, PaidDayIn(today.year, today.month), ValueOf(), last)
      && rep.chart.budgetAcc == PrefixSums(rep.chart.budget)
      && rep.chart.incomeAcc == PrefixSums(rep.chart.income)
      && rep.paymentVectors == PaymentVectors(payments.value, last)
      && rep.budgetVectors == BudgetVectors(MonthOf(budget, today), last)
    ensures payments.Some? && budget.Some? ==>
      rep.table == ClientTable(MonthOf(budget, today), payments.value, DiaAyer(today.day))
    ensures budget.None? ==> rep.table == map[]
  {
    var month := MonthOf(budget, today);
    var kpis := KpisOf(budget, payments, today);
    if payments.None? {
      return DetalleReport(kpis, DailyChart([], [], [], [], []), map[], map[], map[]);
    }
    var ps := payments.value;
    var last := DaysInMonth(today.year, today.month);
    var chart := DailySeries(month, ps, today);
    var table := if budget.Some? then ClientTable(month, ps, DiaAyer(today.day)) else map[];
    rep := DetalleReport(kpis, chart, PaymentVectors(ps, last), BudgetVectors(month, last), table);
  }
}
