/** The portfolio report (`procesar_informacion`): the pending rows of the master file, optionally
    narrowed to one city, with the overdue-balance rule, the headline figures and the three charts
    (balance per aging bucket, balance per city, overdue balance per city). */
module Informe {
  import opened Common
  import opened Text
  import opened Ranking
  import GestionClientes
  import GestionRecaudo

  /** One row of the master file as this report reads it. Numeric cells are already coerced
      except NIT, which is kept as read. */
  datatype PortfolioRow = PortfolioRow(
    estado: Option<string>,
    city: Option<string>,
    franjaCyres: Option<string>,
    franjaCoca: Option<string>,
    nit: Option<real>,
    total: Option<real>,     // TOTAL CARTERA
    diasMora: Option<real>)  // DIAS_MORA

  const Pending: string := "PENDIENTE"

  /** The city selector meaning "no filter". */
  const AllCities: string := "Todas"

  /** The view selector choosing the Coca-Cola aging column. */
  const CocaView: string := "coca-cola"

  /** This report keeps the rows whose state upper-cases to "PENDIENTE" (no trimming); an empty
      state reads as the text "nan" and never matches. */
  predicate IsPending(r: PortfolioRow) {
    r.estado.Some? && Upper(r.estado.value) == Pending
  }

  /** Whether the city selector narrows the report: a missing or empty selector and "Todas" do not. */
  predicate Narrows(cityFilter: Option<string>) {
    cityFilter.Some? && cityFilter.value != "" && cityFilter.value != AllCities
  }

  function PendingRow(): PortfolioRow -> bool {
    (r: PortfolioRow) => IsPending(r)
  }

  function InCity(c: string): PortfolioRow -> bool {
    (r: PortfolioRow) => r.city == Some(c)
  }

  /** The rows the report is computed from. */
  function Selected(rows: seq<PortfolioRow>, cityFilter: Option<string>): (s: seq<PortfolioRow>)
    ensures !Narrows(cityFilter) ==> forall r :: r in s <==> r in rows && IsPending(r)
    ensures Narrows(cityFilter) ==> forall r :: r in s <==> r in rows && IsPending(r) && r.city == cityFilter
  {
    var pending := Filter(rows, PendingRow());
    if Narrows(cityFilter) then Filter(pending, InCity(cityFilter.value)) else pending
  }

  /** The city list offered by the filter: every city named anywhere in the file, pending or not. */
  function Cities(rows: seq<PortfolioRow>): set<string> {
    set r | r in rows && r.city.Some? :: r.city.value
  }

  // ---------------------------------------------------------------- amounts

  /** `SALDO_ES_VENCIDO`: the row's balance when it is at least one day past due, else 0. */
  function Overdue(r: PortfolioRow): real {
    if Coerce(r.diasMora) >= 1.0 then Coerce(r.total) else 0.0
  }

  predicate IsOverdue(r: PortfolioRow) {
    Coerce(r.diasMora) >= 1.0
  }

  function TotalOf(): PortfolioRow -> real {
    (r: PortfolioRow) => Coerce(r.total)
  }

  function OverdueOf(): PortfolioRow -> real {
    (r: PortfolioRow) => Overdue(r)
  }

  function OverdueRow(): PortfolioRow -> bool {
    (r: PortfolioRow) => IsOverdue(r)
  }

  /** The overdue total is the balance of the overdue rows: the row rule moves a row's whole
      balance or nothing. */
  lemma OverdueColumn(rows: seq<PortfolioRow>)
    ensures SumBy(rows, OverdueOf()) == SumBy(Filter(rows, OverdueRow()), TotalOf())
  {
    SumByFilter(rows, OverdueRow(), TotalOf());
    SumByCongruent(rows, OverdueOf(), Masked(OverdueRow(), TotalOf()));
  }

  /** With non-negative balances the overdue total lies between 0 and the portfolio total. */
  lemma {:induction false} OverdueBounded(rows: seq<PortfolioRow>)
    requires forall r :: r in rows ==> Coerce(r.total) >= 0.0
    ensures 0.0 <= SumBy(rows, OverdueOf()) <= SumBy(rows, TotalOf())
    decreases |rows|
  {
    if |rows| > 0 {
      var init := rows[..|rows| - 1];
      assert rows == init + [rows[|rows| - 1]];
      OverdueBounded(init);
    }
  }

  // ---------------------------------------------------------------- grouped charts

  /** The rows that form a group under `key` (pandas' `groupby` drops rows whose key is empty). */
  function Keyed(rows: seq<PortfolioRow>, key: PortfolioRow -> Option<string>): seq<PortfolioRow> {
    Filter(rows, (r: PortfolioRow) => key(r).Some?)
  }

  /** The (group, amount) rows a `groupby(key)[amount].sum()` adds up. */
  function KeyedEntries(rows: seq<PortfolioRow>, key: PortfolioRow -> Option<string>,
                        amount: PortfolioRow -> real): (es: seq<Entry>)
    ensures Labels(es) == set r | r in rows && key(r).Some? :: key(r).value
  {
    if |rows| == 0 then []
    else
      var init := rows[..|rows| - 1];
      var last := rows[|rows| - 1];
      assert rows == init + [last];
      var prev := KeyedEntries(init, key, amount);
      var tail := if key(last).Some? then [Entry(key(last).value, amount(last))] else [];
      LabelsAppend(prev, tail);
      prev + tail
  }

  lemma LabelsAppend(a: seq<Entry>, b: seq<Entry>)
    ensures Labels(a + b) == Labels(a) + Labels(b)
  {
    assert forall e :: e in a + b <==> e in a || e in b;
  }

  /** A grouped chart adds up exactly the amounts of the rows that have a group. */
  lemma {:induction false} KeyedTotal(rows: seq<PortfolioRow>, key: PortfolioRow -> Option<string>,
                                      amount: PortfolioRow -> real)
    ensures Total(KeyedEntries(rows, key, amount)) == SumBy(Keyed(rows, key), amount)
    decreases |rows|
  {
    if |rows| > 0 {
      var init := rows[..|rows| - 1];
      var last := rows[|rows| - 1];
      KeyedTotal(init, key, amount);
      var tail := if key(last).Some? then [Entry(key(last).value, amount(last))] else [];
      TotalConcat(KeyedEntries(init, key, amount), tail);
      var f := Keyed(init, key);
      assert rows == init + [last];
      assert Keyed(rows, key) == f + (if key(last).Some? then [last] else []);
      if key(last).Some? {
        SumBySnoc(f, last, amount);
      } else {
        assert f + [] == f;
      }
    }
  }

  /** The rows of group `l` under `key`. */
  function InGroup(key: PortfolioRow -> Option<string>, l: string): PortfolioRow -> bool {
    (r: PortfolioRow) => key(r) == Some(l)
  }

  /** What a group collects in `groupby(key)[amount].sum()` is the amount summed over that
      group's rows. */
  lemma {:induction false} KeyedLabelSum(rows: seq<PortfolioRow>, key: PortfolioRow -> Option<string>,
                                         amount: PortfolioRow -> real, l: string)
    ensures LabelSum(KeyedEntries(rows, key, amount), l) == SumBy(Filter(rows, InGroup(key, l)), amount)
    decreases |rows|
  {
    if |rows| > 0 {
      KeyedLabelSum(rows[..|rows| - 1], key, amount, l);
      KeyedEntriesStep(rows, key, amount, l);
      FilteredSumStep(rows, InGroup(key, l), amount);
    }
  }

  /** The last row adds its amount to its own group's bar and nothing to the others. */
  lemma KeyedEntriesStep(rows: seq<PortfolioRow>, key: PortfolioRow -> Option<string>,
                         amount: PortfolioRow -> real, l: string)
    requires |rows| > 0
    ensures LabelSum(KeyedEntries(rows, key, amount), l) ==
      LabelSum(KeyedEntries(rows[..|rows| - 1], key, amount), l)
      + (if key(rows[|rows| - 1]) == Some(l) then amount(rows[|rows| - 1]) else 0.0)
  {
    var last := rows[|rows| - 1];
    var prev := KeyedEntries(rows[..|rows| - 1], key, amount);
    if key(last).Some? {
      var e := Entry(key(last).value, amount(last));
      assert KeyedEntries(rows, key, amount) == prev + [e];
      assert (prev + [e])[..|prev|] == prev;
    } else {
      assert KeyedEntries(rows, key, amount) == prev + [];
      assert prev + [] == prev;
    }
  }

  function CityOf(): PortfolioRow -> Option<string> {
    (r: PortfolioRow) => r.city
  }

  /** The aging column the view selects: Coca-Cola's for "coca-cola", Cyres' otherwise. */
  function FranjaOf(view: string): PortfolioRow -> Option<string> {
    (r: PortfolioRow) => if view == CocaView then r.franjaCoca else r.franjaCyres
  }

  // ---------------------------------------------------------------- NIT count

  /** `astype(float).astype(int)`: truncation toward zero. */
  function TruncateTowardZero(x: real): (n: int)
    ensures 0.0 <= x ==> 0 <= n && n as real <= x < n as real + 1.0
    ensures x < 0.0 ==> n <= 0 && n as real - 1.0 < x <= n as real
  {
    if x >= 0.0 then x.Floor else -((-x).Floor)
  }

  /** The NIT a row is counted under: an empty NIT counts as 0, which is then shown blank and
      still counted as one more distinct value. */
  function NitKey(r: PortfolioRow): int {
    TruncateTowardZero(r.nit.GetOr(0.0))
  }

  /** `nunique()` of the cleaned NIT column. */
  function DistinctNits(rows: seq<PortfolioRow>): (n: nat)
    ensures n == |set r | r in rows :: NitKey(r)|
    ensures n <= |rows|
    ensures |rows| > 0 ==> n >= 1
  {
    var nits := set r | r in rows :: NitKey(r);
    NitBound(rows);
    |nits|
  }

  /** One more row adds one to the count exactly when no earlier row has its NIT. */
  lemma DistinctNitsSnoc(rows: seq<PortfolioRow>, x: PortfolioRow)
    ensures (exists r :: r in rows && NitKey(r) == NitKey(x)) ==> DistinctNits(rows + [x]) == DistinctNits(rows)
    ensures (forall r :: r in rows ==> NitKey(r) != NitKey(x)) ==> DistinctNits(rows + [x]) == DistinctNits(rows) + 1
  {
    var before := set r | r in rows :: NitKey(r);
    assert (set r | r in rows + [x] :: NitKey(r)) == before + {NitKey(x)} by {
      assert forall y :: y in rows + [x] <==> y in rows || y == x;
    }
    if exists r :: r in rows && NitKey(r) == NitKey(x) {
      var r :| r in rows && NitKey(r) == NitKey(x);
      assert NitKey(x) in before;
      assert before + {NitKey(x)} == before;
    }
  }

  lemma {:induction false} NitBound(rows: seq<PortfolioRow>)
    ensures |set r | r in rows :: NitKey(r)| <= |rows|
    ensures |rows| > 0 ==> |set r | r in rows :: NitKey(r)| >= 1
    decreases |rows|
  {
    if |rows| > 0 {
      var init := rows[..|rows| - 1];
      var last := rows[|rows| - 1];
      assert rows == init + [last];
      NitBound(init);
      assert (set r | r in rows :: NitKey(r)) == (set r | r in init :: NitKey(r)) + {NitKey(last)};
    }
  }

  // ---------------------------------------------------------------- payments total

  /** The collections figure: every payment amount coerced and summed, refunds included; 0 when
      the payments file is absent. */
  function RecaudoTotal(values: Option<seq<Option<real>>>): real {
    match values
    case None => 0.0
    case Some(vs) => CoercedSum(vs)
  }

  function CoercedSum(vs: seq<Option<real>>): real {
    if |vs| == 0 then 0.0 else Coerce(vs[0]) + CoercedSum(vs[1..])
  }

  function AmountsOf(ps: seq<GestionRecaudo.Payment>): seq<Option<real>> {
    seq(|ps|, i requires 0 <= i < |ps| => ps[i].value)
  }

  /** The headline collections figure never exceeds what the collections ranking distributes,
      since the ranking drops non-positive amounts; the two agree when every amount is positive. */
  lemma {:induction false} RecaudoWithinCollected(ps: seq<GestionRecaudo.Payment>)
    ensures RecaudoTotal(Some(AmountsOf(ps))) <= GestionRecaudo.Collected(ps)
    ensures (forall p :: p in ps ==> GestionRecaudo.IsCollected(p)) ==>
      RecaudoTotal(Some(AmountsOf(ps))) == GestionRecaudo.Collected(ps)
    decreases |ps|
  {
    if |ps| > 0 {
      assert AmountsOf(ps)[1..] == AmountsOf(ps[1..]);
      assert forall p :: p in ps[1..] ==> p in ps;
      RecaudoWithinCollected(ps[1..]);
    }
  }

  // ---------------------------------------------------------------- the report

  /** The headline figures of the report. */
  datatype Headline = Headline(
    totalCartera: real,
    vencida: real,
    morosidad: real,   // overdue share of the portfolio, in percent
    clientes: nat)     // distinct NITs

  datatype InformeReport = InformeReport(
    cities: set<string>,
    headline: Headline,
    recaudo: real,
    donut: seq<Entry>,         // balance per aging bucket
    cityRanking: seq<Entry>,   // balance per city, top ten plus "Otras"
    moraRanking: seq<Entry>)   // overdue balance per city, top ten plus "Otras"

  /** `procesar_informacion`: the report for a view ("coca-cola" or any other text for Cyres), an
      optional city selector and the payment amounts (None when the payments file is absent). */
  function ProcesarInformacion(rows: seq<PortfolioRow>, view: string, cityFilter: Option<string>,
                               payments: Option<seq<Option<real>>>): (rep: InformeReport)
    ensures var s := Selected(rows, cityFilter);
      && rep.cities == Cities(rows) && rep.recaudo == RecaudoTotal(payments)
      && rep.headline == HeadlineOf(s)
      && rep.donut == Donut(s, view)
      && rep.cityRanking == CityChart(s, TotalOf()) && rep.moraRanking == CityChart(s, OverdueOf())
  {
    var s := Selected(rows, cityFilter);
    InformeReport(Cities(rows), HeadlineOf(s), RecaudoTotal(payments),
      Donut(s, view), CityChart(s, TotalOf()), CityChart(s, OverdueOf()))
  }

  /** The portfolio and overdue totals of the selected rows, the delinquency rate (0 for a
      portfolio without positive balance) and the number of distinct NITs. */
  function HeadlineOf(s: seq<PortfolioRow>): (h: Headline)
    ensures h.totalCartera == SumBy(s, TotalOf())
    ensures h.vencida == SumBy(Filter(s, OverdueRow()), TotalOf())
    ensures h.totalCartera <= 0.0 ==> h.morosidad == 0.0
    ensures h.morosidad == Percent(h.vencida, h.totalCartera)
    ensures h.clientes == |set r | r in s :: NitKey(r)|
    ensures h.clientes <= |s| && (|s| > 0 ==> h.clientes >= 1)
  {
    var total := SumBy(s, TotalOf());
    var vencida := SumBy(s, OverdueOf());
    OverdueColumn(s);
    Headline(total, vencida, Percent(vencida, total), DistinctNits(s))
  }

  /** The aging-bucket chart: one slice per bucket named in the selected column, holding the
      balance of the rows in that bucket. */
  function Donut(s: seq<PortfolioRow>, view: string): (d: seq<Entry>)
    ensures DistinctLabels(d)
    ensures Labels(d) == (set r | r in s && FranjaOf(view)(r).Some? :: FranjaOf(view)(r).value)
    ensures forall k :: 0 <= k < |d| ==>
      d[k].value == SumBy(Filter(s, InGroup(FranjaOf(view), d[k].name)), TotalOf())
    ensures Total(d) == SumBy(Keyed(s, FranjaOf(view)), TotalOf())
  {
    KeyedTotal(s, FranjaOf(view), TotalOf());
    var d := GroupSum(KeyedEntries(s, FranjaOf(view), TotalOf()));
    forall k | 0 <= k < |d|
      ensures d[k].value == SumBy(Filter(s, InGroup(FranjaOf(view), d[k].name)), TotalOf())
    {
      KeyedLabelSum(s, FranjaOf(view), TotalOf(), d[k].name);
    }
    d
  }

  /** A city chart: an amount summed per city, largest first, collapsed after the tenth city.
      Each of the first ten bars is a city of the rows holding that city's amount, and nothing is
      lost: the bars add up to the amount of the rows that have a city. */
  function CityChart(s: seq<PortfolioRow>, amount: PortfolioRow -> real): (c: seq<Entry>)
    ensures Total(c) == SumBy(Keyed(s, CityOf()), amount) && |c| <= TopCount + 1
    ensures forall k :: 0 <= k < |c| && k < TopCount ==>
      c[k].name in Cities(s) && c[k].value == SumBy(Filter(s, InGroup(CityOf(), c[k].name)), amount)
    ensures forall i, j :: 0 <= i < j < |c| && j < TopCount ==> c[i].value >= c[j].value
    ensures forall i, j :: 0 <= i < j < |c| && j < TopCount ==> c[i].name != c[j].name
  {
    var c := TopRanking(KeyedEntries(s, CityOf(), amount));
    KeyedTotal(s, CityOf(), amount);
    CityBars(s, amount);
    c
  }

  /** The named bars of a city chart: cities of the rows, each with its amount. */
  lemma CityBars(s: seq<PortfolioRow>, amount: PortfolioRow -> real)
    ensures var c := TopRanking(KeyedEntries(s, CityOf(), amount));
      forall k :: 0 <= k < |c| && k < TopCount ==>
        c[k].name in Cities(s) && c[k].value == SumBy(Filter(s, InGroup(CityOf(), c[k].name)), amount)
  {
    var es := KeyedEntries(s, CityOf(), amount);
    var c := TopRanking(es);
    assert Labels(es) == Cities(s);
    forall k | 0 <= k < |c| && k < TopCount
      ensures c[k].name in Cities(s) && c[k].value == SumBy(Filter(s, InGroup(CityOf(), c[k].name)), amount)
    {
      KeyedLabelSum(s, CityOf(), amount, c[k].name);
    }
  }

  /** With more than ten cities the chart has eleven bars, the last one "Otras" holding what the
      ten named cities leave of the total. */
  lemma ManyCitiesOthers(s: seq<PortfolioRow>, amount: PortfolioRow -> real)
    requires |Cities(s)| > TopCount
    ensures var c := CityChart(s, amount);
      |c| == TopCount + 1 && c[TopCount] == Entry(Others, SumBy(Keyed(s, CityOf()), amount) - Total(c[..TopCount]))
  {
    var es := KeyedEntries(s, CityOf(), amount);
    assert Labels(es) == Cities(s);
    KeyedTotal(s, CityOf(), amount);
    TopRankingManyLabels(es);
    assert CityChart(s, amount) == TopRanking(es);
  }

  /** With more than ten cities, no city gathered into "Otras" has a larger amount than the tenth
      bar. */
  lemma ManyCitiesUnshown(s: seq<PortfolioRow>, amount: PortfolioRow -> real)
    requires |Cities(s)| > TopCount
    ensures var c := CityChart(s, amount);
      |c| == TopCount + 1 &&
      forall l :: l in Cities(s) && l !in Labels(c[..TopCount]) ==>
        SumBy(Filter(s, InGroup(CityOf(), l)), amount) <= c[TopCount - 1].value
  {
    var es := KeyedEntries(s, CityOf(), amount);
    assert Labels(es) == Cities(s);
    TopRankingManyLabels(es);
    UnshownCities(s, amount, TopRanking(es));
    assert CityChart(s, amount) == TopRanking(es);
  }

  lemma UnshownCities(s: seq<PortfolioRow>, amount: PortfolioRow -> real, c: seq<Entry>)
    requires |c| == TopCount + 1
    requires forall l :: l in Labels(KeyedEntries(s, CityOf(), amount)) && l !in Labels(c[..TopCount]) ==>
      LabelSum(KeyedEntries(s, CityOf(), amount), l) <= c[TopCount - 1].value
    ensures forall l :: l in Cities(s) && l !in Labels(c[..TopCount]) ==>
      SumBy(Filter(s, InGroup(CityOf(), l)), amount) <= c[TopCount - 1].value
  {
    assert Labels(KeyedEntries(s, CityOf(), amount)) == Cities(s);
    forall l | l in Cities(s) && l !in Labels(c[..TopCount])
      ensures SumBy(Filter(s, InGroup(CityOf(), l)), amount) <= c[TopCount - 1].value
    {
      KeyedLabelSum(s, CityOf(), amount, l);
    }
  }



  /** With non-negative balances the delinquency rate is a percentage between 0 and 100. */
  lemma MorosidadBounded(rows: seq<PortfolioRow>, view: string, cityFilter: Option<string>,
                         payments: Option<seq<Option<real>>>)
    requires forall r :: r in rows ==> Coerce(r.total) >= 0.0
    ensures 0.0 <= ProcesarInformacion(rows, view, cityFilter, payments).headline.morosidad <= 100.0
  {
    var s := Selected(rows, cityFilter);
    OverdueBounded(s);
    PercentBounds(SumBy(s, OverdueOf()), SumBy(s, TotalOf()));
  }

  /** Narrowed to one city, each city chart has at most one bar, named after that city. */
  lemma NarrowedToOneCity(rows: seq<PortfolioRow>, view: string, cityFilter: Option<string>,
                          payments: Option<seq<Option<real>>>)
    requires Narrows(cityFilter)
    ensures var rep := ProcesarInformacion(rows, view, cityFilter, payments);
      && (Labels(rep.cityRanking) <= {cityFilter.value}) && (|rep.cityRanking| <= 1)
      && (Labels(rep.moraRanking) <= {cityFilter.value}) && (|rep.moraRanking| <= 1)
  {
    var s := Selected(rows, cityFilter);
    var cities := set r | r in s && CityOf()(r).Some? :: CityOf()(r).value;
    assert cities <= {cityFilter.value};
    assert |cities| <= 1 by {
      if cities != {} {
        assert cities == {cityFilter.value};
      }
    }
    TopRankingFewLabels(KeyedEntries(s, CityOf(), TotalOf()));
    TopRankingFewLabels(KeyedEntries(s, CityOf(), OverdueOf()));
  }

  /** Every city with a pending row gets its own bar as long as there are at most ten of them. */
  lemma FewCitiesAllShown(rows: seq<PortfolioRow>, view: string, cityFilter: Option<string>,
                          payments: Option<seq<Option<real>>>)
    requires var s := Selected(rows, cityFilter);
      |set r | r in s && CityOf()(r).Some? :: CityOf()(r).value| <= TopCount
    ensures var s := Selected(rows, cityFilter);
      var rep := ProcesarInformacion(rows, view, cityFilter, payments);
      Labels(rep.cityRanking) == set r | r in s && r.city.Some? :: r.city.value
  {
    var s := Selected(rows, cityFilter);
    TopRankingFewLabels(KeyedEntries(s, CityOf(), TotalOf()));
  }

  /** The two reports disagree on which states count as pending: this one ignores case, the
      collection-management report does not. */
  lemma PendingCaseRulesDiffer()
    ensures IsPending(PortfolioRow(Some("pendiente"), None, None, None, None, None, None))
    ensures !GestionClientes.IsPendingRow(GestionClientes.CarteraRow("", "", None, 0.0, Some("pendiente")))
  {
    var p := "pendiente";
    assert Upper(p) == Pending by {
      var u := Upper(p);
      assert u[0] == 'P' && u[1] == 'E' && u[2] == 'N' && u[3] == 'D' && u[4] == 'I';
      assert u[5] == 'E' && u[6] == 'N' && u[7] == 'T' && u[8] == 'E';
    }
    assert Strip(p) != GestionClientes.Pending by {
      assert Trimmed(p) by {
        assert p[0] == 'p' && p[|p| - 1] == 'e';
      }
      StripTrimmed(p);
      assert p[0] != GestionClientes.Pending[0];
    }
  }

  /** ... and the collection-management report ignores surrounding blanks, this one does not. */
  lemma PendingBlankRulesDiffer()
    ensures !IsPending(PortfolioRow(Some(" PENDIENTE"), None, None, None, None, None, None))
    ensures GestionClientes.IsPendingRow(GestionClientes.CarteraRow("", "", None, 0.0, Some(" PENDIENTE")))
  {
    assert |Upper(" PENDIENTE")| != |Pending|;
    StripBlankPending();
  }

  lemma StripBlankPending()
    ensures Strip(" PENDIENTE") == GestionClientes.Pending
  {
    var p := " PENDIENTE";
    var q := p[1..];
    assert q == GestionClientes.Pending;
    assert Trimmed(q) by {
      assert q[0] == 'P' && q[|q| - 1] == 'E';
    }
    assert LeadingSpace(q) == 0;
    assert LeadingSpace(p) == 1;
    assert TrailingStart(q) == |q| by {
      assert !IsSpace(q[|q| - 1]);
    }
  }
}
