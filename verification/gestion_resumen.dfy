/** `calcular_gestion` as a whole: the inputs cleaned as the report cleans them, the headline
    figures, and every table of the collection-management report assembled from the pieces. */
module GestionResumen {
  import opened Common
  import opened Text
  import opened Gestion
  import opened GestionClientes
  import opened GestionRecaudo
  import Ranking

  /** The activity log with client codes normalised (`.0` suffix dropped, trimmed). */
  function CleanLog(log: seq<Activity>): (r: seq<Activity>)
    ensures |r| == |log|
    ensures forall i :: 0 <= i < |r| ==>
      r[i].user == log[i].user && r[i].day == log[i].day && r[i].contact == log[i].contact && Trimmed(r[i].client)
    ensures forall i :: 0 <= i < |r| ==> r[i].client == CleanCode(log[i].client)
  {
    seq(|log|, i requires 0 <= i < |log| => log[i].(client := CleanCode(log[i].client)))
  }

  /** The payments with client codes normalised the same way. */
  function CleanPayments(ps: seq<Payment>): (r: seq<Payment>)
    ensures |r| == |ps|
    ensures forall i :: 0 <= i < |r| ==> r[i].day == ps[i].day && r[i].value == ps[i].value && Trimmed(r[i].client)
    ensures forall i :: 0 <= i < |r| ==> r[i].client == CleanCode(ps[i].client)
  {
    seq(|ps|, i requires 0 <= i < |ps| => ps[i].(client := CleanCode(ps[i].client)))
  }

  /** A code that is already clean: trimmed and without a ".0" suffix. */
  predicate CleanAlready(code: string) {
    Trimmed(code) && !EndsWithPointZero(code)
  }

  /** Cleaning a log whose codes are already clean changes nothing. */
  lemma CleanLogKeepsCleanCodes(log: seq<Activity>)
    requires forall i :: 0 <= i < |log| ==> CleanAlready(log[i].client)
    ensures CleanLog(log) == log
  {
    forall i | 0 <= i < |log| ensures CleanLog(log)[i] == log[i] {
      CleanCodeExamples(log[i].client);
    }
  }

  /** Cleaning payments whose codes are already clean changes nothing. */
  lemma CleanPaymentsKeepsCleanCodes(ps: seq<Payment>)
    requires forall i :: 0 <= i < |ps| ==> CleanAlready(ps[i].client)
    ensures CleanPayments(ps) == ps
  {
    forall i | 0 <= i < |ps| ensures CleanPayments(ps)[i] == ps[i] {
      CleanCodeExamples(ps[i].client);
    }
  }

  // ---------------------------------------------------------------- headline figures

  /** The headline figures of the report. */
  datatype Kpis = Kpis(
    totalClients: nat,       // distinct pending clients
    documents: nat,          // pending portfolio rows
    perClient: real,         // documents per client
    worked: nat,             // clients with some recorded outcome
    effective: nat,          // clients whose latest outcome is effective
    notWorked: nat,
    sweep: real,             // percentage of clients worked
    reached: real,           // percentage of clients effectively contacted
    notReached: real,        // percentage worked without effective contact
    notWorkedShare: real,    // percentage not worked
    donutEffective: nat,     // the two slices of the effectiveness donut
    donutNotEffective: nat)

  /** The distinct client codes of a portfolio. */
  function PortfolioClients(rows: seq<CarteraRow>): set<string> {
    set r | r in rows :: r.client
  }

  /** The clients of the pending portfolio with some outcome in the log. */
  function WorkedClients(pending: seq<CarteraRow>, log: seq<Activity>): set<string> {
    set c | c in PortfolioClients(pending) && LastContact(log, c).Some?
  }

  /** The clients of the pending portfolio whose latest outcome is the effective one. */
  function ReachedClients(pending: seq<CarteraRow>, log: seq<Activity>): set<string> {
    set c | c in PortfolioClients(pending) && LastContact(log, c) == Some(Effective)
  }

  /** The headline figures: distinct pending clients and documents, the clients worked (some
      outcome) and reached (latest outcome effective), and their percentages. */
  function KpisOf(pending: seq<CarteraRow>, log: seq<Activity>): (k: Kpis)
    ensures k.totalClients == |PortfolioClients(pending)| && k.documents == |pending|
    ensures k.worked == |WorkedClients(pending, log)| && k.effective == |ReachedClients(pending, log)|
    ensures k.totalClients <= k.documents && (k.totalClients == 0 <==> k.documents == 0)
    ensures k.effective <= k.worked <= k.totalClients && k.worked + k.notWorked == k.totalClients
    ensures k.totalClients > 0 ==>
      && k.perClient >= 1.0
      && k.sweep + k.notWorkedShare == 100.0
      && k.reached + k.notReached == k.sweep
    ensures k.totalClients == 0 ==>
      k.perClient == 0.0 && k.sweep == 0.0 && k.reached == 0.0 && k.notReached == 0.0 && k.notWorkedShare == 0.0
    ensures 0.0 <= k.sweep <= 100.0 && 0.0 <= k.reached <= k.sweep && 0.0 <= k.notWorkedShare <= 100.0
    ensures k.donutEffective == k.effective && k.donutEffective + k.donutNotEffective == k.worked
  {
    var c := CoverageOf(Master(pending, log));
    MasterCoverage(pending, log);
    KpisFrom(c, |pending|)
  }

  /** The headline figures computed from the coverage counts and the number of documents. */
  function KpisFrom(c: Coverage, documents: nat): (k: Kpis)
    requires c.effective <= c.worked <= c.total && c.worked + c.notWorked == c.total
    requires c.total <= documents && (c.total == 0 <==> documents == 0)
    ensures k.totalClients == c.total && k.documents == documents
    ensures k.worked == c.worked && k.effective == c.effective && k.notWorked == c.notWorked
    ensures k.totalClients > 0 ==>
      && k.perClient >= 1.0
      && k.sweep + k.notWorkedShare == 100.0
      && k.reached + k.notReached == k.sweep
    ensures k.totalClients == 0 ==>
      k.perClient == 0.0 && k.sweep == 0.0 && k.reached == 0.0 && k.notReached == 0.0 && k.notWorkedShare == 0.0
    ensures 0.0 <= k.sweep <= 100.0 && 0.0 <= k.reached <= k.sweep && 0.0 <= k.notWorkedShare <= 100.0
    ensures k.donutEffective == k.effective && k.donutEffective + k.donutNotEffective == k.worked
  {
    var total := c.total as real;
    var perClient := if c.total > 0 then documents as real / total else 0.0;
    var k := Kpis(c.total, documents, perClient, c.worked, c.effective, c.notWorked,
      Percent(c.worked as real, total), Percent(c.effective as real, total),
      Percent((c.worked - c.effective) as real, total), Percent((c.total - c.worked) as real, total),
      c.effective, c.worked - c.effective);
    KpiShares(c.total, c.worked, c.effective);
    DocumentsPerClient(documents, c.total);
    k
  }

  /** Over the join of the pending portfolio with the log, the coverage counts are the portfolio's
      distinct clients, those with some outcome and those whose latest outcome is effective. */
  lemma MasterCoverage(pending: seq<CarteraRow>, log: seq<Activity>)
    ensures var c := CoverageOf(Master(pending, log));
      && c.total == |PortfolioClients(pending)| && c.total <= |pending| && (c.total == 0 <==> |pending| == 0)
      && c.worked == |WorkedClients(pending, log)| && c.effective == |ReachedClients(pending, log)|
  {
    var m := Master(pending, log);
    MasterClients(pending, log);
    PortfolioClientsBound(pending);
    assert forall c :: c in Clients(m) ==> FirstRow(m, c).contact == LastContact(log, c);
    assert ClientsWhere(m, Worked()) == WorkedClients(pending, log);
    assert ClientsWhere(m, Reached()) == ReachedClients(pending, log);
  }


  /** The shares of the headline figures partition the clients. */
  lemma KpiShares(total: nat, worked: nat, effective: nat)
    requires effective <= worked <= total
    ensures var t := total as real;
      && 0.0 <= Percent(worked as real, t) <= 100.0
      && 0.0 <= Percent(effective as real, t) <= Percent(worked as real, t)
      && 0.0 <= Percent((total - worked) as real, t) <= 100.0
      && (total > 0 ==> Percent(worked as real, t) + Percent((total - worked) as real, t) == 100.0)
      && Percent(effective as real, t) + Percent((worked - effective) as real, t) == Percent(worked as real, t)
  {
    var t := total as real;
    PercentBounds(worked as real, t);
    PercentBounds(effective as real, t);
    PercentBounds((total - worked) as real, t);
    PercentBounds((worked - effective) as real, t);
    PercentAdditive(worked as real, (total - worked) as real, t);
    PercentAdditive(effective as real, (worked - effective) as real, t);
    if total > 0 {
      PercentOfWhole(t);
    }
  }

  lemma DocumentsPerClient(documents: nat, clients: nat)
    requires 0 < clients <= documents || clients == documents == 0
    ensures clients > 0 ==> documents as real / clients as real >= 1.0
  {
    if clients > 0 {
      var q := documents as real / clients as real;
      assert q * clients as real == documents as real;
    }
  }

  lemma MasterClients(pending: seq<CarteraRow>, log: seq<Activity>)
    ensures Clients(Master(pending, log)) == PortfolioClients(pending)
  {
    var m := Master(pending, log);
    forall c | c in PortfolioClients(pending) ensures c in Clients(m) {
      var r :| r in pending && r.client == c;
      var i :| 0 <= i < |pending| && pending[i] == r;
      assert m[i] in m;
    }
    forall c | c in Clients(m) ensures c in PortfolioClients(pending) {
      var x :| x in m && x.row.client == c;
      var i :| 0 <= i < |m| && m[i] == x;
      assert pending[i] in pending;
    }
  }

  /** A portfolio has no more distinct clients than rows, and some as soon as it has rows. */
  lemma {:induction false} PortfolioClientsBound(rows: seq<CarteraRow>)
    ensures |PortfolioClients(rows)| <= |rows|
    ensures |rows| > 0 ==> |PortfolioClients(rows)| > 0
    decreases |rows|
  {
    if |rows| > 0 {
      var init := rows[..|rows| - 1];
      var last := rows[|rows| - 1];
      assert rows == init + [last];
      PortfolioClientsBound(init);
      assert PortfolioClients(rows) == PortfolioClients(init) + {last.client};
    }
  }

  // ---------------------------------------------------------------- the report

  datatype GestionReport = GestionReport(
    kpis: Kpis,
    franjas: map<string, FranjaRow>,
    detail: seq<DetailRow>,
    analysts: map<string, AnalystRow>,
    timeline: map<int, DayRow>,
    daily: map<string, DailyRow>,
    recaudo: seq<Ranking.Entry>,
    participation: seq<Ranking.Entry>)

  /** `calcular_gestion`: the portfolio and activity log (and the payments file when it exists)
      turned into the report. The analyst selector narrows the activity behind coverage, analyst
      and daily figures; payment attribution always reads the whole log. */
  function CalcularGestion(cartera: seq<CarteraRow>, log: seq<Activity>, payments: Option<seq<Payment>>,
                           analyst: string, today: int): (rep: GestionReport)
    ensures rep.kpis.documents == Count(cartera, PendingFilter()) == |rep.detail|
    ensures Excluded !in rep.analysts && Excluded !in rep.daily && Excluded !in Ranking.Labels(rep.recaudo)
    ensures payments.None? ==> rep.recaudo == [] && rep.participation == []
    ensures payments.Some? ==> Ranking.Total(rep.recaudo) == Collected(CleanPayments(payments.value))
    ensures payments.Some? && Collected(CleanPayments(payments.value)) > 0.0 ==>
      Ranking.Total(rep.participation) == 100.0
  {
    var clean := CleanLog(log);
    var month := ForAnalyst(clean, analyst);
    var pending := PendingCartera(cartera);
    var m := Master(pending, month);
    var cps := if payments.Some? then CleanPayments(payments.value) else [];
    var recaudo := if payments.Some? then RecaudoRanking(clean, cps) else [];
    var participation := if payments.Some? then Participation(recaudo, Collected(cps)) else [];
    RecaudoShares(clean, cps);
    GestionReport(KpisOf(pending, month), FranjaSummary(m), Detail(m, today), Analysts(month),
      Timeline(month), DailyRanking(clean, analyst, today), recaudo, participation)
  }

  lemma RecaudoShares(log: seq<Activity>, ps: seq<Payment>)
    ensures Collected(ps) > 0.0 ==> Ranking.Total(Participation(RecaudoRanking(log, ps), Collected(ps))) == 100.0
  {
    if Collected(ps) > 0.0 {
      RecaudoSharesSumTo100(log, ps);
    }
  }
}
