/** The two analyst rankings of `calcular_gestion` beyond client coverage: the day's ranking by
    effectiveness, and the collections ranking that credits each payment to the analyst who worked
    the client on the payment's day. */
module GestionRecaudo {
  import opened Common
  import opened Gestion
  import opened Ranking

  // ---------------------------------------------------------------- the day's ranking

  /** One line of the day's ranking. */
  datatype DailyRow = DailyRow(
    uniqueClients: nat,  // distinct clients worked today
    attempts: nat,       // rows logged today
    effective: nat,      // of those, effective contacts
    share: real)         // effective contacts as a percentage of attempts

  /** The rows of the (analyst-filtered) log dated today. */
  function TodaysActivity(log: seq<Activity>, analyst: string, today: int): (r: seq<Activity>)
    ensures forall a :: a in r <==> a in ForAnalyst(log, analyst) && a.day == Some(today)
  {
    Filter(ForAnalyst(log, analyst), OnDay(today))
  }

  /** The distinct clients of some rows. */
  function ClientsOf(rs: seq<Activity>): set<string> {
    set a | a in rs :: a.client
  }

  /** The distinct clients an analyst worked among some rows (`nunique` of the client column). */
  function ClientsOfUser(rs: seq<Activity>, u: string): set<string> {
    set a | a in rs && a.user == u :: a.client
  }

  /** An analyst's line of the day's ranking, from the day's rows. */
  function DailyRowOf(t: seq<Activity>, u: string): DailyRow {
    var attempts := Count(t, OfUser(u));
    var effective := Count(t, EffectiveOfUser(u));
    DailyRow(|ClientsOf(Filter(t, OfUser(u)))|, attempts, effective, Percent(effective as real, attempts as real))
  }

  /** The day's ranking: per analyst active today (the excluded analyst removed afterwards),
      distinct clients, attempts, effective contacts and their percentage of the attempts. */
  function DailyRanking(log: seq<Activity>, analyst: string, today: int): (rank: map<string, DailyRow>)
    ensures rank.Keys == Users(TodaysActivity(log, analyst, today)) - {Excluded}
    ensures forall u :: u in rank ==>
      && rank[u].uniqueClients == |ClientsOfUser(TodaysActivity(log, analyst, today), u)|
      && rank[u].attempts == Count(TodaysActivity(log, analyst, today), OfUser(u))
      && rank[u].effective == Count(TodaysActivity(log, analyst, today), EffectiveOfUser(u))
      && 1 <= rank[u].uniqueClients <= rank[u].attempts
      && rank[u].effective <= rank[u].attempts
      && rank[u].share == Percent(rank[u].effective as real, rank[u].attempts as real)
      && 0.0 <= rank[u].share <= 100.0
  {
    DailyTable(TodaysActivity(log, analyst, today))
  }

  function DailyTable(t: seq<Activity>): (rank: map<string, DailyRow>)
    ensures rank.Keys == Users(t) - {Excluded}
    ensures forall u :: u in rank ==>
      && rank[u].uniqueClients == |ClientsOfUser(t, u)|
      && rank[u].attempts == Count(t, OfUser(u))
      && rank[u].effective == Count(t, EffectiveOfUser(u))
      && 1 <= rank[u].uniqueClients <= rank[u].attempts
      && rank[u].effective <= rank[u].attempts
      && rank[u].share == Percent(rank[u].effective as real, rank[u].attempts as real)
      && 0.0 <= rank[u].share <= 100.0
  {
    var users := Users(t) - {Excluded};
    var rank := map u | u in users :: DailyRowOf(t, u);
    forall u | u in rank
      ensures rank[u].uniqueClients == |ClientsOfUser(t, u)|
      ensures 1 <= rank[u].uniqueClients <= rank[u].attempts && rank[u].effective <= rank[u].attempts
      ensures 0.0 <= rank[u].share <= 100.0
    {
      DailyBounds(t, u);
    }
    rank
  }

  lemma DailyBounds(t: seq<Activity>, u: string)
    requires u in Users(t)
    ensures DailyRowOf(t, u).uniqueClients == |ClientsOfUser(t, u)|
    ensures 1 <= DailyRowOf(t, u).uniqueClients <= DailyRowOf(t, u).attempts
    ensures DailyRowOf(t, u).effective <= DailyRowOf(t, u).attempts
    ensures 0.0 <= DailyRowOf(t, u).share <= 100.0
  {
    var mine := Filter(t, OfUser(u));
    assert ClientsOf(mine) == ClientsOfUser(t, u);
    var a :| a in t && a.user == u;
    assert a in mine;
    ClientsOfBound(mine, a);
    CountMono(t, EffectiveOfUser(u), OfUser(u));
    PercentBounds(Count(t, EffectiveOfUser(u)) as real, Count(t, OfUser(u)) as real);
  }

  /** A non-empty list of rows has at least one and at most as many distinct clients as rows. */
  lemma {:induction false} ClientsOfBound(rs: seq<Activity>, a: Activity)
    requires a in rs
    ensures 1 <= |ClientsOf(rs)| <= |rs|
    decreases |rs|
  {
    assert a.client in ClientsOf(rs);
    var init := rs[..|rs| - 1];
    var last := rs[|rs| - 1];
    assert rs == init + [last];
    assert ClientsOf(rs) == ClientsOf(init) + {last.client};
    if a in init {
      ClientsOfBound(init, a);
    } else {
      assert init == [] || |ClientsOf(init)| <= |init| by {
        if init != [] { ClientsOfBound(init, init[0]); }
      }
    }
  }

  /** With one analyst selected the day's ranking holds at most that analyst, and nobody at all
      when the selected analyst is the excluded one. */
  lemma DailyRankingSelected(log: seq<Activity>, analyst: string, today: int)
    requires analyst != AllAnalysts
    ensures DailyRanking(log, analyst, today).Keys <= {analyst}
    ensures analyst == Excluded ==> DailyRanking(log, analyst, today) == map[]
  {
    var t := TodaysActivity(log, analyst, today);
    assert forall u :: u in Users(t) ==> u == analyst;
  }

  // ---------------------------------------------------------------- payment attribution

  /** One row of the payments file: client code (cleaned), payment day (None when the date does
      not parse) and amount (None when it is not numeric). */
  datatype Payment = Payment(client: string, day: Option<int>, value: Option<real>)

  /** The name payments nobody can be credited with are grouped under. */
  const Unattributed: string := "Sin Gestión"

  /** Only payments with a positive amount, after coercion, are kept. */
  predicate IsCollected(p: Payment) {
    Coerce(p.value) > 0.0
  }

  /** An activity that can claim a payment: same client, same parsed day, and not by the excluded
      analyst. */
  predicate Claims(a: Activity, p: Payment) {
    a.user != Excluded && a.day.Some? && a.day == p.day && a.client == p.client
  }

  /** The activity a payment is credited to: an effective claiming contact if there is one,
      otherwise any claiming contact, otherwise none. Among equals the first in log order is
      taken. */
  function Claimant(log: seq<Activity>, p: Payment): (r: Option<Activity>)
    ensures r.None? <==> forall a :: a in log ==> !Claims(a, p)
    ensures r.Some? ==> r.value in log && Claims(r.value, p)
    ensures r.Some? && !IsEffective(r.value) ==> forall a :: a in log && Claims(a, p) ==> !IsEffective(a)
  {
    if |log| == 0 then None
    else
      var rest := Claimant(log[1..], p);
      assert forall a :: a in log <==> a == log[0] || a in log[1..];
      if Claims(log[0], p) && (IsEffective(log[0]) || rest.None? || !IsEffective(rest.value)) then Some(log[0])
      else rest
  }

  /** The analyst a payment is credited to (`ANALISTA_REAL`). */
  function Attribute(log: seq<Activity>, p: Payment): (r: string)
    ensures r != Excluded
    ensures (forall a :: a in log ==> !Claims(a, p)) ==> r == Unattributed
    ensures p.day.None? ==> r == Unattributed
  {
    match Claimant(log, p)
    case None => Unattributed
    case Some(a) => a.user
  }

  /** A payment that some effective contact claims is credited to the analyst of an effective
      claiming contact. */
  lemma AttributePrefersEffective(log: seq<Activity>, p: Payment, b: Activity)
    requires b in log && Claims(b, p) && IsEffective(b)
    ensures exists a :: a in log && Claims(a, p) && IsEffective(a) && a.user == Attribute(log, p)
  {
    var a := Claimant(log, p).value;
    assert a in log && Claims(a, p) && IsEffective(a);
  }

  /** A payment that some contact claims is credited to the analyst of a claiming contact. */
  lemma AttributeClaimed(log: seq<Activity>, p: Payment, b: Activity)
    requires b in log && Claims(b, p)
    ensures exists a :: a in log && Claims(a, p) && a.user == Attribute(log, p)
  {
    var a := Claimant(log, p).value;
    assert a in log && Claims(a, p);
  }

  /** The credit depends on the (client, day) key alone: each key maps to a single analyst. */
  lemma {:induction false} AttributionByKey(log: seq<Activity>, p: Payment, q: Payment)
    requires p.client == q.client && p.day == q.day
    ensures Claimant(log, p) == Claimant(log, q)
    ensures Attribute(log, p) == Attribute(log, q)
    decreases |log|
  {
    if |log| > 0 {
      AttributionByKey(log[1..], p, q);
    }
  }

  // ---------------------------------------------------------------- collections ranking

  /** The kept payments as (analyst, amount) rows, in file order. */
  function Credits(log: seq<Activity>, ps: seq<Payment>): (es: seq<Entry>)
    ensures forall e :: e in es ==> e.name != Excluded && e.value > 0.0
  {
    if |ps| == 0 then []
    else
      (if IsCollected(ps[0]) then [Entry(Attribute(log, ps[0]), Coerce(ps[0].value))] else [])
      + Credits(log, ps[1..])
  }

  /** The total collected (`total_global`): the sum of the kept payments, whoever they are
      credited to. */
  function Collected(ps: seq<Payment>): real {
    if |ps| == 0 then 0.0
    else (if IsCollected(ps[0]) then Coerce(ps[0].value) else 0.0) + Collected(ps[1..])
  }

  /** Crediting moves money between analysts but neither creates nor loses any. */
  lemma {:induction false} CreditsTotal(log: seq<Activity>, ps: seq<Payment>)
    ensures Total(Credits(log, ps)) == Collected(ps)
    ensures Collected(ps) >= 0.0
    decreases |ps|
  {
    if |ps| > 0 {
      CreditsTotal(log, ps[1..]);
      var head := if IsCollected(ps[0]) then [Entry(Attribute(log, ps[0]), Coerce(ps[0].value))] else [];
      TotalConcat(head, Credits(log, ps[1..]));
    }
  }

  function NotExcludedEntry(): Entry -> bool {
    (e: Entry) => e.name != Excluded
  }

  /** The collections ranking: amounts summed per credited analyst, the excluded analyst's line
      dropped, largest first. */
  function RecaudoRanking(log: seq<Activity>, ps: seq<Payment>): (r: seq<Entry>)
    ensures Descending(r) && DistinctLabels(r)
    ensures Labels(r) == Labels(Credits(log, ps)) && Excluded !in Labels(r)
    ensures Total(r) == Collected(ps)
    ensures forall k :: 0 <= k < |r| ==> r[k].value == LabelSum(Credits(log, ps), r[k].name)
  {
    var credits := Credits(log, ps);
    var grouped := GroupSum(credits);
    var kept := Filter(grouped, NotExcludedEntry());
    ExcludedNeverCredited(credits, grouped);
    FilterAll(grouped, NotExcludedEntry());
    CreditsTotal(log, ps);
    var r := SortDesc(kept);
    RankingFacts(credits, grouped, r);
    r
  }

  lemma ExcludedNeverCredited(credits: seq<Entry>, grouped: seq<Entry>)
    requires forall e :: e in credits ==> e.name != Excluded
    requires Labels(grouped) == Labels(credits)
    ensures forall e :: e in grouped ==> NotExcludedEntry()(e)
  {
    forall e | e in grouped ensures e.name != Excluded {
      assert e.name in Labels(grouped);
    }
  }

  lemma RankingFacts(credits: seq<Entry>, grouped: seq<Entry>, r: seq<Entry>)
    requires DistinctLabels(grouped) && Labels(grouped) == Labels(credits)
    requires forall k :: 0 <= k < |grouped| ==> grouped[k].value == LabelSum(credits, grouped[k].name)
    requires multiset(r) == multiset(grouped)
    ensures Labels(r) == Labels(credits)
    ensures forall k :: 0 <= k < |r| ==> r[k].value == LabelSum(credits, r[k].name)
    ensures DistinctLabels(r)
  {
    SortedGroupFacts(credits, grouped, r);
    DistinctCount(grouped);
    assert |r| == |grouped| by {
      assert |multiset(r)| == |multiset(grouped)|;
    }
    DistinctFromCount(r, |Labels(grouped)|);
  }

  /** A list with as many labels as lines has no label twice. */
  lemma DistinctFromCount(r: seq<Entry>, n: nat)
    requires |Labels(r)| == n == |r|
    ensures DistinctLabels(r)
  {
    if !DistinctLabels(r) {
      var i, j :| 0 <= i < j < |r| && r[i].name == r[j].name;
      var rest := r[..j] + r[j + 1..];
      assert r == r[..j] + [r[j]] + r[j + 1..];
      assert Labels(r) == Labels(rest) by {
        assert r[j].name == rest[i].name;
        forall l | l in Labels(r) ensures l in Labels(rest) {
          var e :| e in r && e.name == l;
          var m :| 0 <= m < |r| && r[m] == e;
          if m < j { assert rest[m] == e; }
          else if m > j { assert rest[m - 1] == e; }
        }
      }
      LabelsBound(rest);
      assert false;
    }
  }

  lemma {:induction false} LabelsBound(r: seq<Entry>)
    ensures |Labels(r)| <= |r|
    decreases |r|
  {
    if |r| > 0 {
      var init := r[..|r| - 1];
      assert r == init + [r[|r| - 1]];
      LabelsBound(init);
      LabelsSnoc(init, r[|r| - 1]);
    }
  }

  /** Each analyst's share of the total collected (`Porc_Part`), 0 throughout when nothing was
      collected. */
  function Participation(r: seq<Entry>, whole: real): (s: seq<Entry>)
    ensures |s| == |r|
    ensures forall k :: 0 <= k < |s| ==> s[k].name == r[k].name
    ensures whole <= 0.0 ==> forall k :: 0 <= k < |s| ==> s[k].value == 0.0
    ensures whole > 0.0 ==> forall k :: 0 <= k < |s| ==> s[k].value * whole == r[k].value * 100.0
  {
    seq(|r|, k requires 0 <= k < |r| => Entry(r[k].name, Percent(r[k].value, whole)))
  }

  /** The shares of all lines add up to the share of the lines' total. */
  lemma {:induction false} ParticipationTotal(r: seq<Entry>, whole: real)
    ensures Total(Participation(r, whole)) == Percent(Total(r), whole)
    decreases |r|
  {
    if |r| > 0 {
      ParticipationTotal(r[1..], whole);
      assert Participation(r, whole)[1..] == Participation(r[1..], whole);
      PercentAdditive(r[0].value, Total(r[1..]), whole);
    }
  }

  /** The collections ranking's shares add up to 100 whenever something was collected. */
  lemma RecaudoSharesSumTo100(log: seq<Activity>, ps: seq<Payment>)
    requires Collected(ps) > 0.0
    ensures Total(Participation(RecaudoRanking(log, ps), Collected(ps))) == 100.0
  {
    var r := RecaudoRanking(log, ps);
    ParticipationTotal(r, Collected(ps));
    PercentOfWhole(Collected(ps));
  }
}
