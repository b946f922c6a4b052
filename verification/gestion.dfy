/** The collection-activity log of `calcular_gestion`: which analyst worked which client on which
    day with what outcome, the best-contact deduplication, and the per-analyst and per-day
    statistics computed from it. */
module Gestion {
  import opened Common

  /** One row of the activity log: analyst, client code (already cleaned), day of the contact
      attempt (None when the date does not parse) and the outcome (None when the cell is empty). */
  datatype Activity = Activity(user: string, client: string, day: Option<int>, contact: Option<string>)

  /** The analyst whose activity every report of the module leaves out. */
  const Excluded: string := "Jhon Polanco"

  /** The outcome of a successful contact. */
  const Effective: string := "EFECTIVO"

  /** The outcome of an attempt that did not reach the client. */
  const NotEffective: string := "NO EFECTIVO"

  /** The analyst selector meaning "no filter". */
  const AllAnalysts: string := "Todos"

  predicate IsEffective(a: Activity) {
    a.contact == Some(Effective)
  }

  function OfUser(u: string): Activity -> bool {
    (a: Activity) => a.user == u
  }

  function EffectiveOfUser(u: string): Activity -> bool {
    (a: Activity) => a.user == u && IsEffective(a)
  }

  function OnDay(d: int): Activity -> bool {
    (a: Activity) => a.day == Some(d)
  }

  function EffectiveOnDay(d: int): Activity -> bool {
    (a: Activity) => a.day == Some(d) && IsEffective(a)
  }

  function NotExcluded(): Activity -> bool {
    (a: Activity) => a.user != Excluded
  }

  /** The analysts that occur in a list of activities. */
  function Users(rs: seq<Activity>): set<string> {
    set a | a in rs :: a.user
  }

  /** The activity log the month's reports start from: every row, or only the selected analyst's. */
  function ForAnalyst(rs: seq<Activity>, analyst: string): (r: seq<Activity>)
    ensures analyst == AllAnalysts ==> r == rs
    ensures analyst != AllAnalysts ==> forall a :: a in r <==> a in rs && a.user == analyst
  {
    if analyst == AllAnalysts then rs else Filter(rs, OfUser(analyst))
  }

  /** The rows analyst statistics are computed from: everything but the excluded analyst. */
  function Analyzed(rs: seq<Activity>): (r: seq<Activity>)
    ensures forall a :: a in r <==> a in rs && a.user != Excluded
    ensures Excluded !in Users(r)
  {
    Filter(rs, NotExcluded())
  }

  // ---------------------------------------------------------------- best contact per analyst, day and client

  /** Contact order: an effective contact first, then an ineffective one, then anything else
      (including an empty outcome). */
  function Priority(contact: Option<string>): (p: nat)
    ensures 1 <= p <= 3
    ensures p == 1 <==> contact == Some(Effective)
    ensures p == 2 <==> contact == Some(NotEffective)
  {
    if contact == Some(Effective) then 1
    else if contact == Some(NotEffective) then 2
    else 3
  }

  /** Larger than every priority: the minimum over no rows. */
  const NoPriority: nat := 4

  /** The key the deduplication groups by. */
  datatype ContactKey = ContactKey(user: string, day: Option<int>, client: string)

  function KeyOf(a: Activity): ContactKey {
    ContactKey(a.user, a.day, a.client)
  }

  function Keys(rs: seq<Activity>): set<ContactKey> {
    set a | a in rs :: KeyOf(a)
  }

  predicate DistinctKeys(rs: seq<Activity>) {
    forall i, j :: 0 <= i < j < |rs| ==> KeyOf(rs[i]) != KeyOf(rs[j])
  }

  /** The smallest priority among the rows with key `k`, or `NoPriority` when there is none. */
  function MinPriority(rs: seq<Activity>, k: ContactKey): nat {
    if |rs| == 0 then NoPriority
    else
      var m := MinPriority(rs[..|rs| - 1], k);
      var last := rs[|rs| - 1];
      if KeyOf(last) == k && Priority(last.contact) < m then Priority(last.contact) else m
  }

  /** The minimum is a lower bound of every row with the key. */
  lemma {:induction false} MinPriorityLowerBound(rs: seq<Activity>, a: Activity)
    requires a in rs
    ensures MinPriority(rs, KeyOf(a)) <= Priority(a.contact)
    decreases |rs|
  {
    var init := rs[..|rs| - 1];
    if a != rs[|rs| - 1] {
      assert rs == init + [rs[|rs| - 1]];
      MinPriorityLowerBound(init, a);
    }
  }

  /** A key no row carries has no priority. */
  lemma {:induction false} MinPriorityAbsent(rs: seq<Activity>, k: ContactKey)
    requires k !in Keys(rs)
    ensures MinPriority(rs, k) == NoPriority
    decreases |rs|
  {
    if |rs| > 0 {
      assert Keys(rs[..|rs| - 1]) <= Keys(rs);
      MinPriorityAbsent(rs[..|rs| - 1], k);
    }
  }

  /** Position of the row with key `k`, or -1. */
  function FindKey(best: seq<Activity>, k: ContactKey): (i: int)
    ensures -1 <= i < |best|
    ensures i >= 0 ==> KeyOf(best[i]) == k
    ensures i == -1 ==> k !in Keys(best)
  {
    if |best| == 0 then -1
    else if KeyOf(best[|best| - 1]) == k then |best| - 1
    else
      var i := FindKey(best[..|best| - 1], k);
      assert best == best[..|best| - 1] + [best[|best| - 1]];
      i
  }

  /** Offers the next row to the deduplicated list: it takes the place of the row with its key only
      when its priority is strictly better, and is appended when its key is new. */
  function Offer(best: seq<Activity>, a: Activity): seq<Activity>
    requires DistinctKeys(best)
  {
    var i := FindKey(best, KeyOf(a));
    if i < 0 then best + [a]
    else if Priority(a.contact) < Priority(best[i].contact) then best[i := a]
    else best
  }

  /** `best` is a correct deduplication of `rs`: one row per key, each a row of `rs` of minimal
      priority for its key. */
  predicate IsBest(best: seq<Activity>, rs: seq<Activity>) {
    && DistinctKeys(best)
    && Keys(best) == Keys(rs)
    && forall x :: x in best ==> x in rs && Priority(x.contact) == MinPriority(rs, KeyOf(x))
  }

  lemma OfferStep(best: seq<Activity>, rs: seq<Activity>, a: Activity)
    requires IsBest(best, rs)
    ensures IsBest(Offer(best, a), rs + [a])
  {
    var es := rs + [a];
    assert es[..|es| - 1] == rs;
    assert Keys(es) == Keys(rs) + {KeyOf(a)} by {
      assert forall y :: y in es <==> y in rs || y == a;
    }
    var i := FindKey(best, KeyOf(a));
    if i < 0 {
      OfferNewKey(best, rs, a);
    } else if Priority(a.contact) < Priority(best[i].contact) {
      OfferReplaces(best, rs, a, i);
    } else {
      OfferKeeps(best, rs, a, i);
    }
  }

  lemma OfferNewKey(best: seq<Activity>, rs: seq<Activity>, a: Activity)
    requires IsBest(best, rs) && KeyOf(a) !in Keys(best)
    requires Keys(rs + [a]) == Keys(rs) + {KeyOf(a)} && (rs + [a])[..|rs|] == rs
    ensures IsBest(best + [a], rs + [a])
  {
    var r := best + [a];
    MinPriorityAbsent(rs, KeyOf(a));
    assert forall y :: y in r <==> y in best || y == a;
    forall p, q | 0 <= p < q < |r| ensures KeyOf(r[p]) != KeyOf(r[q]) {
      assert r[p] == best[p];
      assert q < |best| ==> r[q] == best[q];
    }
  }

  lemma OfferReplaces(best: seq<Activity>, rs: seq<Activity>, a: Activity, i: nat)
    requires IsBest(best, rs) && i < |best| && KeyOf(best[i]) == KeyOf(a)
    requires Priority(a.contact) < Priority(best[i].contact)
    requires Keys(rs + [a]) == Keys(rs) + {KeyOf(a)} && (rs + [a])[..|rs|] == rs
    ensures IsBest(best[i := a], rs + [a])
  {
    var es := rs + [a];
    var r := best[i := a];
    forall x | x in r ensures x in es && Priority(x.contact) == MinPriority(es, KeyOf(x)) {
      var m :| 0 <= m < |r| && r[m] == x;
      if m != i {
        assert best[m] == x;
      }
    }
    forall y | y in best ensures KeyOf(y) in Keys(r) {
      var m :| 0 <= m < |best| && best[m] == y;
      assert KeyOf(r[m]) == KeyOf(y);
    }
    forall y | y in r ensures KeyOf(y) in Keys(best) {
      var m :| 0 <= m < |r| && r[m] == y;
      assert KeyOf(best[m]) == KeyOf(y);
    }
  }

  lemma OfferKeeps(best: seq<Activity>, rs: seq<Activity>, a: Activity, i: nat)
    requires IsBest(best, rs) && i < |best| && KeyOf(best[i]) == KeyOf(a)
    requires Priority(a.contact) >= Priority(best[i].contact)
    requires Keys(rs + [a]) == Keys(rs) + {KeyOf(a)} && (rs + [a])[..|rs|] == rs
    ensures IsBest(best, rs + [a])
  {
    var es := rs + [a];
    forall x | x in best ensures Priority(x.contact) == MinPriority(es, KeyOf(x)) {
      var m :| 0 <= m < |best| && best[m] == x;
      assert KeyOf(x) == KeyOf(a) ==> m == i;
    }
  }

  /** The best-contact deduplication: rows ordered by analyst, day, client and contact priority,
      keeping the first of each (analyst, day, client). Among rows of equal priority the earliest
      in the log is kept, since a sort on several columns is stable in pandas. */
  function BestContacts(rs: seq<Activity>): (best: seq<Activity>)
    ensures IsBest(best, rs)
  {
    if |rs| == 0 then []
    else
      var init := rs[..|rs| - 1];
      assert rs == init + [rs[|rs| - 1]];
      OfferStep(BestContacts(init), init, rs[|rs| - 1]);
      Offer(BestContacts(init), rs[|rs| - 1])
  }

  /** Exactly one row per key survives, it is a row of the input, and no row with that key has a
      better contact outcome. */
  lemma BestContactsMinimal(rs: seq<Activity>)
    ensures DistinctKeys(BestContacts(rs)) && Keys(BestContacts(rs)) == Keys(rs)
    ensures forall x :: x in BestContacts(rs) ==> x in rs
    ensures forall x, a :: x in BestContacts(rs) && a in rs && KeyOf(x) == KeyOf(a) ==>
      Priority(x.contact) <= Priority(a.contact)
  {
    forall x, a | x in BestContacts(rs) && a in rs && KeyOf(x) == KeyOf(a)
      ensures Priority(x.contact) <= Priority(a.contact)
    {
      MinPriorityLowerBound(rs, a);
    }
  }

  /** Deduplication loses no analyst and no day. */
  lemma BestKeepsUsersAndDays(raw: seq<Activity>, best: seq<Activity>)
    requires IsBest(best, raw)
    ensures Users(best) == Users(raw) && Days(best) == Days(raw)
  {
    forall u | u in Users(raw) ensures u in Users(best) {
      var a :| a in raw && a.user == u;
      assert KeyOf(a) in Keys(best);
    }
    forall d | d in Days(raw) ensures d in Days(best) {
      var a :| a in raw && a.day == Some(d);
      assert KeyOf(a) in Keys(best);
    }
  }

  /** Distinct keys mean distinct rows. */
  lemma DistinctKeysNoDuplicates(rs: seq<Activity>)
    requires DistinctKeys(rs)
    ensures NoDuplicates(rs)
  {
  }

  // ---------------------------------------------------------------- per-analyst statistics

  /** One line of the analyst table. */
  datatype AnalystRow = AnalystRow(
    uniqueClientDays: nat,  // deduplicated (day, client) pairs worked
    effective: nat,         // of those, how many ended in an effective contact
    attempts: nat)          // raw rows logged

  /** The analyst table: one line per analyst with deduplicated activity. An analyst's client-days
      are the distinct (day, client) pairs they logged, and the effective ones are those pairs with
      at least one effective contact. */
  function Analysts(rs: seq<Activity>): (table: map<string, AnalystRow>)
    ensures table.Keys == Users(Analyzed(rs))
    ensures Excluded !in table
    ensures forall u :: u in table ==>
      && table[u].uniqueClientDays == |KeysWhere(Analyzed(rs), OfUser(u))|
      && table[u].effective == |KeysWhere(Analyzed(rs), EffectiveOfUser(u))|
      && table[u].attempts == Count(Analyzed(rs), OfUser(u))
    ensures forall u :: u in table ==>
      1 <= table[u].uniqueClientDays && table[u].effective <= table[u].uniqueClientDays <= table[u].attempts
  {
    var raw := Analyzed(rs);
    var best := BestContacts(raw);
    BestKeepsUsersAndDays(raw, best);
    var table := map u | u in Users(best) ::
      AnalystRow(Count(best, OfUser(u)), Count(best, EffectiveOfUser(u)), Count(raw, OfUser(u)));
    forall u | u in table
      ensures table[u].uniqueClientDays == |KeysWhere(raw, OfUser(u))|
      ensures table[u].effective == |KeysWhere(raw, EffectiveOfUser(u))|
      ensures 1 <= table[u].uniqueClientDays && table[u].effective <= table[u].uniqueClientDays <= table[u].attempts
    {
      AnalystBounds(raw, best, u);
      BestCounts(best, raw, OfUser(u), EffectiveOfUser(u));
    }
    table
  }

  /** The distinct (analyst, day, client) keys of the rows satisfying `p`. */
  function KeysWhere(rs: seq<Activity>, p: Activity -> bool): set<ContactKey> {
    set a | a in rs && p(a) :: KeyOf(a)
  }

  /** Rows with distinct keys are counted as their keys are. */
  lemma {:induction false} CountByKey(best: seq<Activity>, p: Activity -> bool)
    requires DistinctKeys(best)
    ensures Count(best, p) == |KeysWhere(best, p)|
    decreases |best|
  {
    if |best| > 0 {
      var init := best[..|best| - 1];
      var last := best[|best| - 1];
      assert DistinctKeys(init);
      CountByKey(init, p);
      KeysWhereSnoc(init, last, p);
      LastKeyIsNew(best);
    }
  }

  lemma KeysWhereSnoc(init: seq<Activity>, last: Activity, p: Activity -> bool)
    ensures KeysWhere(init + [last], p) == KeysWhere(init, p) + (if p(last) then {KeyOf(last)} else {})
  {
    assert forall y :: y in init + [last] <==> y in init || y == last;
  }

  lemma LastKeyIsNew(best: seq<Activity>)
    requires DistinctKeys(best) && |best| > 0
    ensures KeyOf(best[|best| - 1]) !in Keys(best[..|best| - 1])
    ensures best == best[..|best| - 1] + [best[|best| - 1]]
  {
    var init := best[..|best| - 1];
    forall y | y in init ensures KeyOf(y) != KeyOf(best[|best| - 1]) {
      var m :| 0 <= m < |init| && init[m] == y;
      assert best[m] == y;
    }
  }

  /** Counting deduplicated rows by a condition on the key (`q`), or on the key and an effective
      outcome (`e`), gives the number of such keys in the raw log: every key survives, and it
      survives with an effective contact exactly when one of its raw rows has one. */
  lemma BestCounts(best: seq<Activity>, raw: seq<Activity>, q: Activity -> bool, e: Activity -> bool)
    requires IsBest(best, raw)
    requires forall a, b :: KeyOf(a) == KeyOf(b) ==> q(a) == q(b)
    requires forall a :: e(a) == (q(a) && IsEffective(a))
    ensures Count(best, q) == |KeysWhere(raw, q)|
    ensures Count(best, e) == |KeysWhere(raw, e)|
  {
    CountByKey(best, q);
    CountByKey(best, e);
    forall k | k in KeysWhere(raw, q) ensures k in KeysWhere(best, q) {
      var b :| b in raw && q(b) && KeyOf(b) == k;
      assert k in Keys(raw);
      var x :| x in best && KeyOf(x) == k;
    }
    forall k | k in KeysWhere(raw, e) ensures k in KeysWhere(best, e) {
      var b :| b in raw && e(b) && KeyOf(b) == k;
      assert k in Keys(raw);
      var x :| x in best && KeyOf(x) == k;
      MinPriorityLowerBound(raw, b);
    }
    assert KeysWhere(best, q) == KeysWhere(raw, q);
    assert KeysWhere(best, e) == KeysWhere(raw, e);
  }

  lemma AnalystBounds(raw: seq<Activity>, best: seq<Activity>, u: string)
    requires IsBest(best, raw) && u in Users(best)
    ensures 1 <= Count(best, OfUser(u))
    ensures Count(best, EffectiveOfUser(u)) <= Count(best, OfUser(u)) <= Count(raw, OfUser(u))
  {
    var a :| a in best && a.user == u;
    var i :| 0 <= i < |best| && best[i] == a;
    CountPositive(best, OfUser(u), i);
    CountMono(best, EffectiveOfUser(u), OfUser(u));
    DistinctKeysNoDuplicates(best);
    CountDistinctSubset(best, raw, OfUser(u));
  }

  /** Intensity (attempts per deduplicated client-day) is at least one, and the effectiveness
      percentage lies between 0 and 100. */
  lemma AnalystRatios(rs: seq<Activity>, u: string)
    requires u in Analysts(rs)
    ensures Analysts(rs)[u].attempts as real / Analysts(rs)[u].uniqueClientDays as real >= 1.0
    ensures 0.0 <= Percent(Analysts(rs)[u].effective as real, Analysts(rs)[u].uniqueClientDays as real) <= 100.0
  {
    var row := Analysts(rs)[u];
    RowRatios(row);
  }

  lemma RowRatios(row: AnalystRow)
    requires 1 <= row.uniqueClientDays && row.effective <= row.uniqueClientDays <= row.attempts
    ensures row.attempts as real / row.uniqueClientDays as real >= 1.0
    ensures 0.0 <= Percent(row.effective as real, row.uniqueClientDays as real) <= 100.0
  {
    PercentBounds(row.effective as real, row.uniqueClientDays as real);
    var q := row.attempts as real / row.uniqueClientDays as real;
    assert q * row.uniqueClientDays as real == row.attempts as real;
  }

  // ---------------------------------------------------------------- per-day timeline

  /** One point of the timeline: client-days worked and effective contacts on a day. */
  datatype DayRow = DayRow(worked: nat, effective: nat)

  /** The days that occur among parsed dates. */
  function Days(rs: seq<Activity>): set<int> {
    set a | a in rs && a.day.Some? :: a.day.value
  }

  /** The timeline of the deduplicated activity; rows whose date did not parse form no group. A
      day's worked figure is the number of distinct (analyst, client) pairs logged that day, and
      its effective figure the number of those pairs with at least one effective contact. */
  function Timeline(rs: seq<Activity>): (line: map<int, DayRow>)
    ensures line.Keys == Days(Analyzed(rs))
    ensures forall d :: d in line ==>
      && line[d].worked == |KeysWhere(Analyzed(rs), OnDay(d))|
      && line[d].effective == |KeysWhere(Analyzed(rs), EffectiveOnDay(d))|
    ensures forall d :: d in line ==> 1 <= line[d].worked && line[d].effective <= line[d].worked
  {
    var raw := Analyzed(rs);
    var best := BestContacts(raw);
    BestKeepsUsersAndDays(raw, best);
    var line := map d | d in Days(best) :: DayRow(Count(best, OnDay(d)), Count(best, EffectiveOnDay(d)));
    forall d | d in line
      ensures line[d].worked == |KeysWhere(raw, OnDay(d))|
      ensures line[d].effective == |KeysWhere(raw, EffectiveOnDay(d))|
      ensures 1 <= line[d].worked && line[d].effective <= line[d].worked
    {
      DayBounds(best, d);
      BestCounts(best, raw, OnDay(d), EffectiveOnDay(d));
    }
    line
  }

  lemma DayBounds(best: seq<Activity>, d: int)
    requires d in Days(best)
    ensures 1 <= Count(best, OnDay(d)) && Count(best, EffectiveOnDay(d)) <= Count(best, OnDay(d))
  {
    var a :| a in best && a.day == Some(d);
    var i :| 0 <= i < |best| && best[i] == a;
    CountPositive(best, OnDay(d), i);
    CountMono(best, EffectiveOnDay(d), OnDay(d));
  }

  /** A day's effectiveness percentage lies between 0 and 100, so its complement does too. */
  lemma TimelineShares(rs: seq<Activity>, d: int)
    requires d in Timeline(rs)
    ensures 0.0 <= Percent(Timeline(rs)[d].effective as real, Timeline(rs)[d].worked as real) <= 100.0
  {
    var row := Timeline(rs)[d];
    PercentBounds(row.effective as real, row.worked as real);
  }
}
