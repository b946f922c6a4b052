/** Client coverage in `calcular_gestion`: the pending portfolio joined with each client's most
    recent activity, the inactivity classification, the unique-client counts, the per-bucket
    summary and the detail lines shown to the user. */
module GestionClientes {
  import opened Common
  import opened Text
  import opened Gestion
  import Franjas

  /** One row of the portfolio file as this report reads it: client code, name, Cyres bucket
      (None when the cell is empty), balance and state (None when the cell is empty). */
  datatype CarteraRow = CarteraRow(client: string, name: string, franja: Option<string>, saldo: real, estado: Option<string>)

  const Pending: string := "PENDIENTE"

  /** This report keeps the rows whose state, once trimmed, is exactly "PENDIENTE" (no case folding). */
  predicate IsPendingRow(r: CarteraRow) {
    r.estado.Some? && Strip(r.estado.value) == Pending
  }

  function PendingFilter(): CarteraRow -> bool {
    (r: CarteraRow) => IsPendingRow(r)
  }

  /** The pending portfolio with client codes normalised as everywhere in the module. */
  function PendingCartera(rows: seq<CarteraRow>): (r: seq<CarteraRow>)
    ensures |r| == Count(rows, PendingFilter())
    ensures forall i :: 0 <= i < |r| ==> IsPendingRow(r[i]) && Trimmed(r[i].client)
    ensures forall x :: x in r <==> exists y :: y in rows && IsPendingRow(y) && x == y.(client := CleanCode(y.client))
  {
    var p := Filter(rows, PendingFilter());
    var r := WithCleanCodes(p);
    PendingCarteraMembers(rows, p, r);
    r
  }

  /** The rows with client codes normalised, in order. */
  function WithCleanCodes(p: seq<CarteraRow>): (r: seq<CarteraRow>)
    ensures |r| == |p| && forall i :: 0 <= i < |p| ==> r[i] == p[i].(client := CleanCode(p[i].client))
  {
    seq(|p|, i requires 0 <= i < |p| => p[i].(client := CleanCode(p[i].client)))
  }

  /** The rows of the pending portfolio are exactly the pending input rows with cleaned codes. */
  lemma PendingCarteraMembers(rows: seq<CarteraRow>, p: seq<CarteraRow>, r: seq<CarteraRow>)
    requires forall y :: y in p <==> y in rows && IsPendingRow(y)
    requires |r| == |p| && forall i :: 0 <= i < |p| ==> r[i] == p[i].(client := CleanCode(p[i].client))
    ensures forall i :: 0 <= i < |r| ==> IsPendingRow(r[i]) && Trimmed(r[i].client)
    ensures forall x :: x in r <==> exists y :: y in rows && IsPendingRow(y) && x == y.(client := CleanCode(y.client))
  {
    forall i | 0 <= i < |r| ensures IsPendingRow(r[i]) {
      assert p[i] in p;
    }
    forall x ensures x in r <==> exists y :: y in rows && IsPendingRow(y) && x == y.(client := CleanCode(y.client)) {
      if x in r {
        var i :| 0 <= i < |r| && r[i] == x;
        assert p[i] in p;
      }
      if exists y :: y in rows && IsPendingRow(y) && x == y.(client := CleanCode(y.client)) {
        var y :| y in rows && IsPendingRow(y) && x == y.(client := CleanCode(y.client));
        var i :| 0 <= i < |p| && p[i] == y;
        assert r[i] == x;
      }
    }
  }

  // ---------------------------------------------------------------- most recent activity per client

  /** Order of activity dates after sorting: parsed dates ascending, unparsed ones last. */
  predicate DateBefore(x: Option<int>, y: Option<int>) {
    x.Some? && (y.None? || x.value < y.value)
  }

  /** The latest parsed activity date of a client (`groupby(client).last()` skips empty cells). */
  function LastDay(log: seq<Activity>, c: string): (r: Option<int>)
    ensures r.None? <==> forall a :: a in log && a.client == c ==> a.day.None?
    ensures r.Some? ==> exists a :: a in log && a.client == c && a.day == r
    ensures r.Some? ==> forall a :: a in log && a.client == c && a.day.Some? ==> a.day.value <= r.value
  {
    if |log| == 0 then None
    else
      var init := log[..|log| - 1];
      var last := log[|log| - 1];
      assert log == init + [last];
      var prev := LastDay(init, c);
      if last.client == c && last.day.Some? && (prev.None? || prev.value <= last.day.value) then last.day
      else prev
  }

  /** The activity whose outcome `groupby(client).last()` reports: the last one with a non-empty
      outcome in date order, unparsed dates counting as latest. */
  function LastContactRow(log: seq<Activity>, c: string): (r: Option<Activity>)
    ensures r.None? <==> forall a :: a in log && a.client == c ==> a.contact.None?
    ensures r.Some? ==> r.value in log && r.value.client == c && r.value.contact.Some?
    ensures r.Some? ==> forall b :: b in log && b.client == c && b.contact.Some? ==> !DateBefore(r.value.day, b.day)
  {
    if |log| == 0 then None
    else
      var init := log[..|log| - 1];
      var last := log[|log| - 1];
      assert log == init + [last];
      var prev := LastContactRow(init, c);
      if last.client == c && last.contact.Some? && (prev.None? || !DateBefore(last.day, prev.value.day)) then Some(last)
      else prev
  }

  function LastContact(log: seq<Activity>, c: string): Option<string> {
    match LastContactRow(log, c)
    case None => None
    case Some(a) => a.contact
  }

  /** A pending row joined with its client's latest outcome and latest activity date. */
  datatype MasterRow = MasterRow(row: CarteraRow, contact: Option<string>, lastDay: Option<int>)

  /** The left join of the pending portfolio with the latest activity per client. */
  function Master(pending: seq<CarteraRow>, log: seq<Activity>): (m: seq<MasterRow>)
    ensures |m| == |pending|
    ensures forall i :: 0 <= i < |m| ==> m[i].row == pending[i]
    ensures forall i :: 0 <= i < |m| ==>
      (m[i].contact.None? <==> forall a :: a in log && a.client == pending[i].client ==> a.contact.None?)
    ensures forall i :: 0 <= i < |m| ==>
      (m[i].lastDay.None? <==> forall a :: a in log && a.client == pending[i].client ==> a.day.None?)
  {
    seq(|pending|, i requires 0 <= i < |pending| =>
      MasterRow(pending[i], LastContact(log, pending[i].client), LastDay(log, pending[i].client)))
  }

  // ---------------------------------------------------------------- inactivity classification

  const InactivityLabels: seq<string> := [
    "1. Sin Gestión", "2. Gestión Hoy", "3. Gestión Ayer", "4. Sin gestión (2-5 días)",
    "5. Sin gestión (6-10 días)", "6. Sin gestión (11-15 días)", "7. Sin gestión (+15 días)"]

  /** First day count of each inactivity range after "today". */
  const InactivityThresholds: seq<int> := [1, 2, 6, 11, 16]

  /** `clasificar_antiguedad`: the inactivity range of a client's latest activity date; whole days
      elapsed are `today - day`, since parsed dates carry no time of day. */
  function Clasificar(today: int, day: Option<int>): (r: string)
    ensures r in InactivityLabels
    ensures day.None? <==> r == InactivityLabels[0]
  {
    if day.None? then "1. Sin Gestión"
    else
      var dias := today - day.value;
      if dias <= 0 then "2. Gestión Hoy"
      else if dias == 1 then "3. Gestión Ayer"
      else if 2 <= dias <= 5 then "4. Sin gestión (2-5 días)"
      else if 6 <= dias <= 10 then "5. Sin gestión (6-10 días)"
      else if 11 <= dias <= 15 then "6. Sin gestión (11-15 días)"
      else "7. Sin gestión (+15 días)"
  }

  /** A dated activity falls in the range its elapsed days select from the threshold table. */
  lemma ClasificarIsBand(today: int, d: int)
    ensures Clasificar(today, Some(d)) == InactivityLabels[1 + Franjas.Band(InactivityThresholds, today - d)]
    ensures Franjas.Rank(Clasificar(today, Some(d))) == 2 + Franjas.Band(InactivityThresholds, today - d)
  {
    InactivityRankIsBand(today, d);
    InactivityLabelAtRank(Clasificar(today, Some(d)));
  }

  lemma InactivityLabelAtRank(name: string)
    requires name in InactivityLabels
    ensures 1 <= Franjas.Rank(name) <= |InactivityLabels| && InactivityLabels[Franjas.Rank(name) - 1] == name
  {
  }

  lemma InactivityRankIsBand(today: int, d: int)
    ensures Franjas.Rank(Clasificar(today, Some(d))) == 2 + Franjas.Band(InactivityThresholds, today - d)
  {
    var t := InactivityThresholds;
    var dias := today - d;
    assert Franjas.Ascending(t);
    if dias <= 0 { Franjas.BandIs(t, dias, 0); }
    else if dias == 1 { Franjas.BandIs(t, dias, 1); }
    else if dias <= 5 { Franjas.BandIs(t, dias, 2); }
    else if dias <= 10 { Franjas.BandIs(t, dias, 3); }
    else if dias <= 15 { Franjas.BandIs(t, dias, 4); }
    else { Franjas.BandIs(t, dias, 5); }
  }

  /** An older latest activity never lands in a fresher range. */
  lemma ClasificarMonotone(today: int, d1: int, d2: int)
    requires d1 <= d2
    ensures Franjas.Rank(Clasificar(today, Some(d2))) <= Franjas.Rank(Clasificar(today, Some(d1)))
  {
    InactivityRankIsBand(today, d1);
    InactivityRankIsBand(today, d2);
    Franjas.BandMonotone(InactivityThresholds, today - d2, today - d1);
  }

  // ---------------------------------------------------------------- one row per client

  function Clients(m: seq<MasterRow>): set<string> {
    set x | x in m :: x.row.client
  }

  lemma ClientsSnoc(m: seq<MasterRow>, x: MasterRow)
    ensures Clients(m + [x]) == Clients(m) + {x.row.client}
  {
    assert forall y :: y in m + [x] <==> y in m || y == x;
  }

  predicate DistinctClients(m: seq<MasterRow>) {
    forall i, j :: 0 <= i < j < |m| ==> m[i].row.client != m[j].row.client
  }

  /** Position of the first row of client `c`. */
  function FirstOf(m: seq<MasterRow>, c: string): (i: nat)
    requires c in Clients(m)
    ensures i < |m| && m[i].row.client == c
    ensures forall j :: 0 <= j < i ==> m[j].row.client != c
  {
    if m[0].row.client == c then 0
    else
      assert c in Clients(m[1..]) by {
        var x :| x in m && x.row.client == c;
        var k :| 0 <= k < |m| && m[k] == x;
        assert m[1..][k - 1] == x;
      }
      1 + FirstOf(m[1..], c)
  }

  /** `drop_duplicates(subset=[client])`: the first row of each client, in order. */
  function UniqueClients(m: seq<MasterRow>): (u: seq<MasterRow>)
    ensures DistinctClients(u)
    ensures Clients(u) == Clients(m)
    ensures forall k :: 0 <= k < |u| ==> u[k] == m[FirstOf(m, u[k].row.client)]
  {
    if |m| == 0 then []
    else
      var init := m[..|m| - 1];
      var last := m[|m| - 1];
      var prev := UniqueClients(init);
      assert m == init + [last];
      if last.row.client in Clients(prev) then
        UniqueStepSeen(init, last, prev);
        prev
      else
        UniqueStepNew(init, last, prev);
        prev + [last]
  }

  /** A row of a client already kept is dropped. */
  lemma UniqueStepSeen(init: seq<MasterRow>, last: MasterRow, prev: seq<MasterRow>)
    requires DistinctClients(prev) && Clients(prev) == Clients(init)
    requires forall k :: 0 <= k < |prev| ==> prev[k] == init[FirstOf(init, prev[k].row.client)]
    requires last.row.client in Clients(prev)
    ensures Clients(prev) == Clients(init + [last])
    ensures forall k :: 0 <= k < |prev| ==> prev[k] == (init + [last])[FirstOf(init + [last], prev[k].row.client)]
  {
    var m := init + [last];
    ClientsSnoc(init, last);
    forall k | 0 <= k < |prev| ensures prev[k] == m[FirstOf(m, prev[k].row.client)] {
      assert prev[k] in prev;
      FirstOfPrefix(init, last, prev[k].row.client);
    }
  }

  /** The first row of a new client is kept, at the end. */
  lemma UniqueStepNew(init: seq<MasterRow>, last: MasterRow, prev: seq<MasterRow>)
    requires DistinctClients(prev) && Clients(prev) == Clients(init)
    requires forall k :: 0 <= k < |prev| ==> prev[k] == init[FirstOf(init, prev[k].row.client)]
    requires last.row.client !in Clients(prev)
    ensures DistinctClients(prev + [last])
    ensures Clients(prev + [last]) == Clients(init + [last])
    ensures forall k :: 0 <= k < |prev| + 1 ==>
      (prev + [last])[k] == (init + [last])[FirstOf(init + [last], (prev + [last])[k].row.client)]
  {
    var m := init + [last];
    var u := prev + [last];
    ClientsSnoc(init, last);
    ClientsSnoc(prev, last);
    AppendNewClient(prev, last);
    NewClientFirstAtEnd(init, last);
    forall k | 0 <= k < |u| ensures u[k] == m[FirstOf(m, u[k].row.client)] {
      if k < |prev| {
        assert u[k] == prev[k];
        assert prev[k] in prev;
        FirstOfPrefix(init, last, prev[k].row.client);
      }
    }
  }

  lemma AppendNewClient(prev: seq<MasterRow>, last: MasterRow)
    requires DistinctClients(prev) && last.row.client !in Clients(prev)
    ensures DistinctClients(prev + [last])
  {
    var u := prev + [last];
    forall p, q | 0 <= p < q < |u| ensures u[p].row.client != u[q].row.client {
      assert u[p] == prev[p];
      assert u[p] in prev;
      assert q < |prev| ==> u[q] == prev[q];
    }
  }

  lemma NewClientFirstAtEnd(init: seq<MasterRow>, last: MasterRow)
    requires last.row.client !in Clients(init)
    ensures last.row.client in Clients(init + [last])
    ensures FirstOf(init + [last], last.row.client) == |init|
  {
    var m := init + [last];
    assert m[|init|] == last;
    assert last in m;
    assert forall j :: 0 <= j < |init| ==> m[j].row.client in Clients(init) by {
      forall j | 0 <= j < |init| ensures m[j].row.client in Clients(init) {
        assert m[j] == init[j] && init[j] in init;
      }
    }
  }

  /** Appending a row does not move the first row of a client already present. */
  lemma FirstOfPrefix(init: seq<MasterRow>, last: MasterRow, c: string)
    requires c in Clients(init)
    ensures c in Clients(init + [last]) && FirstOf(init + [last], c) == FirstOf(init, c)
  {
    var m := init + [last];
    var f := FirstOf(init, c);
    assert m[f] == init[f];
    assert c in Clients(m) by {
      assert m[f] in m;
    }
    assert forall j :: 0 <= j < f ==> m[j] == init[j];
  }

  /** With one row per client, the rows are as many as the clients. */
  lemma {:induction false} DistinctClientsCount(u: seq<MasterRow>)
    requires DistinctClients(u)
    ensures |Clients(u)| == |u|
    decreases |u|
  {
    if |u| > 0 {
      var init := u[..|u| - 1];
      var last := u[|u| - 1];
      assert u == init + [last];
      assert DistinctClients(init);
      DistinctClientsCount(init);
      ClientsSnoc(init, last);
      LastClientIsNew(u);
    }
  }

  lemma LastClientIsNew(u: seq<MasterRow>)
    requires DistinctClients(u) && |u| > 0
    ensures u[|u| - 1].row.client !in Clients(u[..|u| - 1])
  {
    var init := u[..|u| - 1];
    forall x | x in init ensures x.row.client != u[|u| - 1].row.client {
      var m :| 0 <= m < |init| && init[m] == x;
      assert u[m] == x;
    }
  }

  // ---------------------------------------------------------------- coverage counts

  function Worked(): MasterRow -> bool {
    (x: MasterRow) => x.contact.Some?
  }

  function Reached(): MasterRow -> bool {
    (x: MasterRow) => x.contact == Some(Effective)
  }

  /** The headline counts over unique clients. */
  datatype Coverage = Coverage(total: nat, worked: nat, effective: nat, notWorked: nat)

  /** The row `drop_duplicates` keeps for client `c`: its first. */
  function FirstRow(m: seq<MasterRow>, c: string): MasterRow
    requires c in Clients(m)
  {
    m[FirstOf(m, c)]
  }

  /** The clients whose kept row satisfies `p`. */
  function ClientsWhere(m: seq<MasterRow>, p: MasterRow -> bool): set<string> {
    set c | c in Clients(m) && p(FirstRow(m, c))
  }

  /** Counting the unique-client rows by a condition counts the clients whose first row meets it. */
  lemma CountUniqueClients(m: seq<MasterRow>, p: MasterRow -> bool)
    ensures Count(UniqueClients(m), p) == |ClientsWhere(m, p)|
  {
    var u := UniqueClients(m);
    CountByClient(u, p);
    forall c | c in ClientsWhere(m, p) ensures c in RowClientsWhere(u, p) {
      assert c in Clients(u);
      var x :| x in u && x.row.client == c;
      var k :| 0 <= k < |u| && u[k] == x;
    }
    forall x | x in u && p(x) ensures x.row.client in ClientsWhere(m, p) {
      var k :| 0 <= k < |u| && u[k] == x;
      assert x.row.client in Clients(u);
    }
    assert ClientsWhere(m, p) == RowClientsWhere(u, p);
  }

  /** The clients of the rows satisfying `p`. */
  function RowClientsWhere(u: seq<MasterRow>, p: MasterRow -> bool): set<string> {
    set x | x in u && p(x) :: x.row.client
  }

  /** With one row per client, counting rows by a condition counts the clients of those rows. */
  lemma {:induction false} CountByClient(u: seq<MasterRow>, p: MasterRow -> bool)
    requires DistinctClients(u)
    ensures Count(u, p) == |RowClientsWhere(u, p)|
    decreases |u|
  {
    if |u| > 0 {
      var init := u[..|u| - 1];
      var last := u[|u| - 1];
      assert DistinctClients(init);
      CountByClient(init, p);
      LastClientIsNew(u);
      RowClientsWhereSnoc(init, last, p);
      assert u == init + [last];
    }
  }

  lemma RowClientsWhereSnoc(init: seq<MasterRow>, last: MasterRow, p: MasterRow -> bool)
    requires last.row.client !in Clients(init)
    ensures last.row.client !in RowClientsWhere(init, p)
    ensures RowClientsWhere(init + [last], p) == RowClientsWhere(init, p) + (if p(last) then {last.row.client} else {})
  {
    assert forall y :: y in init + [last] <==> y in init || y == last;
  }

  /** The headline counts: distinct clients, the clients whose kept row has some outcome, those
      whose kept row has the effective outcome, and the rest. */
  function CoverageOf(m: seq<MasterRow>): (c: Coverage)
    ensures c.total == |Clients(m)|
    ensures c.worked == |ClientsWhere(m, Worked())| && c.effective == |ClientsWhere(m, Reached())|
    ensures c.effective <= c.worked <= c.total
    ensures c.worked + c.notWorked == c.total
  {
    var u := UniqueClients(m);
    DistinctClientsCount(u);
    CountUniqueClients(m, Worked());
    CountUniqueClients(m, Reached());
    CountMono(u, Reached(), Worked());
    var total := |u|;
    var worked := Count(u, Worked());
    Coverage(total, worked, Count(u, Reached()), total - worked)
  }

  // ---------------------------------------------------------------- per-bucket summary

  /** One line of the per-bucket summary. */
  datatype FranjaRow = FranjaRow(total: nat, worked: nat, notWorked: int, effective: nat)

  function InFranja(f: string): MasterRow -> bool {
    (x: MasterRow) => x.row.franja == Some(f)
  }

  function WorkedInFranja(f: string): MasterRow -> bool {
    (x: MasterRow) => x.row.franja == Some(f) && x.contact.Some?
  }

  function ReachedInFranja(f: string): MasterRow -> bool {
    (x: MasterRow) => x.row.franja == Some(f) && x.contact == Some(Effective)
  }

  /** The buckets present among unique clients; an empty bucket cell forms no group. */
  function FranjasOf(u: seq<MasterRow>): set<string> {
    set x | x in u && x.row.franja.Some? :: x.row.franja.value
  }

  /** The per-bucket summary over unique clients (each client counted in its first row's bucket). */
  function FranjaSummary(m: seq<MasterRow>): (s: map<string, FranjaRow>)
    ensures s.Keys == FranjasOf(UniqueClients(m))
    ensures forall f :: f in s ==>
      && s[f].total == |ClientsWhere(m, InFranja(f))|
      && s[f].worked == |ClientsWhere(m, WorkedInFranja(f))|
      && s[f].effective == |ClientsWhere(m, ReachedInFranja(f))|
    ensures forall f :: f in s ==>
      1 <= s[f].total && s[f].effective <= s[f].worked <= s[f].total
      && s[f].notWorked == s[f].total - s[f].worked
  {
    var u := UniqueClients(m);
    var s := map f | f in FranjasOf(u) ::
      var total := Count(u, InFranja(f));
      var worked := Count(u, WorkedInFranja(f));
      FranjaRow(total, worked, total - worked, Count(u, ReachedInFranja(f)));
    forall f | f in s
      ensures s[f].total == |ClientsWhere(m, InFranja(f))|
      ensures s[f].worked == |ClientsWhere(m, WorkedInFranja(f))|
      ensures s[f].effective == |ClientsWhere(m, ReachedInFranja(f))|
      ensures 1 <= s[f].total && s[f].effective <= s[f].worked <= s[f].total
    {
      FranjaBounds(u, f);
      CountUniqueClients(m, InFranja(f));
      CountUniqueClients(m, WorkedInFranja(f));
      CountUniqueClients(m, ReachedInFranja(f));
    }
    s
  }

  lemma FranjaBounds(u: seq<MasterRow>, f: string)
    requires f in FranjasOf(u)
    ensures 1 <= Count(u, InFranja(f))
    ensures Count(u, ReachedInFranja(f)) <= Count(u, WorkedInFranja(f)) <= Count(u, InFranja(f))
  {
    var x :| x in u && x.row.franja == Some(f);
    var i :| 0 <= i < |u| && u[i] == x;
    CountPositive(u, InFranja(f), i);
    CountMono(u, ReachedInFranja(f), WorkedInFranja(f));
    CountMono(u, WorkedInFranja(f), InFranja(f));
  }

  /** The not-worked count of every bucket is non-negative. */
  lemma FranjaNotWorkedNonNegative(m: seq<MasterRow>, f: string)
    requires f in FranjaSummary(m)
    ensures 0 <= FranjaSummary(m)[f].notWorked <= FranjaSummary(m)[f].total
  {
  }

  // ---------------------------------------------------------------- detail lines

  const NoContact: string := "PTE / SIN CONTACTO"
  const Managed: string := "GESTIONADO"
  const NotManaged: string := "SIN GESTIÓN"

  /** The outcome shown for a client: an empty or blank outcome becomes "PTE / SIN CONTACTO",
      any other is trimmed and upper-cased. */
  function NormalizeContact(contact: Option<string>): (r: string)
    ensures |r| > 0 && Trimmed(r)
    ensures forall i :: 0 <= i < |r| ==> !IsLower(r[i])
    ensures contact.None? || AllSpace(contact.value) ==> r == NoContact
    ensures contact.Some? && !AllSpace(contact.value) ==> r == Upper(Strip(contact.value))
  {
    if contact.None? || Strip(contact.value) == [] then NoContact
    else
      UpperTrimmed(Strip(contact.value));
      Upper(Strip(contact.value))
  }

  /** Normalising an already normalised outcome changes nothing. */
  lemma NormalizeContactIdempotent(contact: Option<string>)
    ensures NormalizeContact(Some(NormalizeContact(contact))) == NormalizeContact(contact)
  {
    var r := NormalizeContact(contact);
    StripTrimmed(r);
    UpperNoLower(r);
  }

  /** Upper-casing a string without lower-case letters changes nothing. */
  lemma UpperNoLower(s: string)
    requires forall i :: 0 <= i < |s| ==> !IsLower(s[i])
    ensures Upper(s) == s
  {
  }

  /** The state shown for a client: managed exactly when some outcome was recorded. */
  function ManagementState(contact: Option<string>): (r: string)
    ensures r == Managed <==> contact.Some?
    ensures r == NotManaged <==> contact.None?
  {
    if contact.Some? then Managed else NotManaged
  }

  /** A blank outcome is shown as "no contact" and yet the client counts as managed. */
  lemma BlankContactIsManaged(blank: string)
    requires AllSpace(blank)
    ensures NormalizeContact(Some(blank)) == NoContact && ManagementState(Some(blank)) == Managed
  {
  }

  /** One line of the detail table. */
  datatype DetailRow = DetailRow(client: string, name: string, franja: Option<string>, state: string,
    contact: string, saldo: real, inactivity: string)

  /** The detail table: one line per joined row, every line carrying a state consistent with its
      outcome and an inactivity range from the closed list. */
  function Detail(m: seq<MasterRow>, today: int): (d: seq<DetailRow>)
    ensures |d| == |m|
    ensures forall i :: 0 <= i < |d| ==> d[i].client == m[i].row.client && d[i].saldo == m[i].row.saldo
    ensures forall i :: 0 <= i < |d| ==> (d[i].state == Managed <==> m[i].contact.Some?)
    ensures forall i :: 0 <= i < |d| ==>
      d[i].inactivity in InactivityLabels && (d[i].inactivity == InactivityLabels[0] <==> m[i].lastDay.None?)
  {
    seq(|m|, i requires 0 <= i < |m| =>
      DetailRow(m[i].row.client, m[i].row.name, m[i].row.franja, ManagementState(m[i].contact),
        NormalizeContact(m[i].contact), m[i].row.saldo, Clasificar(today, m[i].lastDay)))
  }
}
