/** The monthly master consolidation (`procesar_todo`): successive projected-portfolio snapshots
    are merged by invoice identity; each invoice line keeps its latest data and the date it first
    appeared, is PENDIENTE while it is still in the newest snapshot and RECUPERADA once it has
    left it, gets its days past due and both aging buckets, and inherits its client's worst
    pending days past due. */
module Maestro {
  import opened Common
  import opened Franjas

  const SecondsPerDay: int := 86400

  /** One invoice line of a projected-portfolio extract; `rest` stands for the remaining columns,
      which are carried through unchanged. Dates are day numbers; the due date is None when its
      cell is blank (NaT). */
  datatype Invoice = Invoice(
    client: string, reference: string, docDate: int, dueDate: Option<int>, total: int, rest: seq<string>)

  /** The fields the identity key ID_S is made of. */
  datatype InvoiceKey = InvoiceKey(
    client: string, reference: string, docDate: int, dueDate: Option<int>, total: int)

  function KeyOf(inv: Invoice): InvoiceKey {
    InvoiceKey(inv.client, inv.reference, inv.docDate, inv.dueDate, inv.total)
  }

  /** One extract file: its modification time (seconds, local time) and its invoice lines. */
  datatype Snapshot = Snapshot(mtime: int, rows: seq<Invoice>)

  /** The calendar day of a modification time (FECHA_ORIGEN_ARCHIVO). */
  function DayOf(mtime: int): int {
    mtime / SecondsPerDay
  }

  lemma DayOfMonotone(a: int, b: int)
    requires a <= b
    ensures DayOf(a) <= DayOf(b)
  {
  }

  /** The keys present in a list of invoice lines. */
  function KeySet(rows: seq<Invoice>): set<InvoiceKey> {
    set inv | inv in rows :: KeyOf(inv)
  }

  datatype Estado = Pendiente | Recuperada

  /** One line of the master file. `origin` is the date of the file the kept data comes from
      (dropped from the saved columns); `maxMora` and `franjaTop` are the client-level columns.
      `diasMora` is None (NaN) when the due date is blank. */
  datatype Consolidated = Consolidated(
    key: InvoiceKey, inv: Invoice, origin: int, firstSeen: int, estado: Estado,
    recovery: Option<int>, reverso: string, diasMora: Option<int>,
    franjaCyres: string, franjaCoca: string, maxMora: int, franjaTop: string)

  // ---------------------------------------------------------------- the concatenated frame

  /** A line of the concatenated frame, tagged with its file's date. */
  datatype Row = Row(inv: Invoice, origin: int)

  function Tag(rows: seq<Invoice>, day: int): (r: seq<Row>)
    ensures |r| == |rows|
    ensures forall i :: 0 <= i < |r| ==> r[i] == Row(rows[i], day)
  {
    seq(|rows|, i requires 0 <= i < |rows| => Row(rows[i], day))
  }

  /** `pd.concat` of every snapshot, each line tagged with its file's date. */
  function Flatten(snaps: seq<Snapshot>): (rows: seq<Row>)
  {
    if |snaps| == 0 then []
    else
      var last := snaps[|snaps| - 1];
      Flatten(snaps[..|snaps| - 1]) + Tag(last.rows, DayOf(last.mtime))
  }

  /** Every line of the frame is a line of some snapshot, tagged with that snapshot's date. */
  lemma {:induction false} FromFlatten(snaps: seq<Snapshot>, r: Row)
    requires r in Flatten(snaps)
    ensures exists i :: 0 <= i < |snaps| && r.inv in snaps[i].rows && r.origin == DayOf(snaps[i].mtime)
    decreases |snaps|
  {
    var last := snaps[|snaps| - 1];
    var init := snaps[..|snaps| - 1];
    if r in Flatten(init) {
      FromFlatten(init, r);
      var i :| 0 <= i < |init| && r.inv in init[i].rows && r.origin == DayOf(init[i].mtime);
      assert snaps[i] == init[i];
    } else {
      var t := Tag(last.rows, DayOf(last.mtime));
      assert r in t;
      var j :| 0 <= j < |t| && t[j] == r;
      assert r.inv in last.rows;
    }
  }

  /** Every line of every snapshot occurs in the frame with that snapshot's date. */
  lemma {:induction false} InFlattenAt(snaps: seq<Snapshot>, i: int, inv: Invoice)
    requires 0 <= i < |snaps| && inv in snaps[i].rows
    ensures Row(inv, DayOf(snaps[i].mtime)) in Flatten(snaps)
    decreases |snaps|
  {
    var last := snaps[|snaps| - 1];
    var init := snaps[..|snaps| - 1];
    if i < |snaps| - 1 {
      InFlattenAt(init, i, inv);
    } else {
      var t := Tag(last.rows, DayOf(last.mtime));
      var j :| 0 <= j < |last.rows| && last.rows[j] == inv;
      assert t[j] == Row(inv, DayOf(last.mtime));
    }
  }

  predicate HasKey(rows: seq<Row>, k: InvoiceKey) {
    exists i :: 0 <= i < |rows| && KeyOf(rows[i].inv) == k
  }

  /** The distinct keys of the frame, in order of first occurrence. */
  function DistinctKeys(rows: seq<Row>): (keys: seq<InvoiceKey>)
    ensures forall i, j :: 0 <= i < j < |keys| ==> keys[i] != keys[j]
    ensures forall k :: k in keys <==> HasKey(rows, k)
  {
    if |rows| == 0 then []
    else
      var init := rows[..|rows| - 1];
      var k := KeyOf(rows[|rows| - 1].inv);
      var prev := DistinctKeys(init);
      assert forall k' :: HasKey(rows, k') <==> HasKey(init, k') || k' == k by {
        forall k' | HasKey(rows, k') ensures HasKey(init, k') || k' == k {
          var i :| 0 <= i < |rows| && KeyOf(rows[i].inv) == k';
          if i < |rows| - 1 {
            assert init[i] == rows[i];
          }
        }
        forall k' | HasKey(init, k') ensures HasKey(rows, k') {
          var i :| 0 <= i < |init| && KeyOf(init[i].inv) == k';
          assert rows[i] == init[i];
        }
      }
      if k in prev then prev else prev + [k]
  }

  /** The line `drop_duplicates(keep='last')` keeps after sorting by file date: one with the
      latest date among the lines of key `k` (the later one in file order on equal dates). */
  function Latest(rows: seq<Row>, k: InvoiceKey): (r: Row)
    requires HasKey(rows, k)
    ensures r in rows && KeyOf(r.inv) == k
    ensures forall i :: 0 <= i < |rows| && KeyOf(rows[i].inv) == k ==> rows[i].origin <= r.origin
  {
    var init := rows[..|rows| - 1];
    var last := rows[|rows| - 1];
    assert forall i :: 0 <= i < |init| ==> init[i] == rows[i];
    if KeyOf(last.inv) != k then
      assert HasKey(init, k) by {
        var i :| 0 <= i < |rows| && KeyOf(rows[i].inv) == k;
        assert i < |init|;
      }
      Latest(init, k)
    else if !HasKey(init, k) then last
    else
      var prev := Latest(init, k);
      if prev.origin > last.origin then prev else last
  }

  /** PRIMERA_APARICION: the earliest file date among the lines of key `k`. */
  function Earliest(rows: seq<Row>, k: InvoiceKey): (d: int)
    requires HasKey(rows, k)
    ensures exists i :: 0 <= i < |rows| && KeyOf(rows[i].inv) == k && rows[i].origin == d
    ensures forall i :: 0 <= i < |rows| && KeyOf(rows[i].inv) == k ==> d <= rows[i].origin
  {
    var init := rows[..|rows| - 1];
    var last := rows[|rows| - 1];
    assert forall i :: 0 <= i < |init| ==> init[i] == rows[i];
    if KeyOf(last.inv) != k then
      assert HasKey(init, k) by {
        var i :| 0 <= i < |rows| && KeyOf(rows[i].inv) == k;
        assert i < |init|;
      }
      Earliest(init, k)
    else if !HasKey(init, k) then last.origin
    else
      var prev := Earliest(init, k);
      if prev < last.origin then prev else last.origin
  }

  /** The file `max(archivos, key=os.path.getmtime)` picks: the first with the newest mtime. */
  function LatestIndex(snaps: seq<Snapshot>): (i: nat)
    requires |snaps| > 0
    ensures i < |snaps|
    ensures forall j :: 0 <= j < |snaps| ==> snaps[j].mtime <= snaps[i].mtime
    ensures forall j :: 0 <= j < i ==> snaps[j].mtime < snaps[i].mtime
  {
    if |snaps| == 1 then 0
    else
      var j := LatestIndex(snaps[..|snaps| - 1]);
      if snaps[|snaps| - 1].mtime > snaps[j].mtime then |snaps| - 1 else j
  }

  // ---------------------------------------------------------------- one master line

  /** The Cyres bucket of a days-past-due cell: a missing (NaN) figure fails every comparison of
      `obtener_franja_cyres` and falls through to its last bucket. */
  function CyresBucket(dias: Option<int>): (r: string)
    ensures dias.None? ==> r == CyresLabels[|CyresLabels| - 1]
    ensures dias.Some? ==> r == FranjaCyres(dias.value)
  {
    match dias
    case None => "9- Mayor a 30"
    case Some(d) => FranjaCyres(d)
  }

  /** The Coca-Cola bucket of a days-past-due cell, with the same fall-through for NaN. */
  function CocaBucket(dias: Option<int>): (r: string)
    ensures dias.None? ==> r == CocaLabels[|CocaLabels| - 1]
    ensures dias.Some? ==> r == FranjaCoca(dias.value)
  {
    match dias
    case None => "5- Mayor a 30"
    case Some(d) => FranjaCoca(d)
  }

  /** DIAS_MORA of a line: from the due date to `until`, NaN when the due date is blank. */
  function MoraUntil(due: Option<int>, until: int): (m: Option<int>)
    ensures m.Some? <==> due.Some?
    ensures m.Some? ==> until == due.value + m.value
  {
    match due
    case None => None
    case Some(d) => Some(until - d)
  }

  /** The master line of key `k` before the client-level columns are filled in: state from the
      latest snapshot's keys, recovery date, reversal flag, days past due and both buckets. */
  function Record(rows: seq<Row>, k: InvoiceKey, latestKeys: set<InvoiceKey>, today: int): (c: Consolidated)
    requires HasKey(rows, k)
    ensures c.key == k == KeyOf(c.inv)
    ensures Row(c.inv, c.origin) == Latest(rows, k) && c.firstSeen == Earliest(rows, k)
    ensures c.estado == Pendiente <==> k in latestKeys
    ensures c.recovery == (if c.estado == Recuperada then Some(c.origin) else None)
    ensures c.reverso == "NO"
    ensures c.diasMora == MoraUntil(c.inv.dueDate, if c.estado == Pendiente then today else c.origin)
    ensures c.franjaCyres == CyresBucket(c.diasMora) && c.franjaCoca == CocaBucket(c.diasMora)
  {
    var kept := Latest(rows, k);
    var estado := if k in latestKeys then Pendiente else Recuperada;
    var recovery := if estado == Recuperada then Some(kept.origin) else None;
    var mora := MoraUntil(kept.inv.dueDate, if estado == Pendiente then today else recovery.value);
    // maxMora and franjaTop are placeholders here; PropagateMaxMora fills them in
    Consolidated(k, kept.inv, kept.origin, Earliest(rows, k), estado, recovery, "NO", mora,
                 CyresBucket(mora), CocaBucket(mora), 0, FranjaCoca(0))
  }

  // ---------------------------------------------------------------- client-level columns

  predicate PendingOf(c: Consolidated, client: string) {
    c.estado == Pendiente && c.inv.client == client
  }

  /** A pending line of the client that has a DIAS_MORA figure; the per-client maximum skips NaN. */
  predicate Counted(c: Consolidated, client: string) {
    PendingOf(c, client) && c.diasMora.Some?
  }

  /** The largest days past due among the client's pending lines that have a figure, if there are any. */
  function PendingMax(recs: seq<Consolidated>, client: string): (m: Option<int>)
    ensures m.None? <==> forall i :: 0 <= i < |recs| ==> !Counted(recs[i], client)
    ensures m.Some? ==> exists i :: 0 <= i < |recs| && Counted(recs[i], client) && recs[i].diasMora.value == m.value
    ensures m.Some? ==> forall i :: 0 <= i < |recs| && Counted(recs[i], client) ==> recs[i].diasMora.value <= m.value
  {
    if |recs| == 0 then None
    else
      var init := recs[..|recs| - 1];
      var last := recs[|recs| - 1];
      assert forall i :: 0 <= i < |init| ==> init[i] == recs[i];
      var prev := PendingMax(init, client);
      if !Counted(last, client) then prev
      else if prev.Some? && prev.value >= last.diasMora.value then prev
      else Some(last.diasMora.value)
  }

  /** MAX_MORA: the client's largest pending days past due, or 0 when no pending line has a figure. */
  function MaxMora(recs: seq<Consolidated>, client: string): (m: int)
    ensures forall i :: 0 <= i < |recs| && Counted(recs[i], client) ==> recs[i].diasMora.value <= m
    ensures (exists i :: 0 <= i < |recs| && Counted(recs[i], client) && recs[i].diasMora.value == m)
         || ((forall i :: 0 <= i < |recs| ==> !Counted(recs[i], client)) && m == 0)
  {
    PendingMax(recs, client).GetOr(0)
  }

  /** Fills MAX_MORA and "Franja Top General" on every line from the lines as they stand. */
  function PropagateMaxMora(recs: seq<Consolidated>): (out: seq<Consolidated>)
  {
    seq(|recs|, i requires 0 <= i < |recs| =>
      var m := MaxMora(recs, recs[i].inv.client);
      recs[i].(maxMora := m, franjaTop := FranjaCoca(m)))
  }

  // ---------------------------------------------------------------- procesar_todo

  /** The master lines before the client-level columns are filled in: one per distinct key. */
  function Records(snaps: seq<Snapshot>, today: int): (recs: seq<Consolidated>)
    requires |snaps| > 0
  {
    var rows := Flatten(snaps);
    var latestKeys := KeySet(snaps[LatestIndex(snaps)].rows);
    var keys := DistinctKeys(rows);
    seq(|keys|, i requires 0 <= i < |keys| => Record(rows, keys[i], latestKeys, today))
  }

  /** `procesar_todo` with the snapshot files and today's date passed in: None when there is no
      file to process, otherwise the master lines. */
  function ProcesarTodo(snaps: seq<Snapshot>, today: int): (out: Option<seq<Consolidated>>)
    ensures out.None? <==> |snaps| == 0
  {
    if |snaps| == 0 then None else Some(PropagateMaxMora(Records(snaps, today)))
  }

  // ---------------------------------------------------------------- properties of the master file

  /** Some snapshot holds key `k`. */
  predicate Seen(snaps: seq<Snapshot>, k: InvoiceKey) {
    exists s :: s in snaps && k in KeySet(s.rows)
  }

  /** Every line of every snapshot occurs in the frame with that snapshot's date. */
  lemma InFlatten(snaps: seq<Snapshot>, s: Snapshot, inv: Invoice)
    requires s in snaps && inv in s.rows
    ensures Row(inv, DayOf(s.mtime)) in Flatten(snaps)
  {
    var i :| 0 <= i < |snaps| && snaps[i] == s;
    InFlattenAt(snaps, i, inv);
  }

  /** A key occurs in the concatenated frame exactly when some snapshot holds it. */
  lemma FlattenKeys(snaps: seq<Snapshot>, k: InvoiceKey)
    ensures HasKey(Flatten(snaps), k) <==> Seen(snaps, k)
  {
    var rows := Flatten(snaps);
    if HasKey(rows, k) {
      var i :| 0 <= i < |rows| && KeyOf(rows[i].inv) == k;
      FromFlatten(snaps, rows[i]);
      var j :| 0 <= j < |snaps| && rows[i].inv in snaps[j].rows && rows[i].origin == DayOf(snaps[j].mtime);
      assert k in KeySet(snaps[j].rows);
      assert snaps[j] in snaps;
    }
    if Seen(snaps, k) {
      var s :| s in snaps && k in KeySet(s.rows);
      var inv :| inv in s.rows && KeyOf(inv) == k;
      InFlatten(snaps, s, inv);
      var i :| 0 <= i < |rows| && rows[i] == Row(inv, DayOf(s.mtime));
    }
  }

  /** Line `i` of the result is the record of the `i`-th distinct key of the frame. */
  lemma RecordAt(snaps: seq<Snapshot>, today: int, i: int)
    requires |snaps| > 0 && 0 <= i < |ProcesarTodo(snaps, today).value|
    ensures var out := ProcesarTodo(snaps, today).value;
      var rows := Flatten(snaps);
      var keys := DistinctKeys(rows);
      && |out| == |keys| && HasKey(rows, keys[i]) && out[i].key == keys[i]
      && Row(out[i].inv, out[i].origin) == Latest(rows, keys[i])
      && out[i].firstSeen == Earliest(rows, keys[i])
      && (out[i].estado == Pendiente <==> keys[i] in KeySet(snaps[LatestIndex(snaps)].rows))
  {
    var recs := Records(snaps, today);
    assert recs[i] == Record(Flatten(snaps), DistinctKeys(Flatten(snaps))[i],
                             KeySet(snaps[LatestIndex(snaps)].rows), today);
  }

  /** The kept line of a key comes from a snapshot holding it with the latest date of all
      snapshots holding it. */
  lemma LatestFromSnapshot(snaps: seq<Snapshot>, k: InvoiceKey)
    requires HasKey(Flatten(snaps), k)
    ensures var kept := Latest(Flatten(snaps), k);
      && (exists s :: s in snaps && kept.inv in s.rows && DayOf(s.mtime) == kept.origin)
      && (forall s :: s in snaps && k in KeySet(s.rows) ==> DayOf(s.mtime) <= kept.origin)
  {
    var rows := Flatten(snaps);
    var kept := Latest(rows, k);
    FromFlatten(snaps, kept);
    var j :| 0 <= j < |snaps| && kept.inv in snaps[j].rows && kept.origin == DayOf(snaps[j].mtime);
    assert snaps[j] in snaps;
    FlattenKeys(snaps, k);
    forall s | s in snaps && k in KeySet(s.rows) ensures DayOf(s.mtime) <= kept.origin {
      var inv :| inv in s.rows && KeyOf(inv) == k;
      InFlatten(snaps, s, inv);
      var m :| 0 <= m < |rows| && rows[m] == Row(inv, DayOf(s.mtime));
    }
  }

  lemma EarliestBeforeLatest(rows: seq<Row>, k: InvoiceKey)
    requires HasKey(rows, k)
    ensures Earliest(rows, k) <= Latest(rows, k).origin
  {
    var kept := Latest(rows, k);
    var n :| 0 <= n < |rows| && rows[n] == kept;
  }

  /** The earliest date of a key's lines is the earliest date of a snapshot holding it, and it
      does not follow the kept line's date. */
  lemma EarliestFromSnapshot(snaps: seq<Snapshot>, k: InvoiceKey)
    requires HasKey(Flatten(snaps), k)
    ensures var d := Earliest(Flatten(snaps), k);
      && (exists s :: s in snaps && k in KeySet(s.rows) && DayOf(s.mtime) == d)
      && (forall s :: s in snaps && k in KeySet(s.rows) ==> d <= DayOf(s.mtime))
      && d <= Latest(Flatten(snaps), k).origin
  {
    EarliestAttained(snaps, k);
    EarliestMinimal(snaps, k);
    EarliestBeforeLatest(Flatten(snaps), k);
  }

  lemma EarliestAttained(snaps: seq<Snapshot>, k: InvoiceKey)
    requires HasKey(Flatten(snaps), k)
    ensures exists s :: s in snaps && k in KeySet(s.rows) && DayOf(s.mtime) == Earliest(Flatten(snaps), k)
  {
    var rows := Flatten(snaps);
    var d := Earliest(rows, k);
    var m :| 0 <= m < |rows| && KeyOf(rows[m].inv) == k && rows[m].origin == d;
    FromFlatten(snaps, rows[m]);
    var j :| 0 <= j < |snaps| && rows[m].inv in snaps[j].rows && rows[m].origin == DayOf(snaps[j].mtime);
    assert snaps[j] in snaps && k in KeySet(snaps[j].rows);
  }

  lemma EarliestMinimal(snaps: seq<Snapshot>, k: InvoiceKey)
    requires HasKey(Flatten(snaps), k)
    ensures forall s :: s in snaps && k in KeySet(s.rows) ==> Earliest(Flatten(snaps), k) <= DayOf(s.mtime)
  {
    var rows := Flatten(snaps);
    var d := Earliest(rows, k);
    forall s | s in snaps && k in KeySet(s.rows) ensures d <= DayOf(s.mtime) {
      var inv :| inv in s.rows && KeyOf(inv) == k;
      InFlatten(snaps, s, inv);
      var n :| 0 <= n < |rows| && rows[n] == Row(inv, DayOf(s.mtime));
    }
  }

  /** After consolidation there is exactly one line per identity key, and the keys are exactly
      those of the snapshots. */
  lemma OneRecordPerKey(snaps: seq<Snapshot>, today: int)
    requires |snaps| > 0
    ensures var out := ProcesarTodo(snaps, today).value;
      && (forall i, j :: 0 <= i < j < |out| ==> out[i].key != out[j].key)
      && (forall i :: 0 <= i < |out| ==> out[i].key == KeyOf(out[i].inv))
      && (forall k :: (exists i :: 0 <= i < |out| && out[i].key == k) <==> Seen(snaps, k))
  {
    var out := ProcesarTodo(snaps, today).value;
    var keys := DistinctKeys(Flatten(snaps));
    forall i | 0 <= i < |out| ensures out[i].key == keys[i] {
      RecordAt(snaps, today, i);
    }
    forall k ensures (exists i :: 0 <= i < |out| && out[i].key == k) <==> Seen(snaps, k) {
      FlattenKeys(snaps, k);
      if k in keys {
        var i :| 0 <= i < |keys| && keys[i] == k;
        assert out[i].key == k;
      }
    }
  }

  /** Every master line carries the data of a snapshot holding its key, one with the latest date
      among the snapshots that hold it. */
  lemma KeptFromLatestSnapshot(snaps: seq<Snapshot>, today: int)
    requires |snaps| > 0
    ensures var out := ProcesarTodo(snaps, today).value;
      forall i :: 0 <= i < |out| ==>
        && (exists s :: s in snaps && out[i].inv in s.rows && DayOf(s.mtime) == out[i].origin)
        && (forall s :: s in snaps && out[i].key in KeySet(s.rows) ==> DayOf(s.mtime) <= out[i].origin)
  {
    var out := ProcesarTodo(snaps, today).value;
    forall i | 0 <= i < |out|
      ensures exists s :: s in snaps && out[i].inv in s.rows && DayOf(s.mtime) == out[i].origin
      ensures forall s :: s in snaps && out[i].key in KeySet(s.rows) ==> DayOf(s.mtime) <= out[i].origin
    {
      RecordAt(snaps, today, i);
      LatestFromSnapshot(snaps, out[i].key);
    }
  }

  /** PRIMERA_APARICION is the earliest date of a snapshot holding the key, so it never follows
      the date the kept data comes from. */
  lemma FirstAppearanceIsMinimum(snaps: seq<Snapshot>, today: int)
    requires |snaps| > 0
    ensures var out := ProcesarTodo(snaps, today).value;
      forall i :: 0 <= i < |out| ==>
        && (exists s :: s in snaps && out[i].key in KeySet(s.rows) && DayOf(s.mtime) == out[i].firstSeen)
        && (forall s :: s in snaps && out[i].key in KeySet(s.rows) ==> out[i].firstSeen <= DayOf(s.mtime))
        && out[i].firstSeen <= out[i].origin
  {
    var out := ProcesarTodo(snaps, today).value;
    forall i | 0 <= i < |out|
      ensures exists s :: s in snaps && out[i].key in KeySet(s.rows) && DayOf(s.mtime) == out[i].firstSeen
      ensures forall s :: s in snaps && out[i].key in KeySet(s.rows) ==> out[i].firstSeen <= DayOf(s.mtime)
      ensures out[i].firstSeen <= out[i].origin
    {
      RecordAt(snaps, today, i);
      EarliestFromSnapshot(snaps, out[i].key);
    }
  }

  /** ESTADO is PENDIENTE exactly for the keys of the newest snapshot (by modification time),
      RECUPERADA for the others; every key of the newest snapshot ends up PENDIENTE. */
  lemma EstadoIffInLatest(snaps: seq<Snapshot>, today: int)
    requires |snaps| > 0
    ensures var out := ProcesarTodo(snaps, today).value;
      var newest := snaps[LatestIndex(snaps)];
      && (forall i :: 0 <= i < |out| ==> (out[i].estado == Pendiente <==> out[i].key in KeySet(newest.rows)))
      && (forall inv :: inv in newest.rows ==>
            exists i :: 0 <= i < |out| && out[i].key == KeyOf(inv) && out[i].estado == Pendiente)
  {
    var out := ProcesarTodo(snaps, today).value;
    var newest := snaps[LatestIndex(snaps)];
    OneRecordPerKey(snaps, today);
    forall inv | inv in newest.rows
      ensures exists i :: 0 <= i < |out| && out[i].key == KeyOf(inv) && out[i].estado == Pendiente
    {
      assert KeyOf(inv) in KeySet(newest.rows) && newest in snaps;
      assert Seen(snaps, KeyOf(inv));
    }
  }

  /** RECUPERACION is set exactly on RECUPERADA lines, to the date of their last snapshot;
      REVERSO is always "NO". */
  lemma RecoveryAndReverso(snaps: seq<Snapshot>, today: int)
    requires |snaps| > 0
    ensures var out := ProcesarTodo(snaps, today).value;
      forall i :: 0 <= i < |out| ==>
        && (out[i].recovery.Some? <==> out[i].estado == Recuperada)
        && (out[i].recovery.Some? ==> out[i].recovery.value == out[i].origin)
        && out[i].reverso == "NO"
  {
  }

  /** DIAS_MORA counts from the due date to today for a pending line and to its recovery date for
      a recovered one, and is NaN when the due date is blank; both buckets are taken from it, and a
      blank due date lands in the last bucket of each taxonomy. */
  lemma DiasMoraByEstado(snaps: seq<Snapshot>, today: int)
    requires |snaps| > 0
    ensures var out := ProcesarTodo(snaps, today).value;
      forall i :: 0 <= i < |out| ==>
        && (out[i].diasMora.Some? <==> out[i].inv.dueDate.Some?)
        && (out[i].estado == Pendiente && out[i].inv.dueDate.Some? ==>
              out[i].diasMora.value == today - out[i].inv.dueDate.value)
        && (out[i].estado == Recuperada && out[i].inv.dueDate.Some? ==>
              out[i].diasMora.value == out[i].recovery.value - out[i].inv.dueDate.value)
        && (out[i].diasMora.Some? ==>
              out[i].franjaCyres == FranjaCyres(out[i].diasMora.value)
              && out[i].franjaCoca == FranjaCoca(out[i].diasMora.value))
        && (out[i].inv.dueDate.None? ==>
              out[i].franjaCyres == "9- Mayor a 30" && out[i].franjaCoca == "5- Mayor a 30")
  {
  }

  /** What `PropagateMaxMora` promises of any list of lines. */
  lemma PropagateMaxMoraFacts(recs: seq<Consolidated>)
    ensures var out := PropagateMaxMora(recs);
      && |out| == |recs|
      && (forall i, j {:trigger out[i].maxMora, out[j].diasMora} ::
            0 <= i < |out| && 0 <= j < |out| && Counted(out[j], out[i].inv.client) ==>
            out[j].diasMora.value <= out[i].maxMora)
      && (forall i {:trigger out[i].maxMora} :: 0 <= i < |out| ==>
            (exists j :: 0 <= j < |out| && Counted(out[j], out[i].inv.client) && out[j].diasMora.value == out[i].maxMora)
            || ((forall j :: 0 <= j < |out| ==> !Counted(out[j], out[i].inv.client)) && out[i].maxMora == 0))
      && (forall i :: 0 <= i < |out| ==> out[i].franjaTop == FranjaCoca(out[i].maxMora))
  {
    var out := PropagateMaxMora(recs);
    assert |out| == |recs|;
    forall i, j | 0 <= i < |out| && 0 <= j < |out| && Counted(out[j], out[i].inv.client)
      ensures out[j].diasMora.value <= out[i].maxMora
    {
      PropagatedBound(recs, i, j);
    }
    forall i | 0 <= i < |out|
      ensures (exists j :: 0 <= j < |out| && Counted(out[j], out[i].inv.client) && out[j].diasMora.value == out[i].maxMora)
              || ((forall j :: 0 <= j < |out| ==> !Counted(out[j], out[i].inv.client)) && out[i].maxMora == 0)
      ensures out[i].franjaTop == FranjaCoca(out[i].maxMora)
    {
      PropagatedLine(recs, i);
    }
  }

  lemma PropagatedBound(recs: seq<Consolidated>, i: nat, j: nat)
    requires i < |recs| && j < |recs|
    ensures var out := PropagateMaxMora(recs);
      Counted(out[j], out[i].inv.client) ==> out[j].diasMora.value <= out[i].maxMora
  {
    PropagateFields(recs);
    assert Counted(PropagateMaxMora(recs)[j], recs[i].inv.client) ==> Counted(recs[j], recs[i].inv.client);
  }

  /** Propagation touches only the two client-level columns. */
  lemma PropagateFields(recs: seq<Consolidated>)
    ensures var out := PropagateMaxMora(recs);
      && |out| == |recs|
      && forall j :: 0 <= j < |out| ==>
        && out[j].estado == recs[j].estado && out[j].inv == recs[j].inv
        && out[j].diasMora == recs[j].diasMora
        && out[j].maxMora == MaxMora(recs, recs[j].inv.client)
        && out[j].franjaTop == FranjaCoca(out[j].maxMora)
  {
  }

  lemma PropagatedLine(recs: seq<Consolidated>, i: nat)
    requires i < |recs|
    ensures var out := PropagateMaxMora(recs);
      out[i].franjaTop == FranjaCoca(out[i].maxMora)
    ensures var out := PropagateMaxMora(recs);
      (exists j :: 0 <= j < |out| && Counted(out[j], out[i].inv.client) && out[j].diasMora.value == out[i].maxMora)
      || ((forall j :: 0 <= j < |out| ==> !Counted(out[j], out[i].inv.client)) && out[i].maxMora == 0)
  {
    var out := PropagateMaxMora(recs);
    PropagateFields(recs);
    var c := recs[i].inv.client;
    var m := MaxMora(recs, c);
    if j :| 0 <= j < |recs| && Counted(recs[j], c) && recs[j].diasMora.value == m {
      assert Counted(out[j], c) && out[j].diasMora.value == m;
    } else {
      assert forall j :: 0 <= j < |out| ==> (Counted(out[j], c) <==> Counted(recs[j], c));
    }
  }

  /** MAX_MORA is the client's largest pending DIAS_MORA, NaN skipped (0 for a client with no
      pending figure),
      so it bounds every pending line of the client; "Franja Top General" is its Coca-Cola bucket. */
  lemma MaxMoraIsPendingMaximum(snaps: seq<Snapshot>, today: int)
    requires |snaps| > 0
    ensures var out := ProcesarTodo(snaps, today).value;
      && (forall i, j {:trigger out[i].maxMora, out[j].diasMora} ::
            0 <= i < |out| && 0 <= j < |out| && Counted(out[j], out[i].inv.client) ==>
            out[j].diasMora.value <= out[i].maxMora)
      && (forall i {:trigger out[i].maxMora} :: 0 <= i < |out| ==>
            (exists j :: 0 <= j < |out| && Counted(out[j], out[i].inv.client) && out[j].diasMora.value == out[i].maxMora)
            || ((forall j :: 0 <= j < |out| ==> !Counted(out[j], out[i].inv.client)) && out[i].maxMora == 0))
      && (forall i :: 0 <= i < |out| ==> out[i].franjaTop == FranjaCoca(out[i].maxMora))
  {
    PropagateMaxMoraFacts(Records(snaps, today));
  }

  /** A pending key's kept line has the newest snapshot's date: that snapshot holds the key and
      no snapshot is dated later. */
  lemma PendingKeyFromNewestDay(snaps: seq<Snapshot>, k: InvoiceKey)
    requires |snaps| > 0 && HasKey(Flatten(snaps), k)
    requires k in KeySet(snaps[LatestIndex(snaps)].rows)
    ensures Latest(Flatten(snaps), k).origin == DayOf(snaps[LatestIndex(snaps)].mtime)
  {
    var newest := snaps[LatestIndex(snaps)];
    var kept := Latest(Flatten(snaps), k);
    LatestFromSnapshot(snaps, k);
    assert newest in snaps;
    var s :| s in snaps && kept.inv in s.rows && DayOf(s.mtime) == kept.origin;
    var j :| 0 <= j < |snaps| && snaps[j] == s;
    DayOfMonotone(s.mtime, newest.mtime);
  }

  /** A pending line's data always comes from the newest snapshot's date. */
  lemma PendingKeptFromNewestDay(snaps: seq<Snapshot>, today: int)
    requires |snaps| > 0
    ensures var out := ProcesarTodo(snaps, today).value;
      forall i :: 0 <= i < |out| && out[i].estado == Pendiente ==>
        out[i].origin == DayOf(snaps[LatestIndex(snaps)].mtime)
  {
    var out := ProcesarTodo(snaps, today).value;
    forall i | 0 <= i < |out| && out[i].estado == Pendiente
      ensures out[i].origin == DayOf(snaps[LatestIndex(snaps)].mtime)
    {
      RecordAt(snaps, today, i);
      PendingKeyFromNewestDay(snaps, out[i].key);
    }
  }

  /** With no snapshot file there is nothing to consolidate. */
  lemma NothingWithoutSnapshots(today: int)
    ensures ProcesarTodo([], today).None?
  {
  }

  // ---------------------------------------------------------------- the identity key as written

  /** Decimal text of an integer (the `astype(str)` of a numeric cell). */
  function Show(n: int): string
    decreases if n < 0 then 1 - n else n
  {
    if n < 0 then "-" + Show(-n)
    else if n < 10 then [('0' as int + n) as char]
    else Show(n / 10) + Show(n % 10)
  }

  /** Text of a date cell: a blank one prints as "NaT". */
  function ShowDate(d: Option<int>): string {
    match d
    case None => "NaT"
    case Some(n) => Show(n)
  }

  /** ID_S as the source builds it: the texts of the five key cells glued together without a
      separator. */
  function TextKey(inv: Invoice): string {
    inv.client + inv.reference + Show(inv.docDate) + ShowDate(inv.dueDate) + Show(inv.total)
  }

  /** Two different invoice lines can share one ID_S: client "1" with reference "23" and client
      "12" with reference "3" glue to the same text, so they would be merged into one line. */
  lemma TextKeyCollides()
    ensures exists a: Invoice, b: Invoice :: KeyOf(a) != KeyOf(b) && TextKey(a) == TextKey(b)
  {
    var a := Invoice("1", "23", 0, Some(0), 0, []);
    var b := Invoice("12", "3", 0, Some(0), 0, []);
    assert a.client + a.reference == b.client + b.reference;
    assert TextKey(a) == TextKey(b);
  }

  /** The structured key the model merges by tells apart any two lines that differ in one of the
      five key cells. */
  lemma KeyOfSeparates(a: Invoice, b: Invoice)
    ensures KeyOf(a) == KeyOf(b) <==>
      a.client == b.client && a.reference == b.reference && a.docDate == b.docDate
      && a.dueDate == b.dueDate && a.total == b.total
  {
  }
}
