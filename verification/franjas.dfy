/** Aging buckets ("franjas de mora"): the two taxonomies the master consolidation writes
    (`obtener_franja_cyres`, `obtener_franja_coca`), and the threshold table both are cut from. */
module Franjas {

  /** Ascending lower bounds of bands 1..|thresholds| (band 0 lies below the first). */
  predicate Ascending(thresholds: seq<int>) {
    forall i, j :: 0 <= i < j < |thresholds| ==> thresholds[i] < thresholds[j]
  }

  /** The band `x` falls in: how many lower bounds lie at or below `x`. */
  function Band(thresholds: seq<int>, x: int): (k: nat)
    ensures k <= |thresholds|
  {
    BandFrom(thresholds, x, 0)
  }

  /** How many of the bounds from position `i` on lie at or below `x`. */
  function BandFrom(thresholds: seq<int>, x: int, i: nat): (k: nat)
    ensures i <= |thresholds| ==> i + k <= |thresholds|
    ensures i > |thresholds| ==> k == 0
    decreases |thresholds| - i
  {
    if i >= |thresholds| then 0
    else (if thresholds[i] <= x then 1 else 0) + BandFrom(thresholds, x, i + 1)
  }

  /** A larger value never falls in a lower band. */
  lemma BandMonotone(thresholds: seq<int>, x: int, y: int)
    requires x <= y
    ensures Band(thresholds, x) <= Band(thresholds, y)
  {
    BandFromMonotone(thresholds, x, y, 0);
  }

  lemma {:induction false} BandFromMonotone(thresholds: seq<int>, x: int, y: int, i: nat)
    requires x <= y
    ensures BandFrom(thresholds, x, i) <= BandFrom(thresholds, y, i)
    decreases |thresholds| - i
  {
    if i < |thresholds| {
      BandFromMonotone(thresholds, x, y, i + 1);
    }
  }

  /** With ascending bounds, band `k` is exactly the interval [thresholds[k-1], thresholds[k]). */
  lemma BandBounds(thresholds: seq<int>, x: int)
    requires Ascending(thresholds)
    ensures var k := Band(thresholds, x);
      (k == 0 || thresholds[k - 1] <= x) && (k == |thresholds| || x < thresholds[k])
  {
    BandFromBounds(thresholds, x, 0);
  }

  lemma {:induction false} BandFromBounds(thresholds: seq<int>, x: int, i: nat)
    requires Ascending(thresholds) && i <= |thresholds|
    ensures var k := BandFrom(thresholds, x, i);
      (k == 0 || thresholds[i + k - 1] <= x) && (i + k == |thresholds| || x < thresholds[i + k])
    decreases |thresholds| - i
  {
    if i < |thresholds| {
      BandFromBounds(thresholds, x, i + 1);
      var k' := BandFrom(thresholds, x, i + 1);
      assert k' > 0 ==> thresholds[i] < thresholds[i + k'];
    }
  }

  /** The interval description determines the band. */
  lemma BandIs(thresholds: seq<int>, x: int, k: nat)
    requires Ascending(thresholds) && k <= |thresholds|
    requires k == 0 || thresholds[k - 1] <= x
    requires k == |thresholds| || x < thresholds[k]
    ensures Band(thresholds, x) == k
  {
    BandBounds(thresholds, x);
  }

  /** The leading digit of a bucket label, which orders the buckets. */
  function Rank(name: string): int {
    if |name| == 0 then 0 else name[0] as int - '0' as int
  }

  // ---------------------------------------------------------------- Cyres taxonomy

  const CyresLabels: seq<string> := [
    "0- Corriente", "1- Vence mañana", "2- Vence hoy", "3- Venció ayer", "4- 2 a 4",
    "5- 5 a 7", "6- 8 a 14", "7- 15 a 21", "8- 22 a 30", "9- Mayor a 30"]

  /** First day of each Cyres bucket after "0- Corriente". */
  const CyresThresholds: seq<int> := [-1, 0, 1, 2, 5, 8, 15, 22, 31]

  /** `obtener_franja_cyres`: the Cyres bucket of a days-past-due figure; total over integers. */
  function FranjaCyres(dias: int): (r: string)
    ensures r in CyresLabels
  {
    if dias < -1 then "0- Corriente"
    else if dias == -1 then "1- Vence mañana"
    else if dias == 0 then "2- Vence hoy"
    else if dias == 1 then "3- Venció ayer"
    else if 2 <= dias <= 4 then "4- 2 a 4"
    else if 5 <= dias <= 7 then "5- 5 a 7"
    else if 8 <= dias <= 14 then "6- 8 a 14"
    else if 15 <= dias <= 21 then "7- 15 a 21"
    else if 22 <= dias <= 30 then "8- 22 a 30"
    else "9- Mayor a 30"
  }

  /** The Cyres bucket is the band of the threshold table, and its label's leading digit is the band. */
  lemma FranjaCyresIsBand(dias: int)
    ensures FranjaCyres(dias) == CyresLabels[Band(CyresThresholds, dias)]
    ensures Rank(FranjaCyres(dias)) == Band(CyresThresholds, dias)
  {
    CyresRankIsBand(dias);
    CyresLabelAtRank(FranjaCyres(dias));
  }

  /** Each Cyres label sits at the position its leading digit names. */
  lemma CyresLabelAtRank(name: string)
    requires name in CyresLabels
    ensures 0 <= Rank(name) < |CyresLabels| && CyresLabels[Rank(name)] == name
  {
  }

  lemma CyresRankIsBand(dias: int)
    ensures Rank(FranjaCyres(dias)) == Band(CyresThresholds, dias)
  {
    if dias <= 1 {
      CyresRankIsBandNear(dias);
    } else {
      CyresRankIsBandFar(dias);
    }
  }

  /** Buckets 0 to 3: not yet due, due tomorrow, due today, due yesterday. */
  lemma CyresRankIsBandNear(dias: int)
    requires dias <= 1
    ensures Rank(FranjaCyres(dias)) == Band(CyresThresholds, dias)
  {
    var t := CyresThresholds;
    assert Ascending(t);
    if dias < -1 { BandIs(t, dias, 0); }
    else if dias == -1 { BandIs(t, dias, 1); }
    else if dias == 0 { BandIs(t, dias, 2); }
    else { BandIs(t, dias, 3); }
  }

  /** Buckets 4 to 9: two or more days overdue. */
  lemma CyresRankIsBandFar(dias: int)
    requires dias > 1
    ensures Rank(FranjaCyres(dias)) == Band(CyresThresholds, dias)
  {
    var t := CyresThresholds;
    assert Ascending(t);
    if dias <= 4 { BandIs(t, dias, 4); }
    else if dias <= 7 { BandIs(t, dias, 5); }
    else if dias <= 14 { BandIs(t, dias, 6); }
    else if dias <= 21 { BandIs(t, dias, 7); }
    else if dias <= 30 { BandIs(t, dias, 8); }
    else { BandIs(t, dias, 9); }
  }

  /** More days past due never yields an earlier Cyres bucket. */
  lemma FranjaCyresMonotone(d1: int, d2: int)
    requires d1 <= d2
    ensures Rank(FranjaCyres(d1)) <= Rank(FranjaCyres(d2))
  {
    FranjaCyresIsBand(d1);
    FranjaCyresIsBand(d2);
    BandMonotone(CyresThresholds, d1, d2);
  }

  // ---------------------------------------------------------------- Coca-Cola taxonomy

  const CocaLabels: seq<string> := [
    "0- Corriente", "1- 1 a 7", "2- 8 a 14", "3- 15 a 21", "4- 22 a 30", "5- Mayor a 30"]

  /** First day of each Coca-Cola bucket after "0- Corriente". */
  const CocaThresholds: seq<int> := [1, 8, 15, 22, 31]

  /** `obtener_franja_coca`: the Coca-Cola bucket of a days-past-due figure; total over integers. */
  function FranjaCoca(dias: int): (r: string)
    ensures r in CocaLabels
  {
    if dias <= 0 then "0- Corriente"
    else if 1 <= dias <= 7 then "1- 1 a 7"
    else if 8 <= dias <= 14 then "2- 8 a 14"
    else if 15 <= dias <= 21 then "3- 15 a 21"
    else if 22 <= dias <= 30 then "4- 22 a 30"
    else "5- Mayor a 30"
  }

  /** The Coca-Cola bucket is the band of its threshold table, numbered by its leading digit. */
  lemma FranjaCocaIsBand(dias: int)
    ensures FranjaCoca(dias) == CocaLabels[Band(CocaThresholds, dias)]
    ensures Rank(FranjaCoca(dias)) == Band(CocaThresholds, dias)
  {
    CocaRankIsBand(dias);
    CocaLabelAtRank(FranjaCoca(dias));
  }

  /** Each Coca-Cola label sits at the position its leading digit names. */
  lemma CocaLabelAtRank(name: string)
    requires name in CocaLabels
    ensures 0 <= Rank(name) < |CocaLabels| && CocaLabels[Rank(name)] == name
  {
  }

  lemma CocaRankIsBand(dias: int)
    ensures Rank(FranjaCoca(dias)) == Band(CocaThresholds, dias)
  {
    var t := CocaThresholds;
    assert Ascending(t);
    if dias <= 0 { BandIs(t, dias, 0); }
    else if dias <= 7 { BandIs(t, dias, 1); }
    else if dias <= 14 { BandIs(t, dias, 2); }
    else if dias <= 21 { BandIs(t, dias, 3); }
    else if dias <= 30 { BandIs(t, dias, 4); }
    else { BandIs(t, dias, 5); }
  }

  /** More days past due never yields an earlier Coca-Cola bucket. */
  lemma FranjaCocaMonotone(d1: int, d2: int)
    requires d1 <= d2
    ensures Rank(FranjaCoca(d1)) <= Rank(FranjaCoca(d2))
  {
    FranjaCocaIsBand(d1);
    FranjaCocaIsBand(d2);
    BandMonotone(CocaThresholds, d1, d2);
  }

  /** The two taxonomies agree on what is not yet overdue: Coca-Cola's current bucket is exactly
      Cyres' buckets 0 to 2 (current, due tomorrow, due today). */
  lemma CocaCurrentIsCyresNotOverdue(dias: int)
    ensures FranjaCoca(dias) == "0- Corriente" <==> Rank(FranjaCyres(dias)) <= 2
  {
  }
}
