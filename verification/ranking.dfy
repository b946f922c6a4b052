/** The chart rankings of the portfolio report: `groupby(label)[value].sum()`, a descending
    `sort_values`, and the collapse of everything after the tenth place into one "Otras" bar. */
module Ranking {

  /** One bar of a chart: a label (city, analyst, bucket) and the amount summed under it. */
  datatype Entry = Entry(name: string, value: real)

  /** Sum of the amounts of a list of bars. */
  function Total(es: seq<Entry>): real {
    if |es| == 0 then 0.0 else es[0].value + Total(es[1..])
  }

  lemma {:induction false} TotalConcat(a: seq<Entry>, b: seq<Entry>)
    ensures Total(a + b) == Total(a) + Total(b)
    decreases |a|
  {
    if |a| == 0 {
      assert a + b == b;
    } else {
      assert (a + b)[1..] == a[1..] + b;
      TotalConcat(a[1..], b);
    }
  }

  /** Replacing one bar changes the total by the difference of the two amounts. */
  lemma {:induction false} TotalUpdate(es: seq<Entry>, i: nat, e: Entry)
    requires i < |es|
    ensures Total(es[i := e]) == Total(es) - es[i].value + e.value
    decreases i
  {
    if i > 0 {
      assert es[i := e][1..] == es[1..][i - 1 := e];
      TotalUpdate(es[1..], i - 1, e);
    }
  }

  /** The set of labels that occur in a list of bars. */
  function Labels(es: seq<Entry>): set<string> {
    set e | e in es :: e.name
  }

  lemma LabelsSnoc(es: seq<Entry>, x: Entry)
    ensures Labels(es + [x]) == Labels(es) + {x.name}
  {
    assert forall y :: y in es + [x] <==> y in es || y == x;
  }

  /** No label occurs twice: the shape of a `groupby` result. */
  predicate DistinctLabels(es: seq<Entry>) {
    forall i, j :: 0 <= i < j < |es| ==> es[i].name != es[j].name
  }

  /** The amount a label collects from raw rows: the sum of the rows carrying it. */
  function LabelSum(es: seq<Entry>, l: string): real {
    if |es| == 0 then 0.0
    else LabelSum(es[..|es| - 1], l) + (if es[|es| - 1].name == l then es[|es| - 1].value else 0.0)
  }

  /** Position of the bar labelled `l`, or -1 when there is none. */
  function Find(gs: seq<Entry>, l: string): (i: int)
    ensures -1 <= i < |gs|
    ensures i >= 0 ==> gs[i].name == l
    ensures i == -1 ==> forall j :: 0 <= j < |gs| ==> gs[j].name != l
  {
    if |gs| == 0 then -1
    else if gs[|gs| - 1].name == l then |gs| - 1
    else Find(gs[..|gs| - 1], l)
  }

  /** Adds one raw row to a grouped list: onto the bar with its label, or as a new bar. */
  function AddRow(gs: seq<Entry>, e: Entry): (r: seq<Entry>)
    requires DistinctLabels(gs)
    ensures DistinctLabels(r)
    ensures Labels(r) == Labels(gs) + {e.name}
    ensures Total(r) == Total(gs) + e.value
    ensures |gs| <= |r| && forall k :: 0 <= k < |gs| ==> r[k].name == gs[k].name
    ensures forall k :: 0 <= k < |r| ==>
      r[k].value == (if k < |gs| then gs[k].value else 0.0) + (if r[k].name == e.name then e.value else 0.0)
  {
    var i := Find(gs, e.name);
    if i >= 0 then
      AddToBar(gs, i, e);
      gs[i := Entry(e.name, gs[i].value + e.value)]
    else
      AddNewBar(gs, e);
      gs + [e]
  }

  lemma AddToBar(gs: seq<Entry>, i: nat, e: Entry)
    requires DistinctLabels(gs) && i < |gs| && gs[i].name == e.name
    ensures var r := gs[i := Entry(e.name, gs[i].value + e.value)];
      && DistinctLabels(r)
      && Labels(r) == Labels(gs) + {e.name}
      && Total(r) == Total(gs) + e.value
      && (forall k :: 0 <= k < |gs| ==> r[k].name == gs[k].name)
      && forall k :: 0 <= k < |r| ==> r[k].value == gs[k].value + (if r[k].name == e.name then e.value else 0.0)
  {
    var r := gs[i := Entry(e.name, gs[i].value + e.value)];
    TotalUpdate(gs, i, Entry(e.name, gs[i].value + e.value));
    forall x | x in r ensures x.name in Labels(gs) {
      var k :| 0 <= k < |r| && r[k] == x;
      assert gs[k].name == x.name;
    }
    forall x | x in gs ensures x.name in Labels(r) {
      var k :| 0 <= k < |gs| && gs[k] == x;
      assert r[k].name == x.name;
    }
  }

  lemma AddNewBar(gs: seq<Entry>, e: Entry)
    requires DistinctLabels(gs) && forall j :: 0 <= j < |gs| ==> gs[j].name != e.name
    ensures var r := gs + [e];
      && DistinctLabels(r)
      && Labels(r) == Labels(gs) + {e.name}
      && Total(r) == Total(gs) + e.value
  {
    TotalConcat(gs, [e]);
    LabelsSnoc(gs, e);
    var r := gs + [e];
    forall i, j | 0 <= i < j < |r| ensures r[i].name != r[j].name {
      assert r[i] == gs[i];
      assert j < |gs| ==> r[j] == gs[j];
    }
  }

  /** `groupby(label)[value].sum()`: one bar per label, holding the sum of that label's rows. */
  function GroupSum(es: seq<Entry>): (gs: seq<Entry>)
    ensures DistinctLabels(gs)
    ensures Labels(gs) == Labels(es)
    ensures Total(gs) == Total(es)
    ensures forall k :: 0 <= k < |gs| ==> gs[k].value == LabelSum(es, gs[k].name)
  {
    if |es| == 0 then []
    else
      var init := es[..|es| - 1];
      var last := es[|es| - 1];
      var g := GroupSum(init);
      GroupStep(es, g);
      AddRow(g, last)
  }

  /** Adding the last row to a correct grouping of the rows before it gives a correct grouping. */
  lemma GroupStep(es: seq<Entry>, g: seq<Entry>)
    requires |es| > 0
    requires DistinctLabels(g) && Labels(g) == Labels(es[..|es| - 1])
    requires Total(g) == Total(es[..|es| - 1])
    requires forall k :: 0 <= k < |g| ==> g[k].value == LabelSum(es[..|es| - 1], g[k].name)
    ensures var gs := AddRow(g, es[|es| - 1]);
      && Labels(gs) == Labels(es)
      && Total(gs) == Total(es)
      && forall k :: 0 <= k < |gs| ==> gs[k].value == LabelSum(es, gs[k].name)
  {
    var init := es[..|es| - 1];
    var last := es[|es| - 1];
    assert es == init + [last];
    TotalConcat(init, [last]);
    LabelsSnoc(init, last);
    var gs := AddRow(g, last);
    forall k | 0 <= k < |gs| ensures gs[k].value == LabelSum(es, gs[k].name) {
      if k >= |g| {
        assert gs[k].name !in Labels(g) by {
          forall x | x in g ensures x.name != gs[k].name {
            var m :| 0 <= m < |g| && g[m] == x;
            assert gs[m].name == x.name;
          }
        }
        LabelSumAbsent(init, gs[k].name);
      }
    }
  }

  /** A label no row carries collects nothing. */
  lemma {:induction false} LabelSumAbsent(es: seq<Entry>, l: string)
    requires l !in Labels(es)
    ensures LabelSum(es, l) == 0.0
    decreases |es|
  {
    if |es| > 0 {
      assert Labels(es[..|es| - 1]) <= Labels(es);
      LabelSumAbsent(es[..|es| - 1], l);
    }
  }

  /** Amounts never increase along the list. */
  predicate Descending(es: seq<Entry>) {
    forall i, j :: 0 <= i < j < |es| ==> es[i].value >= es[j].value
  }

  /** Inserts a bar into a descending list ahead of the first bar it is not below. */
  function Insert(e: Entry, s: seq<Entry>): (r: seq<Entry>)
    requires Descending(s)
    ensures Descending(r)
    ensures multiset(r) == multiset(s) + multiset{e}
    ensures Total(r) == Total(s) + e.value
    ensures |r| == |s| + 1
  {
    if |s| == 0 then [e]
    else if e.value >= s[0].value then
      PrependDescending(e, s);
      [e] + s
    else
      var t := Insert(e, s[1..]);
      assert s == [s[0]] + s[1..];
      InsertHead(e, s, t);
      [s[0]] + t
  }

  lemma PrependDescending(e: Entry, s: seq<Entry>)
    requires Descending(s) && |s| > 0 && e.value >= s[0].value
    ensures Descending([e] + s)
  {
    forall i, j | 0 <= i < j < |s| + 1 ensures ([e] + s)[i].value >= ([e] + s)[j].value {
      assert ([e] + s)[j] == s[j - 1];
      assert i > 0 ==> ([e] + s)[i] == s[i - 1];
    }
  }

  /** The head of a descending list stays ahead of what is inserted behind it. */
  lemma InsertHead(e: Entry, s: seq<Entry>, t: seq<Entry>)
    requires Descending(s) && |s| > 0 && e.value < s[0].value
    requires Descending(t) && multiset(t) == multiset(s[1..]) + multiset{e}
    ensures Descending([s[0]] + t)
  {
    forall j | 0 <= j < |t| ensures s[0].value >= t[j].value {
      assert t[j] in multiset(t);
      if t[j] != e {
        assert t[j] in multiset(s[1..]);
        var m :| 0 <= m < |s[1..]| && s[1..][m] == t[j];
        assert s[m + 1] == t[j];
      }
    }
    forall i, j | 0 <= i < j < |t| + 1 ensures ([s[0]] + t)[i].value >= ([s[0]] + t)[j].value {
      assert ([s[0]] + t)[j] == t[j - 1];
      assert i > 0 ==> ([s[0]] + t)[i] == t[i - 1];
    }
  }

  /** `sort_values(ascending=False)`: the same bars, largest amount first. Equal amounts may
      come out in any order, as with pandas' default sort. */
  function SortDesc(s: seq<Entry>): (r: seq<Entry>)
    ensures Descending(r)
    ensures multiset(r) == multiset(s)
    ensures Total(r) == Total(s)
    ensures |r| == |s|
  {
    if |s| == 0 then []
    else
      assert s == [s[0]] + s[1..];
      Insert(s[0], SortDesc(s[1..]))
  }

  /** Name of the bar that gathers everything after the tenth place. */
  const Others: string := "Otras"

  /** Bars shown individually before the rest are gathered. */
  const TopCount: nat := 10

  /** The top-10 collapse: more than ten bars become the first ten plus one "Otras" bar holding
      the sum of the rest; ten or fewer are shown unchanged. */
  function CollapseTop10(s: seq<Entry>): (r: seq<Entry>)
    ensures |s| > TopCount ==>
      |r| == TopCount + 1 && r[..TopCount] == s[..TopCount] && r[TopCount] == Entry(Others, Total(s[TopCount..]))
    ensures |s| <= TopCount ==> r == s
    ensures Total(r) == Total(s)
  {
    if |s| > TopCount then
      var top := s[..TopCount];
      var rest := s[TopCount..];
      assert s == top + rest;
      TotalConcat(top, rest);
      TotalConcat(top, [Entry(Others, Total(rest))]);
      top + [Entry(Others, Total(rest))]
    else s
  }

  /** On a descending ranking, every bar kept by name is at least as large as any gathered one,
      and the "Otras" bar holds exactly what the named bars leave of the total. */
  lemma CollapseKeepsLargest(s: seq<Entry>)
    requires Descending(s) && |s| > TopCount
    ensures var r := CollapseTop10(s);
      (forall i, j :: 0 <= i < TopCount <= j < |s| ==> r[i].value >= s[j].value)
      && r[TopCount].value == Total(s) - Total(s[..TopCount])
  {
    assert s == s[..TopCount] + s[TopCount..];
    TotalConcat(s[..TopCount], s[TopCount..]);
  }

  /** A chart ranking: group the rows by label, sort descending, collapse after the tenth bar.
      Each of the first ten bars is a label holding the sum of its rows, they come largest first,
      and nothing is lost on the way: the bars still add up to the rows' total. */
  function TopRanking(rows: seq<Entry>): (r: seq<Entry>)
    ensures Total(r) == Total(rows)
    ensures |r| <= TopCount + 1
    ensures forall k :: 0 <= k < |r| && k < TopCount ==>
      r[k].name in Labels(rows) && r[k].value == LabelSum(rows, r[k].name)
    ensures forall i, j :: 0 <= i < j < |r| && j < TopCount ==> r[i].value >= r[j].value
    ensures forall i, j :: 0 <= i < j < |r| && j < TopCount ==> r[i].name != r[j].name
  {
    var g := GroupSum(rows);
    var s := SortDesc(g);
    SortedGroupFacts(rows, g, s);
    SortKeepsDistinct(g);
    var r := CollapseTop10(s);
    NamedBars(rows, s, r);
    r
  }

  /** The bars kept by name from a sorted grouping are its first bars, so they inherit its facts. */
  lemma NamedBars(rows: seq<Entry>, s: seq<Entry>, r: seq<Entry>)
    requires Descending(s) && DistinctLabels(s) && Labels(s) == Labels(rows)
    requires forall k :: 0 <= k < |s| ==> s[k].value == LabelSum(rows, s[k].name)
    requires r == CollapseTop10(s)
    ensures forall k :: 0 <= k < |r| && k < TopCount ==>
      r[k].name in Labels(rows) && r[k].value == LabelSum(rows, r[k].name)
    ensures forall i, j :: 0 <= i < j < |r| && j < TopCount ==> r[i].value >= r[j].value
    ensures forall i, j :: 0 <= i < j < |r| && j < TopCount ==> r[i].name != r[j].name
  {
    assert forall k :: 0 <= k < |r| && k < TopCount ==> r[k] == s[k] by {
      forall k | 0 <= k < |r| && k < TopCount ensures r[k] == s[k] {
        if |s| > TopCount {
          assert r[..TopCount][k] == s[..TopCount][k];
        }
      }
    }
    forall k | 0 <= k < |r| && k < TopCount ensures r[k].name in Labels(rows) {
      assert s[k] in s;
    }
  }

  /** With at most ten distinct labels nothing is gathered: one bar per label, each holding the
      sum of its rows. */
  lemma TopRankingFewLabels(rows: seq<Entry>)
    requires |Labels(rows)| <= TopCount
    ensures Labels(TopRanking(rows)) == Labels(rows) && |TopRanking(rows)| == |Labels(rows)|
    ensures forall k :: 0 <= k < |TopRanking(rows)| ==>
      TopRanking(rows)[k].value == LabelSum(rows, TopRanking(rows)[k].name)
  {
    var g := GroupSum(rows);
    DistinctCount(g);
    SortedGroupFacts(rows, g, SortDesc(g));
  }

  lemma SortedGroupFacts(rows: seq<Entry>, g: seq<Entry>, s: seq<Entry>)
    requires Labels(g) == Labels(rows)
    requires forall k :: 0 <= k < |g| ==> g[k].value == LabelSum(rows, g[k].name)
    requires multiset(s) == multiset(g)
    ensures Labels(s) == Labels(rows)
    ensures forall k :: 0 <= k < |s| ==> s[k].value == LabelSum(rows, s[k].name)
  {
    SameElements(g, s);
    forall k | 0 <= k < |s| ensures s[k].value == LabelSum(rows, s[k].name) {
      assert s[k] in s;
      var m :| 0 <= m < |g| && g[m] == s[k];
    }
  }

  /** Two lists with the same multiset of bars contain the same bars. */
  lemma SameElements(g: seq<Entry>, s: seq<Entry>)
    requires multiset(s) == multiset(g)
    ensures forall x :: x in s <==> x in g
    ensures Labels(s) == Labels(g)
  {
    forall x ensures x in s <==> x in g {
      assert x in s <==> x in multiset(s);
      assert x in g <==> x in multiset(g);
    }
  }

  /** With more than ten labels the chart has exactly eleven bars, the last one "Otras" holding
      what the ten named bars leave of the total, and no label left out of the named bars collects
      more than the tenth of them. */
  lemma TopRankingManyLabels(rows: seq<Entry>)
    requires |Labels(rows)| > TopCount
    ensures var r := TopRanking(rows);
      |r| == TopCount + 1 && r[TopCount] == Entry(Others, Total(rows) - Total(r[..TopCount]))
    ensures var r := TopRanking(rows);
      forall l :: l in Labels(rows) && l !in Labels(r[..TopCount]) ==> LabelSum(rows, l) <= r[TopCount - 1].value
  {
    var s := SortDesc(GroupSum(rows));
    SortedGroups(rows);
    CollapseKeepsLargest(s);
    UnshownBelowTenth(rows, s);
    assert TopRanking(rows) == CollapseTop10(s);
  }

  /** The sorted grouping of the rows: one bar per label, each its label's sum, largest first. */
  lemma SortedGroups(rows: seq<Entry>)
    ensures var s := SortDesc(GroupSum(rows));
      && Descending(s) && Labels(s) == Labels(rows) && Total(s) == Total(rows)
      && |s| == |Labels(rows)|
      && forall k :: 0 <= k < |s| ==> s[k].value == LabelSum(rows, s[k].name)
  {
    var g := GroupSum(rows);
    DistinctCount(g);
    SortedGroupFacts(rows, g, SortDesc(g));
  }

  /** In a descending list of label sums, a label that is not among the first ten collects no more
      than the tenth. */
  lemma UnshownBelowTenth(rows: seq<Entry>, s: seq<Entry>)
    requires Descending(s) && |s| > TopCount && Labels(s) == Labels(rows)
    requires forall k :: 0 <= k < |s| ==> s[k].value == LabelSum(rows, s[k].name)
    ensures forall l :: l in Labels(rows) && l !in Labels(s[..TopCount]) ==> LabelSum(rows, l) <= s[TopCount - 1].value
  {
    forall l | l in Labels(rows) && l !in Labels(s[..TopCount])
      ensures LabelSum(rows, l) <= s[TopCount - 1].value
    {
      var x :| x in s && x.name == l;
      var j :| 0 <= j < |s| && s[j] == x;
    }
  }

  /** Sorting a `groupby` result keeps its labels distinct. */
  lemma SortKeepsDistinct(g: seq<Entry>)
    requires DistinctLabels(g)
    ensures DistinctLabels(SortDesc(g))
  {
    var s := SortDesc(g);
    DistinctCount(g);
    SameElements(g, s);
    FullLabelsDistinct(s);
  }

  /** A list never has more labels than bars. */
  lemma {:induction false} LabelsBound(s: seq<Entry>)
    ensures |Labels(s)| <= |s|
    decreases |s|
  {
    if |s| > 0 {
      var init := s[..|s| - 1];
      assert s == init + [s[|s| - 1]];
      LabelsSnoc(init, s[|s| - 1]);
      LabelsBound(init);
    }
  }

  /** A list with as many labels as bars repeats no label. */
  lemma {:induction false} FullLabelsDistinct(s: seq<Entry>)
    requires |Labels(s)| == |s|
    ensures DistinctLabels(s)
    decreases |s|
  {
    if |s| > 0 {
      var init := s[..|s| - 1];
      var last := s[|s| - 1];
      assert s == init + [last];
      LabelsSnoc(init, last);
      LabelsBound(init);
      assert last.name !in Labels(init);
      FullLabelsDistinct(init);
      forall i, j | 0 <= i < j < |s| ensures s[i].name != s[j].name {
        if j == |s| - 1 {
          assert s[i] == init[i] && init[i] in init;
        } else {
          assert s[i] == init[i] && s[j] == init[j];
        }
      }
    }
  }

  /** A list with distinct labels has exactly as many bars as labels. */
  lemma {:induction false} DistinctCount(g: seq<Entry>)
    requires DistinctLabels(g)
    ensures |Labels(g)| == |g|
    decreases |g|
  {
    if |g| > 0 {
      var init := g[..|g| - 1];
      LastLabelIsNew(g);
      DistinctCount(init);
      assert g == init + [g[|g| - 1]];
      LabelsSnoc(init, g[|g| - 1]);
    }
  }

  lemma LastLabelIsNew(g: seq<Entry>)
    requires DistinctLabels(g) && |g| > 0
    ensures DistinctLabels(g[..|g| - 1]) && g[|g| - 1].name !in Labels(g[..|g| - 1])
  {
    var init := g[..|g| - 1];
    forall x | x in init ensures x.name != g[|g| - 1].name {
      var m :| 0 <= m < |init| && init[m] == x;
      assert g[m] == x;
    }
  }
}
