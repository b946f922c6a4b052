/** Shared vocabulary: optional values (pandas' NaN / NaT / missing), sums of money columns,
    and the guarded percentages every report of the dashboard uses. */
module Common {

  /** A cell that may be missing: NaN, NaT or an absent column value. */
  datatype Option<T> = None | Some(value: T) {
    /** The cell's value, or `default` when it is missing (pandas' `fillna`). */
    function GetOr(default: T): T {
      match this
      case Some(v) => v
      case None => default
    }
  }

  /** `pd.to_numeric(..., errors='coerce').fillna(0)`: an unreadable amount counts as zero. */
  function Coerce(x: Option<real>): real {
    x.GetOr(0.0)
  }

  /** Sum of a column of amounts, accumulated from the front. */
  function Sum(xs: seq<real>): real {
    if |xs| == 0 then 0.0 else Sum(xs[..|xs| - 1]) + xs[|xs| - 1]
  }

  lemma {:induction false} SumConcat(a: seq<real>, b: seq<real>)
    ensures Sum(a + b) == Sum(a) + Sum(b)
    decreases |b|
  {
    if |b| == 0 {
      assert a + b == a;
    } else {
      assert (a + b)[..|a + b| - 1] == a + b[..|b| - 1];
      SumConcat(a, b[..|b| - 1]);
    }
  }

  lemma {:induction false} SumNonNegative(xs: seq<real>)
    requires forall i :: 0 <= i < |xs| ==> xs[i] >= 0.0
    ensures Sum(xs) >= 0.0
    decreases |xs|
  {
    if |xs| > 0 {
      SumNonNegative(xs[..|xs| - 1]);
    }
  }

  /** `part / whole * 100` when the whole is positive, otherwise 0: the guard every
      percentage KPI of the dashboard uses (`... if total > 0 else 0`). */
  function Percent(part: real, whole: real): (p: real)
    ensures whole <= 0.0 ==> p == 0.0
    ensures whole > 0.0 ==> p * whole == part * 100.0
  {
    if whole > 0.0 then part / whole * 100.0 else 0.0
  }

  /** Percentages of a split whole add up: the parts' shares sum to the share of their sum. */
  lemma PercentAdditive(a: real, b: real, whole: real)
    ensures Percent(a, whole) + Percent(b, whole) == Percent(a + b, whole)
  {
  }

  /** Number of distinct elements of a sequence never exceeds its length. */
  lemma {:induction false} DistinctCountBound<T>(s: seq<T>)
    ensures |set i | 0 <= i < |s| :: s[i]| <= |s|
    decreases |s|
  {
    if |s| > 0 {
      var init := s[..|s| - 1];
      DistinctCountBound(init);
      var a := set i | 0 <= i < |init| :: init[i];
      var b := set i | 0 <= i < |s| :: s[i];
      assert b == a + {s[|s| - 1]} by {
        forall x | x in b ensures x in a + {s[|s| - 1]} {
          var i :| 0 <= i < |s| && s[i] == x;
          if i < |s| - 1 {
            assert init[i] == x;
          }
        }
        forall x | x in a ensures x in b {
          var i :| 0 <= i < |init| && init[i] == x;
          assert s[i] == x;
        }
      }
    }
  }

  /** The whole is 100 per cent of itself. */
  lemma PercentOfWhole(whole: real)
    requires whole > 0.0
    ensures Percent(whole, whole) == 100.0
  {
  }

  /** Percentages of a part of a non-negative whole lie between 0 and 100. */
  lemma PercentBounds(part: real, whole: real)
    requires 0.0 <= part <= whole
    ensures 0.0 <= Percent(part, whole) <= 100.0
  {
  }

  /** How many elements of `s` satisfy `p` (pandas' `.sum()` of a boolean mask, `size()` of a group). */
  function Count<T>(s: seq<T>, p: T -> bool): (n: nat)
    ensures n <= |s|
  {
    if |s| == 0 then 0 else Count(s[..|s| - 1], p) + (if p(s[|s| - 1]) then 1 else 0)
  }

  /** A weaker condition counts at least as many elements. */
  lemma {:induction false} CountMono<T>(s: seq<T>, p: T -> bool, q: T -> bool)
    requires forall x :: p(x) ==> q(x)
    ensures Count(s, p) <= Count(s, q)
    decreases |s|
  {
    if |s| > 0 {
      CountMono(s[..|s| - 1], p, q);
    }
  }

  /** An element satisfying `p` is counted. */
  lemma {:induction false} CountPositive<T>(s: seq<T>, p: T -> bool, i: nat)
    requires i < |s| && p(s[i])
    ensures Count(s, p) >= 1
    decreases |s|
  {
    if i < |s| - 1 {
      CountPositive(s[..|s| - 1], p, i);
    }
  }

  /** No element occurs twice. */
  predicate NoDuplicates<T(==)>(s: seq<T>) {
    forall i, j :: 0 <= i < j < |s| ==> s[i] != s[j]
  }

  /** The distinct elements satisfying `p` are at most as many as the counted ones, and exactly as
      many when `s` has no repetitions. */
  lemma {:induction false} CountDistinct<T>(s: seq<T>, p: T -> bool)
    ensures |set x | x in s && p(x)| <= Count(s, p)
    ensures NoDuplicates(s) ==> |set x | x in s && p(x)| == Count(s, p)
    decreases |s|
  {
    if |s| > 0 {
      var init := s[..|s| - 1];
      var last := s[|s| - 1];
      CountDistinct(init, p);
      var a := set x | x in init && p(x);
      var b := set x | x in s && p(x);
      assert s == init + [last];
      assert b == a + (if p(last) then {last} else {});
      assert NoDuplicates(s) ==> NoDuplicates(init) && last !in a by {
        if NoDuplicates(s) {
          forall x | x in init ensures x != last {
            var m :| 0 <= m < |init| && init[m] == x;
            assert s[m] == x;
          }
        }
      }
    }
  }

  /** The elements of `s` satisfying `p`, in order (a boolean-mask selection `df[mask]`). */
  function Filter<T(!new)>(s: seq<T>, p: T -> bool): (r: seq<T>)
    ensures |r| == Count(s, p)
    ensures forall x :: x in r <==> x in s && p(x)
  {
    if |s| == 0 then []
    else
      var init := s[..|s| - 1];
      assert s == init + [s[|s| - 1]];
      Filter(init, p) + (if p(s[|s| - 1]) then [s[|s| - 1]] else [])
  }

  /** A repetition-free sequence whose elements all occur in `t` has no more elements
      satisfying `p` than `t` has. */
  lemma CountDistinctSubset<T>(s: seq<T>, t: seq<T>, p: T -> bool)
    requires NoDuplicates(s) && forall x :: x in s ==> x in t
    ensures Count(s, p) <= Count(t, p)
  {
    CountDistinct(s, p);
    CountDistinct(t, p);
    var a := set x | x in s && p(x);
    var b := set x | x in t && p(x);
    assert b == a + (b - a);
  }

  /** A selection that every element passes keeps the whole sequence. */
  lemma {:induction false} FilterAll<T(!new)>(s: seq<T>, p: T -> bool)
    requires forall x :: x in s ==> p(x)
    ensures Filter(s, p) == s
    decreases |s|
  {
    if |s| > 0 {
      var init := s[..|s| - 1];
      assert s == init + [s[|s| - 1]];
      assert forall x :: x in init ==> x in s;
      FilterAll(init, p);
    }
  }

  /** A column has no more distinct values than rows (pandas' `nunique() <= count()`). */
  lemma {:induction false} ImageBound<T, U>(s: seq<T>, f: T -> U)
    ensures |set x | x in s :: f(x)| <= |s|
    decreases |s|
  {
    if |s| > 0 {
      var init := s[..|s| - 1];
      var last := s[|s| - 1];
      assert s == init + [last];
      ImageBound(init, f);
      var a := set x | x in init :: f(x);
      var b := set x | x in s :: f(x);
      assert b == a + {f(last)};
    }
  }

  /** A money column summed over rows (`df[col].sum()`), accumulated from the front. */
  function SumBy<T>(rows: seq<T>, amount: T -> real): real {
    if |rows| == 0 then 0.0 else SumBy(rows[..|rows| - 1], amount) + amount(rows[|rows| - 1])
  }

  lemma SumBySnoc<T>(rows: seq<T>, x: T, amount: T -> real)
    ensures SumBy(rows + [x], amount) == SumBy(rows, amount) + amount(x)
  {
    assert (rows + [x])[..|rows|] == rows;
  }

  /** Amounts that agree on every row give the same total. */
  lemma {:induction false} SumByCongruent<T>(rows: seq<T>, f: T -> real, g: T -> real)
    requires forall x :: x in rows ==> f(x) == g(x)
    ensures SumBy(rows, f) == SumBy(rows, g)
    decreases |rows|
  {
    if |rows| > 0 {
      var init := rows[..|rows| - 1];
      assert forall x :: x in init ==> x in rows;
      SumByCongruent(init, f, g);
    }
  }

  /** Column sums are additive: a column that is the sum of two others totals their totals. */
  lemma {:induction false} SumByAdd<T>(rows: seq<T>, f: T -> real, g: T -> real, h: T -> real)
    requires forall x :: h(x) == f(x) + g(x)
    ensures SumBy(rows, h) == SumBy(rows, f) + SumBy(rows, g)
    decreases |rows|
  {
    if |rows| > 0 {
      SumByAdd(rows[..|rows| - 1], f, g, h);
    }
  }

  /** A larger amount on every row gives a larger total. */
  lemma {:induction false} SumByMono<T>(rows: seq<T>, f: T -> real, g: T -> real)
    requires forall x :: x in rows ==> f(x) <= g(x)
    ensures SumBy(rows, f) <= SumBy(rows, g)
    decreases |rows|
  {
    if |rows| > 0 {
      var init := rows[..|rows| - 1];
      assert forall x :: x in init ==> x in rows;
      SumByMono(init, f, g);
    }
  }

  /** The amount of a row when it passes `p`, 0 otherwise. */
  function Masked<T>(p: T -> bool, amount: T -> real): T -> real {
    (x: T) => if p(x) then amount(x) else 0.0
  }

  /** The last row adds its amount to the selection's sum when it is selected. */
  lemma FilteredSumStep<T(!new)>(rows: seq<T>, p: T -> bool, amount: T -> real)
    requires |rows| > 0
    ensures SumBy(Filter(rows, p), amount) ==
      SumBy(Filter(rows[..|rows| - 1], p), amount) + (if p(rows[|rows| - 1]) then amount(rows[|rows| - 1]) else 0.0)
  {
    var last := rows[|rows| - 1];
    var f := Filter(rows[..|rows| - 1], p);
    if p(last) {
      assert Filter(rows, p) == f + [last];
      SumBySnoc(f, last, amount);
    } else {
      assert Filter(rows, p) == f;
    }
  }

  /** Summing the selected rows is summing the masked column over all rows. */
  lemma {:induction false} SumByFilter<T(!new)>(rows: seq<T>, p: T -> bool, amount: T -> real)
    ensures SumBy(Filter(rows, p), amount) == SumBy(rows, Masked(p, amount))
    decreases |rows|
  {
    if |rows| > 0 {
      var init := rows[..|rows| - 1];
      var last := rows[|rows| - 1];
      SumByFilter(init, p, amount);
      var f := Filter(init, p);
      assert Filter(rows, p) == f + (if p(last) then [last] else []);
      if p(last) {
        SumBySnoc(f, last, amount);
      } else {
        assert f + [] == f;
      }
      assert SumBy(rows, Masked(p, amount)) == SumBy(init, Masked(p, amount)) + Masked(p, amount)(last);
    }
  }
}
