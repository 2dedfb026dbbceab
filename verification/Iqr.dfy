/**
 `remove_outliers_iqr` (benchmarks/regression_runner.py) over real samples, with NumPy's default
 linear-interpolation percentiles.
 */
module Iqr {

  // ---------------------------------------------------------------- sorting

  ghost predicate Sorted(s: seq<real>) {
    forall i, j :: 0 <= i <= j < |s| ==> s[i] <= s[j]
  }

  function Insert(x: real, s: seq<real>): (r: seq<real>)
    ensures multiset(r) == multiset(s) + multiset{x} && |r| == |s| + 1
  {
    if s == [] then [x]
    else if x <= s[0] then [x] + s
    else
      assert s == [s[0]] + s[1..];
      [s[0]] + Insert(x, s[1..])
  }

  function Sort(s: seq<real>): (r: seq<real>)
    ensures multiset(r) == multiset(s) && |r| == |s|
  {
    if s == [] then []
    else
      assert s == [s[0]] + s[1..];
      Insert(s[0], Sort(s[1..]))
  }

  lemma ConsSorted(x: real, s: seq<real>)
    requires Sorted(s) && (s == [] || x <= s[0])
    ensures Sorted([x] + s)
  {
    var r := [x] + s;
    forall i, j | 0 <= i <= j < |r|
      ensures r[i] <= r[j]
    {
      if i > 0 {
        assert r[i] == s[i - 1] && r[j] == s[j - 1];
      } else if j > 0 {
        assert r[j] == s[j - 1] && s[0] <= s[j - 1];
      }
    }
  }

  lemma {:induction false} InsertSorted(x: real, s: seq<real>)
    requires Sorted(s)
    ensures Sorted(Insert(x, s))
    ensures Insert(x, s)[0] == if s == [] || x <= s[0] then x else s[0]
  {
    if s == [] || x <= s[0] {
      ConsSorted(x, s);
    } else {
      InsertSorted(x, s[1..]);
      ConsSorted(s[0], Insert(x, s[1..]));
    }
  }

  lemma {:induction false} SortSorted(s: seq<real>)
    ensures Sorted(Sort(s))
  {
    if s != [] {
      SortSorted(s[1..]);
      InsertSorted(s[0], Sort(s[1..]));
    }
  }

  lemma HeadIsLeast(s: seq<real>, t: seq<real>)
    requires Sorted(s) && multiset(s) == multiset(t) && s != []
    ensures t != [] && s[0] <= t[0]
  {
    assert |s| == |multiset(s)| == |multiset(t)| == |t|;
    assert t[0] in multiset(s);
  }

  lemma TailWithoutHead(s: seq<real>)
    requires s != []
    ensures multiset(s[1..]) == multiset(s) - multiset{s[0]}
  {
    assert s == [s[0]] + s[1..];
  }

  /** Sorting forgets the order of the samples. */
  lemma {:induction false} SortedUnique(s: seq<real>, t: seq<real>)
    requires Sorted(s) && Sorted(t) && multiset(s) == multiset(t)
    ensures s == t
  {
    if s == [] {
      assert |t| == |multiset(t)| == |multiset(s)| == 0;
    } else {
      HeadIsLeast(s, t);
      HeadIsLeast(t, s);
      TailWithoutHead(s);
      TailWithoutHead(t);
      SortedUnique(s[1..], t[1..]);
      assert s == [s[0]] + s[1..] && t == [t[0]] + t[1..];
    }
  }

  // ---------------------------------------------------------------- quartiles and fences

  /** The sample at position num/4 * (n - 1), interpolated linearly between its neighbours. */
  function Quartile(s: seq<real>, num: nat): real
    requires |s| > 0 && num <= 4
  {
    var pos := num * (|s| - 1);
    Interpolated(s, pos / 4, pos % 4)
  }

  /** The value `quarters` quarters of the way from position `at` to the next one. */
  function Interpolated(s: seq<real>, at: nat, quarters: nat): real
    requires quarters < 4 && at < |s| && (quarters > 0 ==> at + 1 < |s|)
  {
    if quarters == 0 then s[at] else s[at] + quarters as real / 4.0 * (s[at + 1] - s[at])
  }

  function Fences(samples: seq<real>): (real, real)
    requires |samples| > 0
  {
    var q1, q3 := Quartile(Sort(samples), 1), Quartile(Sort(samples), 3);
    (q1 - 1.5 * (q3 - q1), q3 + 1.5 * (q3 - q1))
  }

  predicate Within(f: (real, real), x: real) {
    f.0 <= x <= f.1
  }

  /** The samples within the fences, in their original order. */
  function Keep(s: seq<real>, f: (real, real)): (r: seq<real>)
    ensures |r| <= |s|
    ensures forall x :: multiset(r)[x] == if Within(f, x) then multiset(s)[x] else 0
  {
    if s == [] then []
    else
      assert s == [s[0]] + s[1..];
      if Within(f, s[0]) then [s[0]] + Keep(s[1..], f) else Keep(s[1..], f)
  }

  /** Keeping works sample by sample, so the survivors stay in their original order. */
  lemma {:induction false} KeepAppend(s: seq<real>, t: seq<real>, f: (real, real))
    ensures Keep(s + t, f) == Keep(s, f) + Keep(t, f)
  {
    if s == [] {
      assert s + t == t;
    } else {
      assert (s + t)[0] == s[0] && (s + t)[1..] == s[1..] + t;
      KeepAppend(s[1..], t, f);
    }
  }

  function RemoveOutliers(samples: seq<real>): seq<real> {
    if |samples| < 4 then samples
    else
      var filtered := Keep(samples, Fences(samples));
      if |filtered| as real < |samples| as real * 0.5 then samples else filtered
  }

  // ---------------------------------------------------------------- the fallback is unreachable

  lemma {:induction false} KeepInsert(x: real, s: seq<real>, f: (real, real))
    ensures |Keep(Insert(x, s), f)| == |Keep([x] + s, f)|
  {
    assert ([x] + s)[1..] == s;
    if s != [] && x > s[0] {
      KeepInsert(x, s[1..], f);
      assert ([x] + s[1..])[1..] == s[1..];
    }
  }

  lemma {:induction false} KeepSort(s: seq<real>, f: (real, real))
    ensures |Keep(Sort(s), f)| == |Keep(s, f)|
  {
    if s != [] {
      KeepSort(s[1..], f);
      KeepInsert(s[0], Sort(s[1..]), f);
      assert ([s[0]] + Sort(s[1..]))[1..] == Sort(s[1..]);
    }
  }

  /** A stretch of samples within the fences survives. */
  lemma {:induction false} KeepStretch(s: seq<real>, f: (real, real), a: nat, b: nat)
    requires a <= b <= |s|
    requires forall i :: a <= i < b ==> Within(f, s[i])
    ensures |Keep(s, f)| >= b - a
  {
    if a > 0 {
      KeepStretch(s[1..], f, a - 1, b - 1);
    } else if b > 0 {
      KeepStretch(s[1..], f, 0, b - 1);
    }
  }

  /** Where the quartiles of n = 4k + r + 1 sorted samples lie. */
  lemma QuartilePositions(s: seq<real>, k: nat, r: nat)
    requires |s| == 4 * k + r + 1 && r < 4 && |s| >= 4
    ensures Quartile(s, 1) == Interpolated(s, k, r)
    ensures Quartile(s, 3) == Interpolated(s, 3 * k + 3 * r / 4, 3 * r % 4)
  {
    QuarterOf(k, r);
    assert |s| - 1 == 4 * k + r;
  }

  lemma QuarterOf(k: nat, r: nat)
    requires r < 4
    ensures (4 * k + r) / 4 == k && (4 * k + r) % 4 == r
    ensures 3 * (4 * k + r) / 4 == 3 * k + 3 * r / 4 && 3 * (4 * k + r) % 4 == 3 * r % 4
  {}

  /** Four times the value at position pos / 4, weighing the two neighbours by their distance. */
  function FourTimes(s: seq<real>, pos: nat): real
    requires 0 < |s| && pos <= 4 * (|s| - 1)
  {
    var p, w := pos / 4, pos % 4;
    if w == 0 then 4.0 * s[p] else (4 - w) as real * s[p] + w as real * s[p + 1]
  }

  /** The percentiles are linear interpolations between neighbours in sorted order. */
  lemma QuartileIsLinear(s: seq<real>, num: nat, p: nat, w: nat)
    requires 0 < |s| && num <= 4 && w < 4 && 4 * p + w == num * (|s| - 1)
    ensures p < |s| && (w > 0 ==> p + 1 < |s|)
    ensures 4.0 * Quartile(s, num) == if w == 0 then 4.0 * s[p] else (4 - w) as real * s[p] + w as real * s[p + 1]
  {
    PositionWithin(|s| - 1, num);
    assert num * (|s| - 1) / 4 == p && num * (|s| - 1) % 4 == w;
    if w > 0 {
      Blend(s[p], s[p + 1], w);
    }
  }

  lemma PositionWithin(n: nat, num: nat)
    requires num <= 4
    ensures 0 <= num * n <= 4 * n
  {
  }

  lemma Blend(a: real, b: real, w: nat)
    requires w < 4
    ensures 4.0 * (a + w as real / 4.0 * (b - a)) == (4 - w) as real * a + w as real * b
  {
  }

  lemma Proportion(f: real, d: real)
    requires f >= 0.0 && d >= 0.0
    ensures f * d >= 0.0
  {}

  lemma Between(s: seq<real>, at: nat, quarters: nat)
    requires Sorted(s) && quarters < 4 && at < |s| && (quarters > 0 ==> at + 1 < |s|)
    ensures s[at] <= Interpolated(s, at, quarters)
    ensures at + 1 < |s| ==> Interpolated(s, at, quarters) <= s[at + 1]
    ensures at + 1 < |s| && quarters <= 2 ==> Interpolated(s, at, quarters) <= (s[at] + s[at + 1]) / 2.0
  {
    if at + 1 < |s| {
      assert s[at] <= s[at + 1];
    }
    if quarters > 0 {
      var f, d := quarters as real / 4.0, s[at + 1] - s[at];
      Proportion(f, d);
      Proportion(1.0 - f, d);
      if quarters <= 2 {
        Proportion(0.5 - f, d);
      }
    }
  }

  /** The fences around an interval reach past a point x below it when the interval is long enough. */
  lemma FencesReach(x: real, next: real, q1: real, q3: real)
    requires q1 <= (x + next) / 2.0 && next <= q3 && x <= q1
    ensures q1 - 1.5 * (q3 - q1) <= x <= q3 + 1.5 * (q3 - q1)
  {}

  /**
   From the first quartile's left neighbour (or its right one when n is a multiple of 4) up to the
   third quartile's left neighbour, every sorted sample lies within the fences.
   */
  lemma MiddleWithinFences(s: seq<real>, k: nat, r: nat, i: nat)
    requires Sorted(s) && |s| == 4 * k + r + 1 && r < 4 && |s| >= 4
    requires (if r == 3 then k + 1 else k) <= i <= 3 * k + 3 * r / 4
    ensures var q1, q3 := Quartile(s, 1), Quartile(s, 3);
            q1 - 1.5 * (q3 - q1) <= s[i] <= q3 + 1.5 * (q3 - q1)
  {
    hide Interpolated, Quartile;
    var j := 3 * k + 3 * r / 4;
    var q1, q3 := Quartile(s, 1), Quartile(s, 3);
    QuartilePositions(s, k, r);
    Between(s, k, r);
    Between(s, j, 3 * r % 4);
    assert q1 <= s[k + 1] <= s[j] <= q3;
    if i == k {
      FencesReach(s[k], s[k + 1], q1, q3);
    } else {
      assert s[k + 1] <= s[i] <= s[j];
    }
  }

  lemma FencesOf(samples: seq<real>)
    requires |samples| > 0
    ensures var q1, q3 := Quartile(Sort(samples), 1), Quartile(Sort(samples), 3);
            Fences(samples) == (q1 - 1.5 * (q3 - q1), q3 + 1.5 * (q3 - q1))
  {
    hide Quartile, Sort;
  }

  lemma MiddleSurvives(s: seq<real>, f: (real, real), k: nat, r: nat)
    requires Sorted(s) && |s| == 4 * k + r + 1 && r < 4 && |s| >= 4
    requires var q1, q3 := Quartile(s, 1), Quartile(s, 3);
             f == (q1 - 1.5 * (q3 - q1), q3 + 1.5 * (q3 - q1))
    ensures 2 * |Keep(s, f)| >= |s|
  {
    hide Quartile, Keep;
    var a, j := if r == 3 then k + 1 else k, 3 * k + 3 * r / 4;
    forall i | a <= i < j + 1
      ensures Within(f, s[i])
    {
      MiddleWithinFences(s, k, r, i);
    }
    KeepStretch(s, f, a, j + 1);
  }

  /** At least half of any four or more samples survive the fences. */
  lemma HalfSurvive(samples: seq<real>)
    requires |samples| >= 4
    ensures 2 * |Keep(samples, Fences(samples))| >= |samples|
  {
    hide Quartile, Keep, Sort, Fences;
    var s, f := Sort(samples), Fences(samples);
    SortSorted(samples);
    FencesOf(samples);
    MiddleSurvives(s, f, (|s| - 1) / 4, (|s| - 1) % 4);
    KeepSort(samples, f);
  }

  /**
   For four or more samples the function returns exactly the samples within the fences: the branch
   that gives up and returns everything is never taken.
   */
  lemma FallbackUnreachable(samples: seq<real>)
    requires |samples| >= 4
    ensures RemoveOutliers(samples) == Keep(samples, Fences(samples))
  {
    HalfSurvive(samples);
  }

  /**
   What the function returns, from the sorted samples alone: fewer than four samples unchanged;
   otherwise every sample x with Q1 - 1.5 * (Q3 - Q1) <= x <= Q3 + 1.5 * (Q3 - Q1), as often as it was
   there, Q1 and Q3 being interpolated at (n - 1) / 4 and 3 * (n - 1) / 4.
   */
  lemma KeepsExactly(samples: seq<real>, x: real)
    ensures |samples| < 4 ==> RemoveOutliers(samples) == samples
    ensures |samples| >= 4 ==>
              var s, n := Sort(samples), |samples|;
              var q1, q3 := FourTimes(s, n - 1), FourTimes(s, 3 * (n - 1));
              multiset(RemoveOutliers(samples))[x]
                == if 5.0 * q1 - 3.0 * q3 <= 8.0 * x <= 5.0 * q3 - 3.0 * q1 then multiset(samples)[x] else 0
  {
    hide Quartile, Sort, FourTimes;
    if |samples| >= 4 {
      var s, n := Sort(samples), |samples|;
      FallbackUnreachable(samples);
      FencesOf(samples);
      FourQuartiles(s, 1);
      FourQuartiles(s, 3);
    }
  }

  lemma FourQuartiles(s: seq<real>, num: nat)
    requires 0 < |s| && num <= 4
    ensures num * (|s| - 1) <= 4 * (|s| - 1) && FourTimes(s, num * (|s| - 1)) == 4.0 * Quartile(s, num)
  {
    PositionWithin(|s| - 1, num);
    var pos := num * (|s| - 1);
    QuartileIsLinear(s, num, pos / 4, pos % 4);
  }

  lemma KeepPermuted(s: seq<real>, t: seq<real>, f: (real, real))
    requires multiset(s) == multiset(t)
    ensures multiset(Keep(s, f)) == multiset(Keep(t, f))
  {
    forall x: real
      ensures multiset(Keep(s, f))[x] == multiset(Keep(t, f))[x]
    {}
  }

  /** Reordering the samples only reorders the result. */
  lemma OrderIndependent(s: seq<real>, t: seq<real>)
    requires multiset(s) == multiset(t)
    ensures multiset(RemoveOutliers(s)) == multiset(RemoveOutliers(t))
  {
    hide Quartile, Keep, Sort, Fences;
    assert |s| == |multiset(s)| == |multiset(t)| == |t|;
    if |s| >= 4 {
      hide RemoveOutliers;
      SortSorted(s);
      SortSorted(t);
      SortedUnique(Sort(s), Sort(t));
      FencesOf(s);
      FencesOf(t);
      FallbackUnreachable(s);
      FallbackUnreachable(t);
      KeepPermuted(s, t, Fences(s));
    }
  }
}
