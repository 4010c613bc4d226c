/** Mean and variance of scores by group, in one pass, over the reals. The square of the standard
    deviation stands for the standard deviation. */
module GroupStats {
  import opened Basics
  import opened RealArith

  /** What one pass adds up for a group. */
  datatype Sums = Sums(count: real, s1: real, s2: real)

  predicate SumsAre(s: Sums, count: real, s1: real, s2: real) {
    s.count == count && s.s1 == s1 && s.s2 == s2
  }

  function SumsOf(scores: seq<real>, gidx: seq<nat>, g: nat): Sums
    requires |scores| == |gidx|
  {
    if scores == [] then Sums(0.0, 0.0, 0.0)
    else
      var n := |scores| - 1;
      var rest := SumsOf(scores[..n], gidx[..n], g);
      if gidx[n] == g then Sums(rest.count + 1.0, rest.s1 + scores[n], rest.s2 + Times(scores[n], scores[n])) else rest
  }

  /** The sum of squared deviations of a group's scores from m. */
  function Deviations(scores: seq<real>, gidx: seq<nat>, g: nat, m: real): real
    requires |scores| == |gidx|
  {
    if scores == [] then 0.0
    else
      var n := |scores| - 1;
      Deviations(scores[..n], gidx[..n], g, m)
      + (if gidx[n] == g then Times(scores[n] - m, scores[n] - m) else 0.0)
  }

  lemma {:induction false} DeviationsExpand(scores: seq<real>, gidx: seq<nat>, g: nat, m: real)
    requires |scores| == |gidx|
    ensures var s := SumsOf(scores, gidx, g);
            Deviations(scores, gidx, g, m) == Expanded(m, s.s1, s.s2, s.count)
  {
    hide Times, Expanded;
    ExpandOne(m, 0.0, 0.0, 0.0, 0.0);
    if scores != [] {
      var n := |scores| - 1;
      DeviationsExpand(scores[..n], gidx[..n], g, m);
      var r := SumsOf(scores[..n], gidx[..n], g);
      ExpandOne(m, scores[n], r.s1, r.s2, r.count);
    }
  }

  function Expanded(m: real, s1: real, s2: real, count: real): real {
    s2 - 2.0 * m * s1 + m * m * count
  }

  lemma ExpandOne(m: real, x: real, s1: real, s2: real, count: real)
    ensures Expanded(m, s1, s2, count) + Times(x - m, x - m) == Expanded(m, s1 + x, s2 + Times(x, x), count + 1.0)
    ensures Expanded(m, 0.0, 0.0, 0.0) == 0.0
  {
  }

  lemma {:induction false} DeviationsNonNegative(scores: seq<real>, gidx: seq<nat>, g: nat, m: real)
    requires |scores| == |gidx|
    ensures Deviations(scores, gidx, g, m) >= 0.0
  {
    if scores != [] {
      var n := |scores| - 1;
      hide Times;
      DeviationsNonNegative(scores[..n], gidx[..n], g, m);
      SquareNonNegative(scores[n] - m);
    }
  }

  /** The one-pass numerator is the sum of squared deviations from the group's mean, so it is
      never negative. */
  lemma OnePassIsTwoPass(scores: seq<real>, gidx: seq<nat>, g: nat)
    requires |scores| == |gidx| && SumsOf(scores, gidx, g).count >= 1.0
    ensures var s := SumsOf(scores, gidx, g);
            s.s2 - Over(Times(s.s1, s.s1), s.count) == Deviations(scores, gidx, g, Over(s.s1, s.count)) >= 0.0
  {
    hide SumsOf, Deviations, Times, Over, Expanded;
    var s := SumsOf(scores, gidx, g);
    var m := Over(s.s1, s.count);
    DeviationsExpand(scores, gidx, g, m);
    DeviationsNonNegative(scores, gidx, g, m);
    ExpandedAtMean(s.s1, s.s2, s.count);
  }

  /** At the mean the expanded form is the numerator of the one-pass variance. */
  lemma ExpandedAtMean(s1: real, s2: real, n: real)
    requires n >= 1.0
    ensures Expanded(Over(s1, n), s1, s2, n) == s2 - Over(Times(s1, s1), n)
  {
    var m := Over(s1, n);
    OverIs(s1, n);
    assert m * n == s1;
    assert m * m * n == m * (m * n);
    OverUnique(Times(s1, s1), n, Times(m, s1)) by {
      TimesAssociative(m, s1, n);
      TimesCommutes(s1, n);
      TimesAssociative(m, n, s1);
      TimesCommutes(n, m);
    }
  }

  lemma {:induction false} CountIsNatural(scores: seq<real>, gidx: seq<nat>, g: nat)
    requires |scores| == |gidx|
    ensures SumsOf(scores, gidx, g).count >= 0.0
    ensures SumsOf(scores, gidx, g).count > 0.0 ==> SumsOf(scores, gidx, g).count >= 1.0
    ensures SumsOf(scores, gidx, g).count > 1.0 ==> SumsOf(scores, gidx, g).count >= 2.0
  {
    if scores != [] {
      CountIsNatural(scores[..|scores| - 1], gidx[..|scores| - 1], g);
    }
  }

  function CountTotal(scores: seq<real>, gidx: seq<nat>, groups: nat): real
    requires |scores| == |gidx|
  {
    if groups == 0 then 0.0 else CountTotal(scores, gidx, groups - 1) + SumsOf(scores, gidx, groups - 1).count
  }

  /** Every score is counted in exactly one group. */
  lemma {:induction false} CountsAddUp(scores: seq<real>, gidx: seq<nat>, groups: nat)
    requires |scores| == |gidx| && forall i :: 0 <= i < |gidx| ==> gidx[i] < groups
    ensures CountTotal(scores, gidx, groups) == |scores| as real
  {
    if scores == [] {
      NothingCounted(scores, gidx, groups);
    } else {
      var n := |scores| - 1;
      CountsAddUp(scores[..n], gidx[..n], groups);
      OneMoreCounted(scores, gidx, groups);
    }
  }

  lemma {:induction false} NothingCounted(scores: seq<real>, gidx: seq<nat>, groups: nat)
    requires scores == [] && gidx == []
    ensures CountTotal(scores, gidx, groups) == 0.0
  {
    if groups > 0 {
      NothingCounted(scores, gidx, groups - 1);
    }
  }

  lemma {:induction false} OneMoreCounted(scores: seq<real>, gidx: seq<nat>, groups: nat)
    requires |scores| == |gidx| && scores != []
    ensures var n := |scores| - 1;
            CountTotal(scores, gidx, groups)
            == CountTotal(scores[..n], gidx[..n], groups) + (if gidx[n] < groups then 1.0 else 0.0)
  {
    if groups > 0 {
      OneMoreCounted(scores, gidx, groups - 1);
    }
  }

  datatype Stats = Stats(mean: seq<real>, stdSquared: seq<real>, count: seq<real>)

  /** `int(torch.max(gidx).item()) + 1`, or 0 for no scores. */
  function GroupCount(gidx: seq<nat>): (r: nat)
    ensures forall i :: 0 <= i < |gidx| ==> gidx[i] < r
    ensures r > 0 ==> r - 1 in gidx
  {
    if gidx == [] then 0
    else
      var rest, last := GroupCount(gidx[..|gidx| - 1]), gidx[|gidx| - 1] + 1;
      if last > rest then last else rest
  }

  /** `clamp(min=low)` */
  function AtLeast(x: real, low: real): (r: real)
    ensures r >= low && r >= x && (r == low || r == x)
  {
    if x < low then low else x
  }

  /** What is returned for one group: the mean and the unbiased variance of the group's scores, or
      `eps` when that is more than the variance; 0 and 1 for a group of one score or none. */
  ghost predicate IsStat(scores: seq<real>, gidx: seq<nat>, eps: real, g: nat, mean: real, stdSquared: real, count: real)
    requires |scores| == |gidx|
  {
    var s := SumsOf(scores, gidx, g);
    && count == s.count
    && (s.count <= 1.0 ==> mean == 0.0 && stdSquared == 1.0)
    && (s.count > 1.0 ==>
          && mean == Over(s.s1, s.count)
          && var variance := Over(Deviations(scores, gidx, g, mean), s.count - 1.0);
          && stdSquared == if variance >= eps then variance else eps)
  }

  /** In other words: the mean times the count is the sum, scores lie around it with deviations that
      add up to the variance times one less than the count, and the variance is `eps` only if it
      would be less. */
  lemma StatMeans(scores: seq<real>, gidx: seq<nat>, eps: real, g: nat, mean: real, stdSquared: real, count: real)
    requires |scores| == |gidx| && IsStat(scores, gidx, eps, g, mean, stdSquared, count)
    ensures count == SumsOf(scores, gidx, g).count && stdSquared >= if count <= 1.0 then 1.0 else eps
    ensures count <= 1.0 ==> mean == 0.0 && stdSquared == 1.0
    ensures count > 1.0 ==>
              && mean * count == SumsOf(scores, gidx, g).s1
              && stdSquared * (count - 1.0) >= Deviations(scores, gidx, g, mean)
              && (stdSquared == eps || stdSquared * (count - 1.0) == Deviations(scores, gidx, g, mean))
  {
    hide SumsOf, Deviations, Over;
    if count > 1.0 {
      var d := Deviations(scores, gidx, g, mean);
      OverTimes(SumsOf(scores, gidx, g).s1, count);
      OverTimes(d, count - 1.0);
      if stdSquared != Over(d, count - 1.0) {
        MoreTimes(Over(d, count - 1.0), stdSquared, count - 1.0);
      }
    }
  }

  lemma OverTimes(x: real, y: real)
    requires y > 0.0
    ensures Over(x, y) * y == x
  {
  }

  lemma MoreTimes(x: real, y: real, z: real)
    requires x <= y && z >= 0.0
    ensures x * z <= y * z
  {
    assert (y - x) * z >= 0.0;
  }

  /** `group_mean_std`: refuses scores and indices of different lengths. */
  method GroupMeanStd(scores: seq<real>, gidx: seq<nat>, eps: real) returns (r: Option<Stats>)
    ensures r.None? <==> |scores| != |gidx|
    ensures r.Some? ==>
              && |r.value.mean| == |r.value.stdSquared| == |r.value.count| == GroupCount(gidx)
              && forall g :: 0 <= g < GroupCount(gidx) ==>
                   IsStat(scores, gidx, eps, g, r.value.mean[g], r.value.stdSquared[g], r.value.count[g])
  {
    if |scores| != |gidx| {
      return None;
    }
    var groups := GroupCount(gidx);
    if groups == 0 {
      return Some(Stats([], [], []));
    }
    var count := new real[groups](_ => 0.0);
    var s1 := new real[groups](_ => 0.0);
    var s2 := new real[groups](_ => 0.0);
    for i := 0 to |scores|
      invariant forall g :: 0 <= g < groups ==> SumsAre(SumsOf(scores[..i], gidx[..i], g), count[g], s1[g], s2[g])
    {
      assert scores[..i + 1][..i] == scores[..i] && gidx[..i + 1][..i] == gidx[..i];
      var g := gidx[i];
      count[g], s1[g], s2[g] := count[g] + 1.0, s1[g] + scores[i], s2[g] + Times(scores[i], scores[i]);
    }
    assert scores[..|scores|] == scores && gidx[..|gidx|] == gidx;
    hide SumsOf, IsStat;
    hide Times;
    var counts, sums, squares := count[..], s1[..], s2[..];
    var mean: seq<real>, std: seq<real> := [], [];
    for g := 0 to groups
      invariant |mean| == |std| == g
      invariant forall h :: 0 <= h < g ==> IsStat(scores, gidx, eps, h, mean[h], std[h], counts[h])
    {
      var m, v := StatOf(scores, gidx, eps, g, counts[g], sums[g], squares[g]);
      mean, std := mean + [m], std + [v];
    }
    r := Some(Stats(mean, std, counts));
  }

  /** The formulas of one group, and the overwriting of groups of at most one score. */
  method StatOf(scores: seq<real>, gidx: seq<nat>, eps: real, g: nat, count: real, s1: real, s2: real)
    returns (mean: real, stdSquared: real)
    requires |scores| == |gidx| && SumsAre(SumsOf(scores, gidx, g), count, s1, s2)
    ensures IsStat(scores, gidx, eps, g, mean, stdSquared, count)
  {
    hide SumsOf, Deviations, Times, Over;
    CountIsNatural(scores, gidx, g);
    mean := Over(s1, AtLeast(count, 1.0));
    var varNum := s2 - Over(Times(s1, s1), AtLeast(count, 1.0));
    var denom := AtLeast(count - 1.0, 1.0);
    stdSquared := AtLeast(Over(varNum, denom), eps);
    if count <= 1.0 {
      mean := 0.0;
      stdSquared := 1.0;
    } else {
      OnePassIsTwoPass(scores, gidx, g);
    }
  }
}
