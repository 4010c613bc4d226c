/** The search for pipeline shard sizes: how many layers each of `pp` pipeline ranks holds. */
module Shards {
  import opened Arith
  import opened Basics

  datatype Outcome = Ok(sizes: seq<int>) | ValueError | IndexError

  /** A candidate of the search, with the key it is sorted by. */
  datatype Candidate = Candidate(sizes: seq<int>, key: int)

  function Sum(xs: seq<int>): int {
    if xs == [] then 0 else xs[0] + Sum(xs[1..])
  }

  /** The least number of layers the fullest of `pp` ranks can hold. */
  function CeilDiv(layers: int, pp: int): int
    requires pp > 0
  {
    (layers + pp - 1) / pp
  }

  /** Every rank but the first and the last holds m layers; those two share the rest. */
  function Shape(layers: int, pp: int, m: int): seq<int>
    requires pp >= 2
  {
    [(layers - m * (pp - 2)) / 2] + Repeat(m, pp - 2) + [layers - m * (pp - 2) - (layers - m * (pp - 2)) / 2]
  }

  function Distance(x: int, y: int): (r: int)
    ensures r >= 0 && (x == y + r || y == x + r)
  {
    if x >= y then x - y else y - x
  }

  predicate IsCandidate(layers: int, pp: int, m: int) {
    var ends := layers - m * (pp - 2);
    && 0 < ends / 2 <= m
    && 0 < ends - ends / 2 <= m
  }

  function CandidateAt(layers: int, pp: int, m: int): (r: Candidate)
    requires pp >= 2
    ensures |r.sizes| == pp && Distance(r.sizes[0], m) == r.key
  {
    var first := (layers - m * (pp - 2)) / 2;
    Candidate(Shape(layers, pp, m), if first >= m then first - m else m - first)
  }

  /** What `sorted(...)[0]` is: sorting is stable, so the earliest of the least keys. */
  predicate IsFirstLeast(cs: seq<Candidate>, k: nat) {
    && k < |cs|
    && (forall i :: 0 <= i < k ==> cs[i].key > cs[k].key)
    && (forall i :: k <= i < |cs| ==> cs[i].key >= cs[k].key)
  }

  method SortedFirst(cs: seq<Candidate>) returns (k: nat)
    requires cs != []
    ensures IsFirstLeast(cs, k)
  {
    k := 0;
    for i := 1 to |cs|
      invariant k < i && IsFirstLeast(cs[..i], k)
    {
      if cs[i].key < cs[k].key {
        k := i;
      }
    }
    assert cs[..|cs|] == cs;
  }

  // ---- arithmetic of the search ----

  lemma CeilDivBounds(layers: int, pp: int)
    requires pp > 0
    ensures (CeilDiv(layers, pp) - 1) * pp < layers <= CeilDiv(layers, pp) * pp
  {
    var c := CeilDiv(layers, pp);
    assert layers + pp - 1 == pp * c + (layers + pp - 1) % pp;
    assert (c - 1) * pp == c * pp - pp;
  }

  /** c is the least number with layers <= c * pp. */
  lemma CeilDivLeast(layers: int, pp: int, m: int)
    requires pp > 0
    ensures m >= CeilDiv(layers, pp) <==> layers <= m * pp
  {
    hide CeilDiv;
    var c := CeilDiv(layers, pp);
    CeilDivBounds(layers, pp);
    if m >= c {
      MulLe(c, m, pp);
    } else {
      MulLe(m, c - 1, pp);
    }
  }

  lemma CeilDivIs(layers: int, pp: int)
    requires pp > 0
    ensures CeilDiv(layers, pp) == layers / pp + if layers % pp == 0 then 0 else 1
  {
    var q, rem := layers / pp, layers % pp;
    DivMod(layers, pp);
    if rem == 0 {
      Quotient(layers + pp - 1, pp, q, pp - 1);
    } else {
      MulPlus(pp, q, 1);
      assert (q + 1) * pp == q * pp + pp;
      Quotient(layers + pp - 1, pp, q + 1, rem - 1);
    }
  }

  /** The four comparisons of the search are two bounds on m. */
  lemma CandidateBounds(layers: int, pp: int, m: int)
    requires pp >= 3
    ensures IsCandidate(layers, pp, m) <==> CeilDiv(layers, pp) <= m && m * (pp - 2) <= layers - 2
  {
    CeilDivLeast(layers, pp, m);
    assert m * pp == m * (pp - 2) + 2 * m;
  }

  lemma KeysIncrease(layers: int, pp: int, m: int, m': int)
    requires pp >= 3 && m < m' && IsCandidate(layers, pp, m) && IsCandidate(layers, pp, m')
    ensures CandidateAt(layers, pp, m).key < CandidateAt(layers, pp, m').key
  {
    MulLe(m, m', pp - 2);
    KeyStep(layers - m * (pp - 2), layers - m' * (pp - 2), m, m');
  }

  lemma KeyStep(ends: int, ends': int, m: int, m': int)
    requires ends' <= ends && m < m' && ends / 2 <= m && ends' / 2 <= m'
    ensures m - ends / 2 < m' - ends' / 2
  {
  }

  /** When any middle size works, the least one does, and the loop gets to it. */
  lemma LeastCandidate(layers: int, pp: int, m: int)
    requires 3 <= pp <= layers && IsCandidate(layers, pp, m)
    ensures IsCandidate(layers, pp, CeilDiv(layers, pp)) && 0 < CeilDiv(layers, pp) <= m < layers
  {
    hide IsCandidate, CeilDiv;
    var c := CeilDiv(layers, pp);
    CandidateBounds(layers, pp, m);
    CandidateBounds(layers, pp, c);
    CeilDivLeast(layers, pp, 0);
    assert 0 * pp == 0;
    MulLe(c, m, pp - 2);
    MulLe(1, pp - 2, m);
    assert m * (pp - 2) == (pp - 2) * m;
  }

  // ---- sums and splits ----

  lemma {:induction false} SumAppend(a: seq<int>, b: seq<int>)
    ensures Sum(a + b) == Sum(a) + Sum(b)
  {
    if a == [] {
      assert a + b == b;
    } else {
      assert (a + b)[1..] == a[1..] + b;
      SumAppend(a[1..], b);
    }
  }

  lemma {:induction false} SumRepeat(x: int, n: nat)
    ensures Sum(Repeat(x, n)) == x * n
  {
    if n > 0 {
      assert Repeat(x, n)[1..] == Repeat(x, n - 1);
      SumRepeat(x, n - 1);
      assert x * n == x * (n - 1) + x;
    }
  }

  lemma ShapeSum(layers: int, pp: int, m: int)
    requires pp >= 2
    ensures |Shape(layers, pp, m)| == pp && Sum(Shape(layers, pp, m)) == layers
  {
    var first := (layers - m * (pp - 2)) / 2;
    var last := layers - m * (pp - 2) - first;
    SumRepeat(m, pp - 2);
    SumAppend([first] + Repeat(m, pp - 2), [last]);
    SumAppend([first], Repeat(m, pp - 2));
    assert Sum([first]) == first && Sum([last]) == last;
  }

  /** The first rank holds as many layers as the last, or one fewer; all between hold m. */
  lemma ShapeEnds(layers: int, pp: int, m: int)
    requires pp >= 2
    ensures var r := Shape(layers, pp, m);
            && |r| == pp
            && r[0] <= r[pp - 1] <= r[0] + 1
            && forall i :: 0 < i < pp - 1 ==> r[i] == m
  {
  }

  ghost predicate Within(xs: seq<int>, lo: int, hi: int) {
    forall i :: 0 <= i < |xs| ==> lo <= xs[i] <= hi
  }

  lemma {:induction false} SumBounded(xs: seq<int>, lo: int, hi: int)
    requires Within(xs, lo, hi)
    ensures lo * |xs| <= Sum(xs) <= hi * |xs|
  {
    if xs != [] {
      SumBounded(xs[1..], lo, hi);
      assert hi * |xs| == hi * (|xs| - 1) + hi && lo * |xs| == lo * (|xs| - 1) + lo;
    }
  }

  /** No split of the layers over the ranks keeps every rank below ceil(layers / pp). */
  lemma SplitHasFullRank(split: seq<int>, layers: int, hi: int)
    requires split != [] && Sum(split) == layers && forall i :: 0 <= i < |split| ==> split[i] <= hi
    ensures CeilDiv(layers, |split|) <= hi
  {
    var lo := Least(split);
    SumBounded(split, lo, hi);
    CeilDivLeast(layers, |split|, hi);
  }

  function Least(xs: seq<int>): (r: int)
    requires xs != []
    ensures r in xs && forall i :: 0 <= i < |xs| ==> r <= xs[i]
  {
    if |xs| == 1 then xs[0]
    else
      var rest := Least(xs[1..]);
      if xs[0] <= rest then xs[0] else rest
  }

  /** `sizes` is a split of `layers` over `pp` ranks, each rank holds a layer, and no split has a
      smaller largest rank. */
  ghost predicate BestSplit(sizes: seq<int>, layers: int, pp: int)
    requires pp > 0
  {
    && |sizes| == pp && Sum(sizes) == layers
    && Within(sizes, 1, CeilDiv(layers, pp))
    && CeilDiv(layers, pp) in sizes
  }

  /** Why that is best: any split that keeps every rank at or below `hi` has `hi` at least the
      largest rank of `sizes`. */
  lemma BestSplitIsBest(sizes: seq<int>, layers: int, pp: int, other: seq<int>, hi: int)
    requires pp > 0 && BestSplit(sizes, layers, pp)
    requires |other| == pp && Sum(other) == layers && forall i :: 0 <= i < |other| ==> other[i] <= hi
    ensures forall i :: 0 <= i < |sizes| ==> sizes[i] <= hi
  {
    SplitHasFullRank(other, layers, hi);
  }

  lemma ShapeIsBest(layers: int, pp: int)
    requires 3 <= pp && IsCandidate(layers, pp, CeilDiv(layers, pp))
    ensures BestSplit(Shape(layers, pp, CeilDiv(layers, pp)), layers, pp)
  {
    ShapeSum(layers, pp, CeilDiv(layers, pp));
    assert Shape(layers, pp, CeilDiv(layers, pp))[1] == CeilDiv(layers, pp);
  }

  lemma OneIsBest(layers: int)
    requires layers >= 1
    ensures BestSplit([layers], layers, 1)
  {
    assert [layers][1..] == [];
    assert CeilDiv(layers, 1) == [layers][0];
  }

  lemma TwoIsBest(layers: int)
    requires layers >= 2
    ensures BestSplit([layers / 2, layers - layers / 2], layers, 2)
    ensures [layers / 2, layers - layers / 2] == Shape(layers, 2, CeilDiv(layers, 2))
  {
    var r := [layers / 2, layers - layers / 2];
    assert r[1..] == [r[1]] && r[1..][1..] == [];
    assert Sum(r[1..]) == r[1];
    assert CeilDiv(layers, 2) == r[1];
    assert CeilDiv(layers, 2) * (2 - 2) == 0 && Repeat(CeilDiv(layers, 2), 0) == [];
  }

  /** The middle sizes that were candidates before the loop reached `m`, in increasing order. */
  ghost predicate Collected(layers: int, pp: int, m: int, sizeOf: seq<int>, strategy: seq<Candidate>)
    requires pp >= 2
  {
    && |sizeOf| == |strategy|
    && (forall i :: 0 <= i < |sizeOf| ==>
          0 <= sizeOf[i] < m && IsCandidate(layers, pp, sizeOf[i])
          && strategy[i] == CandidateAt(layers, pp, sizeOf[i]))
    && (forall i, j :: 0 <= i < j < |sizeOf| ==> sizeOf[i] < sizeOf[j])
    && (forall m' :: 0 <= m' < m && IsCandidate(layers, pp, m') ==> m' in sizeOf)
  }

  lemma Collects(layers: int, pp: int, m: int, sizeOf: seq<int>, strategy: seq<Candidate>)
    requires pp >= 2 && m >= 0 && Collected(layers, pp, m, sizeOf, strategy) && IsCandidate(layers, pp, m)
    ensures Collected(layers, pp, m + 1, sizeOf + [m], strategy + [CandidateAt(layers, pp, m)])
  {
    hide IsCandidate, CandidateAt;
  }

  lemma Skips(layers: int, pp: int, m: int, sizeOf: seq<int>, strategy: seq<Candidate>)
    requires pp >= 2 && m >= 0 && Collected(layers, pp, m, sizeOf, strategy) && !IsCandidate(layers, pp, m)
    ensures Collected(layers, pp, m + 1, sizeOf, strategy)
  {
    hide IsCandidate, CandidateAt;
  }

  /** The loop collects every middle size that works. */
  method Candidates(layers: int, pp: int) returns (strategy: seq<Candidate>)
    requires 3 <= pp <= layers
    ensures exists sizeOf :: Collected(layers, pp, layers, sizeOf, strategy)
  {
    var middle := pp - 2;
    strategy := [];
    ghost var sizeOf: seq<int> := [];
    assert Collected(layers, pp, 0, sizeOf, strategy);
    hide Collected;
    for m := 0 to layers
      invariant Collected(layers, pp, m, sizeOf, strategy)
    {
      var firstLast := layers - m * middle;
      var first := firstLast / 2;
      var last := firstLast - firstLast / 2;
      if 0 < first <= m && 0 < last <= m {
        var diff := if first >= m then first - m else m - first;
        var candidate := Candidate([first] + Repeat(m, middle) + [last], diff);
        assert candidate == CandidateAt(layers, pp, m) && IsCandidate(layers, pp, m);
        Collects(layers, pp, m, sizeOf, strategy);
        strategy := strategy + [candidate];
        sizeOf := sizeOf + [m];
      } else {
        Skips(layers, pp, m, sizeOf, strategy);
      }
    }
  }

  /** Of the candidates the one with middle size ceil(layers / pp) comes first and has the least
      key; there is none only when that one does not work. */
  lemma FirstIsLeast(layers: int, pp: int, strategy: seq<Candidate>)
    requires 3 <= pp <= layers
    requires exists sizeOf :: Collected(layers, pp, layers, sizeOf, strategy)
    ensures strategy == [] <==> CeilDiv(layers, pp) * (pp - 2) > layers - 2
    ensures strategy != [] ==>
              IsCandidate(layers, pp, CeilDiv(layers, pp))
              && strategy[0] == CandidateAt(layers, pp, CeilDiv(layers, pp))
              && forall k :: 0 < k < |strategy| ==> strategy[0].key < strategy[k].key
  {
    hide IsCandidate, CeilDiv, CandidateAt;
    var sizeOf :| Collected(layers, pp, layers, sizeOf, strategy);
    var c := CeilDiv(layers, pp);
    CandidateBounds(layers, pp, c);
    if strategy == [] {
      if IsCandidate(layers, pp, c) {
        LeastCandidate(layers, pp, c);
      }
    } else {
      LeastCandidate(layers, pp, sizeOf[0]);
      assert sizeOf[0] == c;
      forall k | 0 < k < |strategy| ensures strategy[0].key < strategy[k].key {
        KeysIncrease(layers, pp, sizeOf[0], sizeOf[k]);
      }
    }
  }

  /** The search. It fails on bad arguments, and when no middle size works; otherwise it finds
      the split with middle size ceil(layers / pp), and no split has a smaller largest rank. */
  method GetDynamicPipelineShards(layers: int, pp: int) returns (r: Outcome)
    ensures r == ValueError <==> layers < pp || pp < 1
    ensures r == IndexError <==> 3 <= pp <= layers && CeilDiv(layers, pp) * (pp - 2) > layers - 2
    ensures r.Ok? ==> BestSplit(r.sizes, layers, pp)
    ensures r.Ok? && pp >= 2 ==>
              && r.sizes == Shape(layers, pp, CeilDiv(layers, pp))
              && r.sizes[0] <= r.sizes[pp - 1] <= r.sizes[0] + 1
              && forall i :: 0 < i < pp - 1 ==> r.sizes[i] == CeilDiv(layers, pp)
  {
    hide CeilDiv, BestSplit, IsCandidate, Shape, Collected;
    if layers < pp {
      return ValueError;
    }
    if pp < 1 {
      return ValueError;
    }
    if pp == 1 {
      OneIsBest(layers);
      return Ok([layers]);
    }
    if pp >= 2 {
      ShapeEnds(layers, pp, CeilDiv(layers, pp));
    }
    if pp == 2 {
      TwoIsBest(layers);
      return Ok([layers / 2, layers - layers / 2]);
    }
    var strategy := Candidates(layers, pp);
    FirstIsLeast(layers, pp, strategy);
    if strategy == [] {
      return IndexError;
    }
    ShapeIsBest(layers, pp);
    var k := SortedFirst(strategy);
    r := Ok(strategy[k].sizes);
  }

  /** The documentation asks for a split as uniform as possible. The split found is one (no two
      ranks differ by more than one layer) exactly when the layers divide evenly or leave at
      least pp - 2 over. */
  lemma UniformIff(layers: int, pp: int)
    requires 3 <= pp <= layers && IsCandidate(layers, pp, CeilDiv(layers, pp))
    ensures var s := Shape(layers, pp, CeilDiv(layers, pp));
            (forall i, j :: 0 <= i < |s| && 0 <= j < |s| ==> s[i] <= s[j] + 1)
            <==> layers % pp == 0 || layers % pp >= pp - 2
  {
    var c := CeilDiv(layers, pp);
    var s := Shape(layers, pp, c);
    FirstShard(layers, pp);
    assert s[1] == c && Within(s, s[0], c);
  }

  /** The first rank of the split found, next to the quotient. */
  lemma FirstShard(layers: int, pp: int)
    requires 3 <= pp <= layers
    ensures var c, rem := CeilDiv(layers, pp), layers % pp;
            (layers - c * (pp - 2)) / 2 == if rem == 0 then c else c - 1 + (rem - pp + 2) / 2
  {
    var c, q, rem := CeilDiv(layers, pp), layers / pp, layers % pp;
    CeilDivIs(layers, pp);
    hide CeilDiv;
    DivMod(layers, pp);
    MulPlus(q, pp - 2, 2);
    MulPlus(pp - 2, q, 1);
    var middle := q * (pp - 2);
    assert c * (pp - 2) == if rem == 0 then middle else middle + (pp - 2);
    assert layers == middle + 2 * q + rem;
  }

  /** 25 layers over 6 ranks: the search returns ranks of 2 and of 5 layers, though ranks of 4
      and 5 would do. 13 over 6: it finds nothing, though a split exists. */
  lemma SearchIsNotAlwaysUniform()
    ensures CeilDiv(25, 6) == 5 && Shape(25, 6, 5) == [2, 5, 5, 5, 5, 3] && IsCandidate(25, 6, 5)
    ensures Sum([4, 4, 4, 4, 4, 5]) == 25
    ensures CeilDiv(13, 6) == 3 && 3 * (6 - 2) > 13 - 2 && Sum([2, 2, 2, 2, 2, 3]) == 13
  {
    assert Shape(25, 6, 5) == [2] + Repeat(5, 4) + [3];
    SumRepeat(4, 5);
    SumAppend(Repeat(4, 5), [5]);
    assert Repeat(4, 5) + [5] == [4, 4, 4, 4, 4, 5];
    SumRepeat(2, 5);
    SumAppend(Repeat(2, 5), [3]);
    assert Repeat(2, 5) + [3] == [2, 2, 2, 2, 2, 3];
  }
}
