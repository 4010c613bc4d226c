/** Removing and restoring padding: the tokens a mask selects, gathered into one sequence, and
    scattered back. A tensor is the sequence of its rows along the first axis. */
module Unpad {
  import opened Basics
  import opened Arith
  import opened Packing

  /** `torch.nonzero(m).flatten()` */
  function Nonzero(m: seq<nat>): seq<nat> {
    if m == [] then []
    else
      var n := |m| - 1;
      Nonzero(m[..n]) + (if m[n] != 0 then [n] else [])
  }

  ghost predicate Increasing(xs: seq<nat>) {
    forall i, j :: 0 <= i < j < |xs| ==> xs[i] < xs[j]
  }

  ghost predicate InRange(indices: seq<nat>, n: nat) {
    forall k :: 0 <= k < |indices| ==> indices[k] < n
  }

  /** The selected positions, each once, in increasing order. */
  lemma {:induction false} NonzeroIs(m: seq<nat>)
    ensures InRange(Nonzero(m), |m|) && Increasing(Nonzero(m))
    ensures forall i :: 0 <= i < |m| ==> (m[i] != 0 <==> i in Nonzero(m))
  {
    if m != [] {
      var n := |m| - 1;
      NonzeroIs(m[..n]);
      var init := Nonzero(m[..n]);
      forall i | 0 <= i < |m| ensures m[i] != 0 <==> i in Nonzero(m) {
        if i < n {
          assert m[..n][i] != 0 <==> i in init;
        } else {
          assert n !in init;
        }
      }
    }
  }

  /** `IndexFirstAxis.forward`, and `IndexPutFirstAxis.backward`. */
  function Gather<V>(x: seq<V>, indices: seq<nat>): (r: seq<V>)
    requires InRange(indices, |x|)
    ensures |r| == |indices|
  {
    seq(|indices|, k requires 0 <= k < |indices| => x[indices[k]])
  }

  /** Rows written at their indices over zeros, one after the other. */
  function Scatter<V>(values: seq<V>, indices: seq<nat>, n: nat, zero: V): (r: seq<V>)
    requires |values| == |indices| && InRange(indices, n)
    ensures |r| == n
  {
    if values == [] then seq(n, _ => zero)
    else
      var k := |values| - 1;
      Scatter(values[..k], indices[..k], n, zero)[indices[k] := values[k]]
  }

  /** `IndexPutFirstAxis.forward`, and `IndexFirstAxis.backward`: a fresh buffer of zeros, and the
      rows assigned at their indices. */
  method IndexPut<V>(values: seq<V>, indices: seq<nat>, n: nat, zero: V) returns (output: array<V>)
    requires |values| == |indices| && InRange(indices, n)
    ensures fresh(output) && output[..] == Scatter(values, indices, n, zero)
  {
    output := new V[n](_ => zero);
    assert output[..] == seq(n, _ => zero);
    for k := 0 to |values|
      invariant output.Length == n && output[..] == Scatter(values[..k], indices[..k], n, zero)
    {
      assert values[..k + 1][..k] == values[..k] && indices[..k + 1][..k] == indices[..k];
      output[indices[k]] := values[k];
    }
    assert values[..|values|] == values && indices[..|values|] == indices;
  }

  ghost predicate DistinctIndices(indices: seq<nat>) {
    forall i, j :: 0 <= i < j < |indices| ==> indices[i] != indices[j]
  }

  lemma {:induction false} ScatterAway<V>(values: seq<V>, indices: seq<nat>, n: nat, zero: V, i: nat)
    requires |values| == |indices| && InRange(indices, n) && i < n && i !in indices
    ensures Scatter(values, indices, n, zero)[i] == zero
  {
    if values != [] {
      ScatterAway(values[..|values| - 1], indices[..|values| - 1], n, zero, i);
    }
  }

  /** The last row written at an index is the one that stays. */
  lemma {:induction false} ScatterLast<V>(values: seq<V>, indices: seq<nat>, n: nat, zero: V, k: nat)
    requires |values| == |indices| && InRange(indices, n) && k < |indices|
    requires forall j :: k < j < |indices| ==> indices[j] != indices[k]
    ensures Scatter(values, indices, n, zero)[indices[k]] == values[k]
  {
    if k < |values| - 1 {
      ScatterLast(values[..|values| - 1], indices[..|values| - 1], n, zero, k);
    }
  }

  /** Restoring and then removing padding changes nothing, whatever the tokens. */
  lemma UnpadAfterPad<V>(values: seq<V>, m: seq<nat>, zero: V)
    requires |values| == |Nonzero(m)|
    ensures InRange(Nonzero(m), |m|)
    ensures Gather(Scatter(values, Nonzero(m), |m|, zero), Nonzero(m)) == values
  {
    hide Nonzero, Scatter;
    NonzeroIs(m);
    var indices := Nonzero(m);
    forall k | 0 <= k < |indices| ensures Scatter(values, indices, |m|, zero)[indices[k]] == values[k] {
      ScatterLast(values, indices, |m|, zero, k);
    }
  }

  /** Removing and then restoring padding zeroes what the mask does not select, and nothing else. */
  lemma PadAfterUnpad<V>(x: seq<V>, m: seq<nat>, zero: V)
    requires |x| == |m|
    ensures InRange(Nonzero(m), |x|)
    ensures Scatter(Gather(x, Nonzero(m)), Nonzero(m), |m|, zero)
            == seq(|m|, i requires 0 <= i < |m| => if m[i] != 0 then x[i] else zero)
  {
    hide Nonzero, Scatter;
    NonzeroIs(m);
    var indices := Nonzero(m);
    var r := Scatter(Gather(x, indices), indices, |m|, zero);
    forall i | 0 <= i < |m| ensures r[i] == if m[i] != 0 then x[i] else zero {
      if i in indices {
        var k :| 0 <= k < |indices| && indices[k] == i;
        ScatterLast(Gather(x, indices), indices, |m|, zero, k);
      } else {
        ScatterAway(Gather(x, indices), indices, |m|, zero, i);
      }
    }
  }

  // ---- the sequences of a batch ----

  /** `all_masks.sum(dim=-1)` of one row. */
  function SeqLen(row: seq<nat>): nat {
    if row == [] then 0 else SeqLen(row[..|row| - 1]) + row[|row| - 1]
  }

  /** `F.pad(torch.cumsum(seqlens_in_batch), (1, 0))[b]` */
  function CuSeqlen(rows: seq<seq<nat>>, b: nat): nat
    requires b <= |rows|
  {
    if b == 0 then 0 else CuSeqlen(rows, b - 1) + SeqLen(rows[b - 1])
  }

  function Shift(xs: seq<nat>, base: nat): (r: seq<nat>)
    ensures |r| == |xs|
  {
    seq(|xs|, k requires 0 <= k < |xs| => xs[k] + base)
  }

  ghost predicate Rectangular(rows: seq<seq<nat>>, seqlen: nat) {
    forall b :: 0 <= b < |rows| ==> |rows[b]| == seqlen
  }

  ghost predicate ZeroOne(row: seq<nat>) {
    forall i :: 0 <= i < |row| ==> row[i] <= 1
  }

  /** A row's length is a sum: entry by entry, of 0/1 masks or not. */
  lemma {:induction false} SeqLenAdds(row: seq<nat>, more: seq<nat>)
    ensures SeqLen(row + more) == SeqLen(row) + SeqLen(more)
    ensures |row| == 1 ==> SeqLen(row) == row[0]
  {
    if more == [] {
      assert row + more == row;
    } else {
      var init := more[..|more| - 1];
      SeqLenAdds(row, init);
      assert (row + more)[..|row + more| - 1] == row + init;
    }
  }

  /** A row's length is its number of selected tokens exactly when the mask is 0/1. */
  lemma {:induction false} SeqLenCounts(row: seq<nat>)
    ensures |Nonzero(row)| <= SeqLen(row)
    ensures |Nonzero(row)| == SeqLen(row) <==> ZeroOne(row)
  {
    if row != [] {
      var init := row[..|row| - 1];
      SeqLenCounts(init);
      if ZeroOne(init) && row[|row| - 1] <= 1 {
        assert forall i :: 0 <= i < |row| ==> row[i] == if i < |init| then init[i] else row[|row| - 1];
      }
      if ZeroOne(row) {
        assert forall i :: 0 <= i < |init| ==> init[i] == row[i];
      }
    }
  }

  lemma {:induction false} NonzeroAppend(m: seq<nat>, row: seq<nat>)
    ensures Nonzero(m + row) == Nonzero(m) + Shift(Nonzero(row), |m|)
  {
    if row == [] {
      assert m + row == m;
    } else {
      var init := row[..|row| - 1];
      NonzeroAppend(m, init);
      assert (m + row)[..|m + row| - 1] == m + init;
    }
  }

  lemma {:induction false} FlattenRows(rows: seq<seq<nat>>, seqlen: nat, b: nat)
    requires Rectangular(rows, seqlen) && b < |rows|
    ensures |Flatten(rows[..b])| == b * seqlen
    ensures Flatten(rows[..b + 1]) == Flatten(rows[..b]) + rows[b]
  {
    assert rows[..b + 1] == rows[..b] + [rows[b]];
    FlattenAppend(rows[..b], [rows[b]]);
    assert Flatten([rows[b]]) == rows[b] + Flatten([]);
    if b > 0 {
      FlattenRows(rows, seqlen, b - 1);
      MulStep(seqlen, b);
      assert b * seqlen == (b - 1) * seqlen + seqlen;
    } else {
      assert rows[..0] == [] && 0 * seqlen == 0;
    }
  }

  /** With a 0/1 mask the tokens of row b are exactly `indices[cu_seqlens[b]..cu_seqlens[b + 1]]`,
      and `cu_seqlens` ends at the number of tokens. */
  lemma {:induction false} RowsAreRanges(rows: seq<seq<nat>>, seqlen: nat, b: nat)
    requires Rectangular(rows, seqlen) && b <= |rows|
    requires forall c :: 0 <= c < |rows| ==> ZeroOne(rows[c])
    ensures |Nonzero(Flatten(rows[..b]))| == CuSeqlen(rows, b)
    ensures b > 0 ==>
              && CuSeqlen(rows, b - 1) <= CuSeqlen(rows, b)
              && Nonzero(Flatten(rows[..b]))[..CuSeqlen(rows, b - 1)] == Nonzero(Flatten(rows[..b - 1]))
              && Nonzero(Flatten(rows[..b]))[CuSeqlen(rows, b - 1)..]
                 == Shift(Nonzero(rows[b - 1]), (b - 1) * seqlen)
  {
    if b > 0 {
      RowsAreRanges(rows, seqlen, b - 1);
      FlattenRows(rows, seqlen, b - 1);
      NonzeroAppend(Flatten(rows[..b - 1]), rows[b - 1]);
      SeqLenCounts(rows[b - 1]);
    }
  }

  lemma {:induction false} PrefixStays(rows: seq<seq<nat>>, seqlen: nat, b: nat, c: nat)
    requires Rectangular(rows, seqlen) && b <= c <= |rows|
    ensures Nonzero(Flatten(rows[..b])) <= Nonzero(Flatten(rows[..c]))
  {
    if b < c {
      PrefixStays(rows, seqlen, b, c - 1);
      FlattenRows(rows, seqlen, c - 1);
      NonzeroAppend(Flatten(rows[..c - 1]), rows[c - 1]);
    }
  }

  /** Row b's tokens occupy exactly [cu_seqlens[b], cu_seqlens[b + 1]) of the unpadded sequence. */
  lemma RowOccupiesRange(rows: seq<seq<nat>>, seqlen: nat, b: nat)
    requires Rectangular(rows, seqlen) && b < |rows|
    requires forall c :: 0 <= c < |rows| ==> ZeroOne(rows[c])
    ensures var indices := Nonzero(Flatten(rows));
            && CuSeqlen(rows, b) <= CuSeqlen(rows, b + 1) <= |indices| == CuSeqlen(rows, |rows|)
            && indices[CuSeqlen(rows, b)..CuSeqlen(rows, b + 1)] == Shift(Nonzero(rows[b]), b * seqlen)
  {
    RowsAreRanges(rows, seqlen, b + 1);
    RowsAreRanges(rows, seqlen, |rows|);
    PrefixStays(rows, seqlen, b + 1, |rows|);
    assert rows[..|rows|] == rows;
    var part, indices := Nonzero(Flatten(rows[..b + 1])), Nonzero(Flatten(rows));
    assert indices[..|part|] == part;
    assert indices[CuSeqlen(rows, b)..CuSeqlen(rows, b + 1)] == part[CuSeqlen(rows, b)..];
  }

  /** A mask that is not 0/1, as the sum of two overlapping masks, breaks this: `cu_seqlens` ends
      at the number of tokens exactly when the mask is 0/1. */
  lemma {:induction false} CuSeqlensMatchIff(rows: seq<seq<nat>>, seqlen: nat)
    requires Rectangular(rows, seqlen)
    ensures |Nonzero(Flatten(rows))| <= CuSeqlen(rows, |rows|)
    ensures |Nonzero(Flatten(rows))| == CuSeqlen(rows, |rows|)
            <==> forall b :: 0 <= b < |rows| ==> ZeroOne(rows[b])
  {
    if rows != [] {
      var init, last := rows[..|rows| - 1], rows[|rows| - 1];
      hide Nonzero, SeqLen, ZeroOne;
      CuSeqlensMatchIff(init, seqlen);
      FlattenRows(rows, seqlen, |rows| - 1);
      assert rows[..|rows|] == rows;
      NonzeroAppend(Flatten(init), last);
      SeqLenCounts(last);
      CuPrefix(rows, |rows| - 1);
      assert forall b :: 0 <= b < |init| ==> init[b] == rows[b];
    }
  }

  lemma {:induction false} CuPrefix(rows: seq<seq<nat>>, b: nat)
    requires b <= |rows|
    ensures CuSeqlen(rows[..b], b) == CuSeqlen(rows, b)
    decreases b
  {
    if b > 0 {
      CuPrefix(rows, b - 1);
      CuPrefix(rows[..b], b - 1);
      assert rows[..b][..b - 1] == rows[..b - 1];
    }
  }

  // ---- gradients ----

  function Dot(x: seq<real>, y: seq<real>): real
    requires |x| == |y|
  {
    if x == [] then 0.0 else Dot(x[..|x| - 1], y[..|y| - 1]) + x[|x| - 1] * y[|y| - 1]
  }

  /** Changing one entry of y. */
  lemma {:induction false} DotUpdate(x: seq<real>, y: seq<real>, i: nat, v: real)
    requires |x| == |y| && i < |x|
    ensures Dot(x, y[i := v]) == Dot(x, y) + x[i] * (v - y[i])
  {
    var n := |x| - 1;
    if i < n {
      DotUpdate(x[..n], y[..n], i, v);
      assert y[i := v][..n] == y[..n][i := v];
    } else {
      assert y[i := v][..n] == y[..n];
    }
  }

  lemma {:induction false} DotZeros(x: seq<real>)
    ensures Dot(x, seq(|x|, _ => 0.0)) == 0.0
  {
    if x != [] {
      DotZeros(x[..|x| - 1]);
      assert seq(|x|, _ => 0.0)[..|x| - 1] == seq(|x| - 1, _ => 0.0);
    }
  }

  /** The backward passes are the adjoints of the forward passes: gathering and scattering are
      each other's transpose, for distinct indices. */
  lemma {:induction false} Adjoint(x: seq<real>, g: seq<real>, indices: seq<nat>)
    requires |g| == |indices| && InRange(indices, |x|) && DistinctIndices(indices)
    ensures Dot(Gather(x, indices), g) == Dot(x, Scatter(g, indices, |x|, 0.0))
  {
    if g == [] {
      DotZeros(x);
    } else {
      var k := |g| - 1;
      Adjoint(x, g[..k], indices[..k]);
      ScatterAway(g[..k], indices[..k], |x|, 0.0, indices[k]);
      var s := Scatter(g[..k], indices[..k], |x|, 0.0);
      assert Scatter(g, indices, |x|, 0.0) == s[indices[k] := g[k]] && s[indices[k]] == 0.0;
      hide Scatter;
      DotUpdate(x, s, indices[k], g[k]);
      assert Gather(x, indices)[..k] == Gather(x, indices[..k]);
      assert Dot(Gather(x, indices), g) == Dot(Gather(x, indices[..k]), g[..k]) + x[indices[k]] * g[k];
    }
  }

  ghost predicate IsAdjoint(indices: seq<nat>, n: nat)
    requires InRange(indices, n)
  {
    forall x: seq<real>, g: seq<real> :: |x| == n && |g| == |indices| ==>
      Dot(Gather(x, indices), g) == Dot(x, Scatter(g, indices, n, 0.0))
  }

  function Unit(n: nat, i: nat): (r: seq<real>)
    ensures |r| == n
  {
    seq(n, j => if j == i then 1.0 else 0.0)
  }

  lemma {:induction false} DotUnit(x: seq<real>, i: nat)
    requires i < |x|
    ensures Dot(x, Unit(|x|, i)) == x[i]
  {
    DotZeros(x);
    DotUpdate(x, seq(|x|, _ => 0.0), i, 1.0);
    assert Unit(|x|, i) == seq(|x|, _ => 0.0)[i := 1.0];
  }

  lemma DotSymmetric(x: seq<real>, y: seq<real>)
    requires |x| == |y|
    ensures Dot(x, y) == Dot(y, x)
  {
  }

  /** Distinct indices are needed: `scatter_` overwrites where a gradient would have to add up. */
  lemma AdjointIff(indices: seq<nat>, n: nat)
    requires InRange(indices, n)
    ensures IsAdjoint(indices, n) <==> DistinctIndices(indices)
  {
    if DistinctIndices(indices) {
      forall x: seq<real>, g: seq<real> | |x| == n && |g| == |indices|
        ensures Dot(Gather(x, indices), g) == Dot(x, Scatter(g, indices, n, 0.0))
      {
        Adjoint(x, g, indices);
      }
    } else {
      var i, j :| 0 <= i < j < |indices| && indices[i] == indices[j];
      NotAdjoint(indices, n, i, j);
    }
  }

  lemma NotAdjoint(indices: seq<nat>, n: nat, i: nat, j: nat)
    requires InRange(indices, n) && i < j < |indices| && indices[i] == indices[j]
    ensures !IsAdjoint(indices, n)
  {
    var l := LastAt(indices, j);
    var x, g := Unit(n, indices[i]), Unit(|indices|, i);
    DotUnit(Gather(x, indices), i);
    var s := Scatter(g, indices, n, 0.0);
    ScatterLast(g, indices, n, 0.0, l);
    DotUnit(s, indices[i]);
    DotSymmetric(x, s);
  }

  lemma {:induction false} LastAt(indices: seq<nat>, j: nat) returns (l: nat)
    requires j < |indices|
    ensures j <= l < |indices| && indices[l] == indices[j]
    ensures forall k :: l < k < |indices| ==> indices[k] != indices[j]
    decreases |indices| - j
  {
    if k :| j < k < |indices| && indices[k] == indices[j] {
      l := LastAt(indices, k);
    } else {
      l := j;
    }
  }
}
