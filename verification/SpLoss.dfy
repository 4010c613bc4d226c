/** The loss of the SFT trainer, computed directly or over the tokens without padding, as it is
    under sequence parallelism. `logit[p]` is what the model says at position p of the flattened
    batch, and `ce` the cross entropy of one position. */
module SpLoss {
  import opened Arith
  import opened Unpad

  /** A batch of `rows` sequences of `seqlen` tokens, flattened; one entry a position. */
  datatype Batch = Batch(seqlen: nat, rows: nat, ids: seq<int>, attention: seq<nat>, lossMask: seq<real>) {
    ghost predicate Valid() {
      && |ids| == |attention| == |lossMask| == rows * seqlen
    }
  }

  /** Position s of row b, flattened. */
  function Pos(batch: Batch, b: nat, s: nat): (p: nat)
    requires b < batch.rows && s < batch.seqlen
    ensures p < batch.rows * batch.seqlen
  {
    MulStrict(b, batch.rows, batch.seqlen);
    MulLe(0, b, batch.seqlen);
    b * batch.seqlen + s
  }

  /** Positions are numbered row by row, from the first token of the first row. */
  lemma RowByRow(batch: Batch, b: nat, s: nat)
    requires b < batch.rows && s < batch.seqlen
    ensures b == 0 && s == 0 ==> Pos(batch, b, s) == 0
    ensures s > 0 ==> Pos(batch, b, s) == Pos(batch, b, s - 1) + 1
    ensures b > 0 && s == 0 ==> Pos(batch, b, s) == Pos(batch, b - 1, batch.seqlen - 1) + 1
  {
    MulPlus(batch.seqlen, b - 1, 1);
  }

  /** The direct path: the loss of predicting token s + 1 at position s, masked. */
  function DirectLoss<L>(batch: Batch, logit: seq<L>, ce: (L, int) -> real, b: nat, s: nat): real
    requires batch.Valid() && |logit| == |batch.ids| && b < batch.rows && s + 1 < batch.seqlen
  {
    var p := Pos(batch, b, s);
    ce(logit[p], batch.ids[Pos(batch, b, s + 1)]) * batch.lossMask[Pos(batch, b, s + 1)]
  }

  /** `torch.roll(xs, shifts=-1)` */
  function Roll<T>(xs: seq<T>): (r: seq<T>)
    ensures |r| == |xs|
  {
    seq(|xs|, k requires 0 <= k < |xs| => if k + 1 < |xs| then xs[k + 1] else xs[0])
  }

  /** The losses of the tokens that the mask selects, in the unpadded sequence. */
  function TokenLosses<L>(m: seq<nat>, ids: seq<int>, logit: seq<L>, ce: (L, int) -> real): (r: seq<real>)
    requires |m| == |ids| == |logit|
    ensures |r| == |Nonzero(m)|
  {
    NonzeroIs(m);
    var indices := Nonzero(m);
    var rolled := Roll(Gather(ids, indices));
    seq(|indices|, k requires 0 <= k < |indices| => ce(Gather(logit, indices)[k], rolled[k]))
  }

  /** Those losses with padding restored. */
  function FullLoss<L>(m: seq<nat>, ids: seq<int>, logit: seq<L>, ce: (L, int) -> real): (r: seq<real>)
    requires |m| == |ids| == |logit|
    ensures |r| == |m|
  {
    NonzeroIs(m);
    Scatter(TokenLosses(m, ids, logit, ce), Nonzero(m), |m|, 0.0)
  }

  /** The sequence-parallel path: unpad, roll, loss of every token, pad, drop the last column, mask. */
  function PaddedLoss<L>(batch: Batch, logit: seq<L>, ce: (L, int) -> real, b: nat, s: nat): real
    requires batch.Valid() && |logit| == |batch.ids| && b < batch.rows && s + 1 < batch.seqlen
  {
    FullLoss(batch.attention, batch.ids, logit, ce)[Pos(batch, b, s)] * batch.lossMask[Pos(batch, b, s + 1)]
  }

  lemma {:induction false} IncreasingApart(xs: seq<nat>, k: nat, j: nat)
    requires Increasing(xs) && k <= j < |xs|
    ensures xs[k] + (j - k) <= xs[j]
  {
    if k < j {
      IncreasingApart(xs, k, j - 1);
    }
  }

  /** In the unpadded sequence an attended token is followed by the next position if that is
      attended. */
  lemma NextToken(m: seq<nat>, k: nat)
    requires k < |Nonzero(m)|
    ensures Nonzero(m)[k] < |m|
    ensures Nonzero(m)[k] + 1 < |m| && m[Nonzero(m)[k] + 1] != 0 ==>
              k + 1 < |Nonzero(m)| && Nonzero(m)[k + 1] == Nonzero(m)[k] + 1
  {
    NonzeroIs(m);
    var indices := Nonzero(m);
    var p := indices[k] + 1;
    if p < |m| && m[p] != 0 {
      assert p in indices;
      var j :| 0 <= j < |indices| && indices[j] == p;
      if k < j {
        IncreasingApart(indices, k, j);
      }
    }
  }

  /** The token after the k-th in the unpadded sequence, around the end. */
  function After(m: seq<nat>, k: nat): (r: nat)
    requires k < |Nonzero(m)|
    ensures r < |m| && m[r] != 0
  {
    NonzeroIs(m);
    var r := if k + 1 < |Nonzero(m)| then Nonzero(m)[k + 1] else Nonzero(m)[0];
    assert r in Nonzero(m);
    r
  }

  /** What the padded path holds where a token is selected, and elsewhere. */
  lemma FullLossOfToken<L>(m: seq<nat>, ids: seq<int>, logit: seq<L>, ce: (L, int) -> real, k: nat)
    requires |m| == |ids| == |logit| && k < |Nonzero(m)|
    ensures Nonzero(m)[k] < |m|
    ensures FullLoss(m, ids, logit, ce)[Nonzero(m)[k]] == ce(logit[Nonzero(m)[k]], ids[After(m, k)])
  {
    hide Nonzero;
    NonzeroIs(m);
    var indices, losses := Nonzero(m), TokenLosses(m, ids, logit, ce);
    ScatterLast(losses, indices, |m|, 0.0, k);
    hide Scatter;
    assert Roll(Gather(ids, indices))[k] == ids[After(m, k)];
    assert losses[k] == ce(Gather(logit, indices)[k], Roll(Gather(ids, indices))[k]);
  }

  lemma FullLossElsewhere<L>(m: seq<nat>, ids: seq<int>, logit: seq<L>, ce: (L, int) -> real, p: nat)
    requires |m| == |ids| == |logit| && p < |m| && m[p] == 0
    ensures FullLoss(m, ids, logit, ce)[p] == 0.0
  {
    hide Nonzero, TokenLosses;
    NonzeroIs(m);
    ScatterAway(TokenLosses(m, ids, logit, ce), Nonzero(m), |m|, 0.0, p);
  }

  lemma FullLossAt<L>(m: seq<nat>, ids: seq<int>, logit: seq<L>, ce: (L, int) -> real, p: nat)
    requires |m| == |ids| == |logit| && p < |m|
    ensures m[p] == 0 ==> FullLoss(m, ids, logit, ce)[p] == 0.0
    ensures m[p] != 0 && p + 1 < |m| && m[p + 1] != 0 ==> FullLoss(m, ids, logit, ce)[p] == ce(logit[p], ids[p + 1])
  {
    hide Nonzero, FullLoss;
    NonzeroIs(m);
    if m[p] == 0 {
      FullLossElsewhere(m, ids, logit, ce, p);
    } else {
      var k :| 0 <= k < |Nonzero(m)| && Nonzero(m)[k] == p;
      FullLossOfToken(m, ids, logit, ce, k);
      NextToken(m, k);
    }
  }

  /** The prediction of the token after (b, s) counts. */
  ghost predicate Counts(batch: Batch, b: nat, s: nat)
    requires batch.Valid() && b < batch.rows && s + 1 < batch.seqlen
  {
    batch.lossMask[Pos(batch, b, s + 1)] != 0.0
  }

  ghost predicate BothAttended(batch: Batch, b: nat, s: nat)
    requires batch.Valid() && b < batch.rows && s + 1 < batch.seqlen
  {
    batch.attention[Pos(batch, b, s)] != 0 && batch.attention[Pos(batch, b, s + 1)] != 0
  }

  /** A token whose prediction counts is attended, and so is the one before it. */
  ghost predicate MaskedAreAttended(batch: Batch)
    requires batch.Valid()
  {
    forall b: nat, s: nat :: b < batch.rows && s + 1 < batch.seqlen && Counts(batch, b, s) ==> BothAttended(batch, b, s)
  }

  lemma TimesZero(x: real)
    ensures x * 0.0 == 0.0
  {
  }

  /** The two paths give the same masked loss everywhere, if every token that counts is attended
      and so is the one before it. */
  lemma PathsAgree<L>(batch: Batch, logit: seq<L>, ce: (L, int) -> real, b: nat, s: nat)
    requires batch.Valid() && |logit| == |batch.ids| && b < batch.rows && s + 1 < batch.seqlen
    requires MaskedAreAttended(batch)
    ensures PaddedLoss(batch, logit, ce, b, s) == DirectLoss(batch, logit, ce, b, s)
  {
    hide FullLoss;
    var p := Pos(batch, b, s);
    FullLossAt(batch.attention, batch.ids, logit, ce, p);
    assert Pos(batch, b, s + 1) == p + 1;
    if Counts(batch, b, s) {
      assert BothAttended(batch, b, s);
    } else {
      TimesZero(FullLoss(batch.attention, batch.ids, logit, ce)[p]);
      TimesZero(ce(logit[p], batch.ids[p + 1]));
    }
  }

  ghost predicate Agree(batch: Batch, ids: seq<int>, logit: seq<real>, ce: (real, int) -> real, b: nat, s: nat)
    requires batch.Valid() && |ids| == |logit| == |batch.ids| && b < batch.rows && s + 1 < batch.seqlen
  {
    PaddedLoss(batch.(ids := ids), logit, ce, b, s) == DirectLoss(batch.(ids := ids), logit, ce, b, s)
  }

  /** The two paths give the same losses whatever the tokens, logits and cross entropy. */
  ghost predicate AlwaysAgree(batch: Batch)
    requires batch.Valid()
  {
    forall ids: seq<int>, logit: seq<real>, ce: (real, int) -> real, b: nat, s: nat ::
      |ids| == |logit| == |batch.ids| && b < batch.rows && s + 1 < batch.seqlen ==> Agree(batch, ids, logit, ce, b, s)
  }

  /** The condition cannot be weakened: it holds exactly of the batches on which the two paths
      always agree. */
  lemma AgreeIff(batch: Batch)
    requires batch.Valid()
    ensures AlwaysAgree(batch) <==> MaskedAreAttended(batch)
  {
    hide PaddedLoss, DirectLoss, Pos;
    if MaskedAreAttended(batch) {
      forall ids: seq<int>, logit: seq<real>, ce: (real, int) -> real, b: nat, s: nat
        | |ids| == |logit| == |batch.ids| && b < batch.rows && s + 1 < batch.seqlen
        ensures Agree(batch, ids, logit, ce, b, s)
      {
        ConditionIgnoresTokens(batch, ids);
        PathsAgree(batch.(ids := ids), logit, ce, b, s);
      }
    } else {
      var b: nat, s: nat :| b < batch.rows && s + 1 < batch.seqlen && Counts(batch, b, s) && !BothAttended(batch, b, s);
      PathsDiffer(batch, b, s);
    }
  }

  lemma ConditionIgnoresTokens(batch: Batch, ids: seq<int>)
    requires batch.Valid() && |ids| == |batch.ids| && MaskedAreAttended(batch)
    ensures batch.(ids := ids).Valid() && MaskedAreAttended(batch.(ids := ids))
  {
    var other := batch.(ids := ids);
    forall b: nat, s: nat | b < batch.rows && s + 1 < batch.seqlen && Counts(other, b, s) ensures BothAttended(other, b, s) {
      assert Counts(batch, b, s);
    }
  }

  /** A token 1 at position s + 1 and 0 elsewhere, and the token itself for a loss: the padded path
      does not see the token. */
  lemma PathsDiffer(batch: Batch, b: nat, s: nat)
    requires batch.Valid() && b < batch.rows && s + 1 < batch.seqlen && Counts(batch, b, s) && !BothAttended(batch, b, s)
    ensures !AlwaysAgree(batch)
  {
    hide FullLoss, Pos;
    var p, q := Pos(batch, b, s), Pos(batch, b, s + 1);
    var ids: seq<int> := Marked(|batch.ids|, q);
    var logit: seq<real> := seq(|batch.ids|, _ => 0.0);
    var ce := (l: real, t: int) => t as real;
    var other := batch.(ids := ids);
    assert Pos(other, b, s) == p && Pos(other, b, s + 1) == q by {
      SamePos(batch, other, b, s);
      SamePos(batch, other, b, s + 1);
    }
    FullLossZero(batch.attention, ids, logit, ce, p, q);
    assert DirectLoss(other, logit, ce, b, s) == batch.lossMask[q];
    TimesZero(batch.lossMask[q]);
    assert PaddedLoss(other, logit, ce, b, s) == 0.0;
    assert !Agree(batch, ids, logit, ce, b, s);
  }

  lemma SamePos(batch: Batch, other: Batch, b: nat, s: nat)
    requires b < batch.rows == other.rows && s < batch.seqlen == other.seqlen
    ensures Pos(batch, b, s) == Pos(other, b, s)
  {
  }

  function Marked(n: nat, q: nat): (r: seq<int>)
    ensures |r| == n
    ensures forall i :: 0 <= i < n ==> r[i] == if i == q then 1 else 0
  {
    seq(n, i => if i == q then 1 else 0)
  }

  lemma FullLossZero(m: seq<nat>, ids: seq<int>, logit: seq<real>, ce: (real, int) -> real, p: nat, q: nat)
    requires |m| == |ids| == |logit| && p < |m| && q < |m| && (m[p] == 0 || m[q] == 0)
    requires ids == Marked(|m|, q) && ce(logit[p], 0) == 0.0
    ensures FullLoss(m, ids, logit, ce)[p] == 0.0
  {
    hide Nonzero, FullLoss;
    NonzeroIs(m);
    if m[p] == 0 {
      FullLossElsewhere(m, ids, logit, ce, p);
    } else {
      var k :| 0 <= k < |Nonzero(m)| && Nonzero(m)[k] == p;
      FullLossOfToken(m, ids, logit, ce, k);
      assert After(m, k) != q && ids[After(m, k)] == 0;
    }
  }
}
