/** `torch.chunk` along the first axis. */
module Torch {
  import opened Arith
  import opened Basics

  lemma RowsTail<T>(t: seq<T>, w: nat, groups: nat)
    requires |t| == w * groups && groups > 0
    ensures |t| >= w && |t[w..]| == w * (groups - 1)
  {
    MulStep(w, groups);
    MulLe(0, w, groups - 1);
  }

  /** Pieces of c rows, the last with what is left. */
  function Pieces<T>(xs: seq<T>, c: nat): (r: seq<seq<T>>)
    requires c > 0
    ensures r != [] && |r[0]| == (if |xs| < c then |xs| else c)
    decreases |xs|
  {
    if |xs| <= c then [xs] else [xs[..c]] + Pieces(xs[c..], c)
  }

  /** `xs.chunk(n)`: pieces of ceil(|xs| / n) rows, possibly fewer than n of them. */
  function Chunk<T>(xs: seq<T>, n: nat): seq<seq<T>>
    requires n > 0
  {
    if xs == [] then Repeat([], n) else Pieces(xs, (|xs| + n - 1) / n)
  }

  lemma {:induction false} PiecesExact<T>(xs: seq<T>, c: nat, n: nat)
    requires c > 0 && n > 0 && |xs| == c * n
    ensures |Pieces(xs, c)| == n && Flatten(Pieces(xs, c)) == xs
    ensures forall i :: 0 <= i < n ==> |Pieces(xs, c)[i]| == c
  {
    RowsTail(xs, c, n);
    if n == 1 {
      assert c * 1 == c;
      assert Flatten([xs]) == xs + Flatten([]);
    } else {
      MulStrict(0, n - 1, c);
      assert c * (n - 1) == (n - 1) * c;
      PiecesExact(xs[c..], c, n - 1);
      assert Pieces(xs, c)[1..] == Pieces(xs[c..], c);
    }
  }

  lemma CeilOfExact(c: nat, n: nat)
    requires n > 0
    ensures (c * n + n - 1) / n == c
  {
    Quotient(c * n + n - 1, n, c, n - 1);
  }

  lemma ChunkExact<T>(xs: seq<T>, c: nat, n: nat)
    requires n > 0 && |xs| == c * n
    ensures |Chunk(xs, n)| == n && Flatten(Chunk(xs, n)) == xs
    ensures forall i :: 0 <= i < n ==> |Chunk(xs, n)[i]| == c
  {
    if c == 0 {
      assert |xs| == 0;
      FlattenEmpties<T>(n);
    } else {
      MulStep(c, n);
      CeilOfExact(c, n);
      PiecesExact(xs, c, n);
    }
  }

  lemma {:induction false} FlattenEmpties<T>(n: nat)
    ensures Flatten(Repeat<seq<T>>([], n)) == []
  {
    if n > 0 {
      assert Repeat<seq<T>>([], n)[1..] == Repeat([], n - 1);
      FlattenEmpties<T>(n - 1);
    }
  }

  lemma {:induction false} FlattenEqual<T>(parts: seq<seq<T>>, w: nat)
    requires forall i :: 0 <= i < |parts| ==> |parts[i]| == w
    ensures |Flatten(parts)| == w * |parts|
  {
    if parts != [] {
      FlattenEqual(parts[1..], w);
      MulStep(w, |parts|);
    } else {
      assert w * 0 == 0;
    }
  }

  lemma {:induction false} FlattenPieces<T>(xs: seq<T>, c: nat)
    requires c > 0
    ensures Flatten(Pieces(xs, c)) == xs
    decreases |xs|
  {
    if |xs| <= c {
      assert Flatten([xs]) == xs + Flatten([]);
    } else {
      FlattenPieces(xs[c..], c);
    }
  }

  lemma FlattenChunk<T>(xs: seq<T>, n: nat)
    requires n > 0
    ensures Flatten(Chunk(xs, n)) == xs
  {
    if xs == [] {
      FlattenEmpties<T>(n);
    } else {
      DivMod(|xs| + n - 1, n);
      QuotientAtMost(1, (|xs| + n - 1) / n, n, |xs| - 1, (|xs| + n - 1) % n);
      FlattenPieces(xs, (|xs| + n - 1) / n);
    }
  }

  lemma FirstChunkTooLong<T>(t: seq<T>, n: nat, w: nat)
    requires n > 0 && |t| > w * n
    ensures |Chunk(t, n)| > 0 && |Chunk(t, n)[0]| > w
  {
    var c := (|t| + n - 1) / n;
    DivMod(|t| + n - 1, n);
    MulCancel(w, c, n);
    MulLe(1, n, w);
    assert n * w == w * n;
  }
}
