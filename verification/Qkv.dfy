/** Grouped query, key and value matrices: the converter interleaves them group by group, the
    mergers take them apart again, whole or from tensor-parallel shards. A matrix is the sequence
    of its rows; a bias is the sequence of its elements. */
module Qkv {
  import opened Arith
  import opened Basics
  import opened Torch

  datatype Split<T> = Split(q: seq<T>, k: seq<T>, v: seq<T>)

  /** Q, K and V in `groups` groups of a, b and b rows. */
  ghost predicate Grouped<T>(s: Split<T>, a: nat, b: nat, groups: nat) {
    |s.q| == a * groups && |s.k| == b * groups && |s.v| == b * groups
  }

  /** The matrices without their first group. */
  function Tail<T>(s: Split<T>, a: nat, b: nat): Split<T>
    requires |s.q| >= a && |s.k| >= b && |s.v| >= b
  {
    Split(s.q[a..], s.k[b..], s.v[b..])
  }

  lemma GroupedTail<T>(s: Split<T>, a: nat, b: nat, groups: nat)
    requires Grouped(s, a, b, groups) && groups > 0
    ensures |s.q| >= a && |s.k| >= b && |s.v| >= b && Grouped(Tail(s, a, b), a, b, groups - 1)
  {
    RowsTail(s.q, a, groups);
    RowsTail(s.k, b, groups);
    RowsTail(s.v, b, groups);
  }

  /** `torch.cat([q, k, v], dim=1)` of the grouped views, with the groups laid end to end. */
  function Interleave<T>(s: Split<T>, a: nat, b: nat, groups: nat): seq<T>
    requires Grouped(s, a, b, groups)
    decreases groups
  {
    if groups == 0 then []
    else
      GroupedTail(s, a, b, groups);
      s.q[..a] + s.k[..b] + s.v[..b] + Interleave(Tail(s, a, b), a, b, groups - 1)
  }

  /** What taking the groups apart gives. */
  function TakeApart<T>(t: seq<T>, a: nat, b: nat, groups: nat): Split<T>
    requires |t| == (a + 2 * b) * groups
  {
    if groups == 0 then Split([], [], [])
    else
      RowsTail(t, a + 2 * b, groups);
      var rest := TakeApart(t[a + 2 * b..], a, b, groups - 1);
      Split(t[..a] + rest.q, t[a..a + b] + rest.k, t[a + b..a + 2 * b] + rest.v)
  }

  lemma {:induction false} InterleaveLength<T>(s: Split<T>, a: nat, b: nat, groups: nat)
    requires Grouped(s, a, b, groups)
    ensures |Interleave(s, a, b, groups)| == (a + 2 * b) * groups
    decreases groups
  {
    if groups == 0 {
      assert (a + 2 * b) * 0 == 0;
    } else {
      hide Grouped;
      GroupedTail(s, a, b, groups);
      MulStep(a + 2 * b, groups);
      InterleaveLength(Tail(s, a, b), a, b, groups - 1);
    }
  }

  lemma InterleaveStep<T>(s: Split<T>, a: nat, b: nat, groups: nat)
    requires Grouped(s, a, b, groups) && groups > 0
    ensures |s.q| >= a && |s.k| >= b && |s.v| >= b && Grouped(Tail(s, a, b), a, b, groups - 1)
    ensures Interleave(s, a, b, groups) == s.q[..a] + s.k[..b] + s.v[..b] + Interleave(Tail(s, a, b), a, b, groups - 1)
  {
    hide Grouped;
    GroupedTail(s, a, b, groups);
  }

  lemma NoGroups<T>(s: Split<T>, a: nat, b: nat)
    requires Grouped(s, a, b, 0)
    ensures s == Split([], [], []) && Interleave(s, a, b, 0) == [] && (a + 2 * b) * 0 == 0
    ensures TakeApart<T>([], a, b, 0) == Split([], [], [])
  {
  }

  /** Taking apart what was interleaved gives the three matrices back. */
  lemma {:induction false} TakeApartInterleaved<T>(s: Split<T>, a: nat, b: nat, groups: nat)
    requires Grouped(s, a, b, groups)
    ensures |Interleave(s, a, b, groups)| == (a + 2 * b) * groups
    ensures TakeApart(Interleave(s, a, b, groups), a, b, groups) == s
    decreases groups
  {
    hide Grouped, TakeApart, Interleave;
    if groups == 0 {
      NoGroups(s, a, b);
    } else {
      InterleaveStep(s, a, b, groups);
      var rest := Tail(s, a, b);
      TakeApartInterleaved(rest, a, b, groups - 1);
      TakeApartStep(s.q[..a], s.k[..b], s.v[..b], Interleave(rest, a, b, groups - 1), a, b, groups);
      assert s.q[..a] + s.q[a..] == s.q && s.k[..b] + s.k[b..] == s.k && s.v[..b] + s.v[b..] == s.v;
    }
  }

  lemma TakeApartStep<T>(x: seq<T>, y: seq<T>, z: seq<T>, rest: seq<T>, a: nat, b: nat, groups: nat)
    requires groups > 0 && |x| == a && |y| == |z| == b && |rest| == (a + 2 * b) * (groups - 1)
    ensures var t := x + y + z + rest;
            && |t| == (a + 2 * b) * groups
            && var r := TakeApart(rest, a, b, groups - 1);
            TakeApart(t, a, b, groups) == Split(x + r.q, y + r.k, z + r.v)
  {
    MulStep(a + 2 * b, groups);
    Slices(x, y, z, rest);
  }

  lemma Slices<T>(x: seq<T>, y: seq<T>, z: seq<T>, rest: seq<T>)
    ensures var t, a, b, c := x + y + z + rest, |x|, |x| + |y|, |x| + |y| + |z|;
            t[..a] == x && t[a..b] == y && t[b..c] == z && t[c..] == rest
  {
  }

  lemma GroupedCons<T>(s: Split<T>, a: nat, b: nat, groups: nat)
    requires |s.q| >= a && |s.k| >= b && |s.v| >= b && groups > 0 && Grouped(Tail(s, a, b), a, b, groups - 1)
    ensures Grouped(s, a, b, groups)
  {
    MulStep(a, groups);
    MulStep(b, groups);
  }

  /** And interleaving what was taken apart gives the matrix back. */
  lemma {:induction false} InterleaveTakenApart<T>(t: seq<T>, a: nat, b: nat, groups: nat)
    requires |t| == (a + 2 * b) * groups
    ensures Grouped(TakeApart(t, a, b, groups), a, b, groups)
    ensures Interleave(TakeApart(t, a, b, groups), a, b, groups) == t
  {
    if groups == 0 {
      assert (a + 2 * b) * 0 == 0 && a * 0 == 0 && b * 0 == 0;
    } else {
      hide Grouped;
      RowsTail(t, a + 2 * b, groups);
      var rest := t[a + 2 * b..];
      InterleaveTakenApart(rest, a, b, groups - 1);
      var s, r := TakeApart(t, a, b, groups), TakeApart(rest, a, b, groups - 1);
      assert Tail(s, a, b) == r;
      GroupedCons(s, a, b, groups);
      assert s.q[..a] == t[..a] && s.k[..b] == t[a..a + b] && s.v[..b] == t[a + b..a + 2 * b];
      assert t == t[..a] + t[a..a + b] + t[a + b..a + 2 * b] + rest;
    }
  }

  function Join<T>(s: Split<T>, r: Split<T>): Split<T> {
    Split(s.q + r.q, s.k + r.k, s.v + r.v)
  }

  /** Splitting a matrix between two groups splits each of the three. */
  /** The parts of one group of rows. */
  function OneGroupOf<T>(t: seq<T>, a: nat, b: nat): Split<T>
    requires |t| >= a + 2 * b
  {
    Split(t[..a], t[a..a + b], t[a + b..a + 2 * b])
  }

  lemma TakeApartUnfold<T>(t: seq<T>, a: nat, b: nat, groups: nat)
    requires |t| == (a + 2 * b) * groups && groups > 0
    ensures |t| >= a + 2 * b && |t[a + 2 * b..]| == (a + 2 * b) * (groups - 1)
    ensures TakeApart(t, a, b, groups) == Join(OneGroupOf(t, a, b), TakeApart(t[a + 2 * b..], a, b, groups - 1))
  {
    RowsTail(t, a + 2 * b, groups);
  }

  lemma JoinNothing<T>(u: seq<T>, s: Split<T>)
    ensures [] + u == u && Join(Split([], [], []), s) == s
  {
  }

  lemma FirstGroupStays<T>(t: seq<T>, u: seq<T>, a: nat, b: nat)
    requires |t| >= a + 2 * b
    ensures OneGroupOf(t + u, a, b) == OneGroupOf(t, a, b) && (t + u)[a + 2 * b..] == t[a + 2 * b..] + u
  {
    assert (t + u)[..a] == t[..a] && (t + u)[a..a + b] == t[a..a + b];
    assert (t + u)[a + b..a + 2 * b] == t[a + b..a + 2 * b];
  }

  lemma JoinAssociates<T>(x: Split<T>, y: Split<T>, z: Split<T>)
    ensures Join(Join(x, y), z) == Join(x, Join(y, z))
  {
    assert (x.q + y.q) + z.q == x.q + (y.q + z.q);
    assert (x.k + y.k) + z.k == x.k + (y.k + z.k);
    assert (x.v + y.v) + z.v == x.v + (y.v + z.v);
  }

  lemma {:induction false} TakeApartAppend<T>(t: seq<T>, u: seq<T>, a: nat, b: nat, m: nat, n: nat)
    requires |t| == (a + 2 * b) * m && |u| == (a + 2 * b) * n
    ensures |t + u| == (a + 2 * b) * (m + n)
    ensures TakeApart(t + u, a, b, m + n) == Join(TakeApart(t, a, b, m), TakeApart(u, a, b, n))
    decreases m
  {
    MulPlus(a + 2 * b, m, n);
    if m == 0 {
      assert t == [] && TakeApart(t, a, b, m) == Split([], [], []);
      JoinNothing(u, TakeApart(u, a, b, n));
    } else {
      var w := a + 2 * b;
      TakeApartUnfold(t, a, b, m);
      TakeApartUnfold(t + u, a, b, m + n);
      hide TakeApart, Join, OneGroupOf;
      FirstGroupStays(t, u, a, b);
      TakeApartAppend(t[w..], u, a, b, m - 1, n);
      JoinAssociates(OneGroupOf(t, a, b), TakeApart(t[w..], a, b, m - 1), TakeApart(u, a, b, n));
    }
  }

  /** `split` of a chunk fails unless the sizes add up to its rows. */
  ghost predicate ChunksFit<T>(t: seq<T>, n: nat, w: nat)
    requires n > 0
  {
    forall i :: 0 <= i < |Chunk(t, n)| ==> |Chunk(t, n)[i]| == w
  }

  /** Key rows of a matrix that holds `perKv` query rows for each key row. */
  function KvSize(rows: nat, perKv: nat): nat {
    rows / (perKv + 2)
  }

  /** Query rows the merger cuts from each of n chunks. */
  function CutQ(kvSize: nat, perKv: nat, n: nat): nat
    requires n > 0
  {
    kvSize * perKv / n
  }

  /** Key rows, and value rows, it cuts from each. */
  function CutK(kvSize: nat, n: nat): nat
    requires n > 0
  {
    kvSize / n
  }

  lemma EvenSizes(perKv: nat, b: nat, n: nat)
    requires n > 0
    ensures 0 <= b * n && 0 <= perKv * b
    ensures CutK(b * n, n) == b && CutQ(b * n, perKv, n) == perKv * b
    ensures (perKv + 2) * (b * n) == (perKv * b + 2 * b) * n
  {
    assert b * n * perKv == perKv * b * n;
    Quotient(b * n * perKv, n, perKv * b, 0);
    Quotient(b * n, n, b, 0);
    assert (perKv * b + 2 * b) * n == perKv * b * n + 2 * (b * n);
  }

  lemma UnevenSizes(perKv: nat, kvSize: nat, n: nat)
    requires n > 0 && kvSize % n != 0
    ensures (perKv + 2) * kvSize > (CutQ(kvSize, perKv, n) + 2 * CutK(kvSize, n)) * n
  {
    var x := kvSize * perKv;
    DivMod(x, n);
    DivMod(kvSize, n);
    assert (perKv + 2) * kvSize == x + 2 * kvSize;
    var a, b := x / n, kvSize / n;
    assert (a + 2 * b) * n == a * n + 2 * (b * n);
  }

  /** The chunks are cut without error exactly when the key rows fall evenly into them. */
  lemma FitsIff<T>(t: seq<T>, perKv: nat, kvSize: nat, n: nat)
    requires n > 0 && |t| == (perKv + 2) * kvSize
    ensures ChunksFit(t, n, CutQ(kvSize, perKv, n) + 2 * CutK(kvSize, n)) <==> kvSize % n == 0
    ensures kvSize % n == 0 ==>
              |Chunk(t, n)| == n && |t| == (CutQ(kvSize, perKv, n) + 2 * CutK(kvSize, n)) * n
  {
    hide Chunk, CutQ, CutK;
    if kvSize % n == 0 {
      DivMod(kvSize, n);
      EvenSizes(perKv, kvSize / n, n);
      ChunkExact(t, CutQ(kvSize, perKv, n) + 2 * CutK(kvSize, n), n);
    } else {
      UnevenSizes(perKv, kvSize, n);
      FirstChunkTooLong(t, n, CutQ(kvSize, perKv, n) + 2 * CutK(kvSize, n));
    }
  }

  // ---- the mergers' loops ----

  /** The chunks of one matrix, cut into query, key and value rows and appended to the lists. */
  method CutChunks<T>(t: seq<T>, n: nat, a: nat, b: nat, lists: Split<seq<T>>) returns (r: Option<Split<seq<T>>>)
    requires n > 0
    ensures r.Some? <==> ChunksFit(t, n, a + 2 * b)
    ensures r.Some? ==>
              && |t| == (a + 2 * b) * |Chunk(t, n)|
              && Cat(r.value) == Join(Cat(lists), TakeApart(t, a, b, |Chunk(t, n)|))
  {
    hide Chunk, TakeApart, Cat, Flatten;
    var chunks := Chunk(t, n);
    FlattenChunk(t, n);
    var s := lists;
    NothingCut(Cat(lists), chunks, a, b);
    for i := 0 to |chunks|
      invariant forall j :: 0 <= j < i ==> |chunks[j]| == a + 2 * b
      invariant |Flatten(chunks[..i])| == (a + 2 * b) * i
      invariant Cat(s) == Join(Cat(lists), TakeApart(Flatten(chunks[..i]), a, b, i))
    {
      var chunk := chunks[i];
      if a + b + b != |chunk| {
        return None;
      }
      CutOne(Cat(lists), chunks, a, b, i);
      CatSnoc(s, chunk[..a], chunk[a..a + b], chunk[a + b..]);
      s := Split(s.q + [chunk[..a]], s.k + [chunk[a..a + b]], s.v + [chunk[a + b..]]);
    }
    assert chunks[..|chunks|] == chunks;
    r := Some(s);
  }

  /** `torch.cat` of the three lists. */
  function Cat<T>(lists: Split<seq<T>>): Split<T> {
    Split(Flatten(lists.q), Flatten(lists.k), Flatten(lists.v))
  }

  lemma CatSnoc<T>(s: Split<seq<T>>, x: seq<T>, y: seq<T>, z: seq<T>)
    ensures Cat(Split(s.q + [x], s.k + [y], s.v + [z])) == Join(Cat(s), Split(x, y, z))
  {
    FlattenSnoc(s.q, x);
    FlattenSnoc(s.k, y);
    FlattenSnoc(s.v, z);
  }

  lemma JoinAssociative<T>(x: Split<T>, y: Split<T>, z: Split<T>)
    ensures Join(Join(x, y), z) == Join(x, Join(y, z))
  {
    assert x.q + y.q + z.q == x.q + (y.q + z.q) && x.k + y.k + z.k == x.k + (y.k + z.k)
           && x.v + y.v + z.v == x.v + (y.v + z.v);
  }

  lemma NothingCut<T>(before: Split<T>, chunks: seq<seq<T>>, a: nat, b: nat)
    ensures |Flatten(chunks[..0])| == (a + 2 * b) * 0
    ensures Join(before, TakeApart(Flatten(chunks[..0]), a, b, 0)) == before
  {
  }

  lemma CutOne<T>(before: Split<T>, chunks: seq<seq<T>>, a: nat, b: nat, i: nat)
    requires i < |chunks| && |chunks[i]| == a + 2 * b && |Flatten(chunks[..i])| == (a + 2 * b) * i
    ensures |Flatten(chunks[..i + 1])| == (a + 2 * b) * (i + 1)
    ensures Join(before, TakeApart(Flatten(chunks[..i + 1]), a, b, i + 1))
            == Join(Join(before, TakeApart(Flatten(chunks[..i]), a, b, i)),
                    Split(chunks[i][..a], chunks[i][a..a + b], chunks[i][a + b..]))
  {
    var chunk := chunks[i];
    assert chunks[..i + 1] == chunks[..i] + [chunk];
    FlattenSnoc(chunks[..i], chunk);
    assert (a + 2 * b) * 1 == a + 2 * b;
    TakeApartAppend(Flatten(chunks[..i]), chunk, a, b, i, 1);
    OneGroup(chunk, a, b);
    JoinAssociative(before, TakeApart(Flatten(chunks[..i]), a, b, i), TakeApart(chunk, a, b, 1));
  }

  lemma OneGroup<T>(chunk: seq<T>, a: nat, b: nat)
    requires |chunk| == a + 2 * b
    ensures TakeApart(chunk, a, b, 1) == Split(chunk[..a], chunk[a..a + b], chunk[a + b..])
  {
    assert chunk[a + b..a + 2 * b] == chunk[a + b..];
    assert TakeApart(chunk[a + 2 * b..], a, b, 0) == Split([], [], []);
    assert chunk[..a] + [] == chunk[..a] && chunk[a..a + b] + [] == chunk[a..a + b] && chunk[a + b..] + [] == chunk[a + b..];
  }

  /** The sizes of one group of a whole fused matrix. */
  function GroupQ(rows: nat, heads: nat, groups: nat): nat
    requires groups > 0
  {
    CutQ(KvSize(rows, heads / groups), heads / groups, groups)
  }

  function GroupK(rows: nat, heads: nat, groups: nat): nat
    requires groups > 0
  {
    CutK(KvSize(rows, heads / groups), groups)
  }

  /** A fused matrix that falls into `groups` equal groups. */
  ghost predicate Splittable(rows: nat, heads: nat, groups: nat)
    requires groups > 0
  {
    && heads % groups == 0
    && rows % (heads / groups + 2) == 0
    && KvSize(rows, heads / groups) % groups == 0
  }

  lemma SplittableRows(rows: nat, heads: nat, groups: nat)
    requires groups > 0 && Splittable(rows, heads, groups)
    ensures rows == (GroupQ(rows, heads, groups) + 2 * GroupK(rows, heads, groups)) * groups
  {
    var perKv := heads / groups;
    DivMod(rows, perKv + 2);
    DivMod(KvSize(rows, perKv), groups);
    EvenSizes(perKv, GroupK(rows, heads, groups), groups);
  }

  /** The query, key and value matrices of a fused matrix. */
  function SplitResult<T>(t: seq<T>, heads: nat, groups: nat): Split<T>
    requires groups > 0 && Splittable(|t|, heads, groups)
  {
    SplittableRows(|t|, heads, groups);
    TakeApart(t, GroupQ(|t|, heads, groups), GroupK(|t|, heads, groups), groups)
  }

  /** The chunk loop and the concatenations at its end. */
  method CutAll<T>(tensor: seq<T>, perKv: nat, kvSize: nat, groups: nat) returns (r: Option<Split<T>>)
    requires groups > 0 && |tensor| == (perKv + 2) * kvSize
    ensures r.Some? <==> kvSize % groups == 0
    ensures r.Some? ==>
              var a, b := CutQ(kvSize, perKv, groups), CutK(kvSize, groups);
              |tensor| == (a + 2 * b) * groups && r.value == TakeApart(tensor, a, b, groups)
  {
    hide Chunk, ChunksFit, TakeApart, Interleave, Grouped, Cat, CutQ, CutK;
    FitsIff(tensor, perKv, kvSize, groups);
    var none: Split<seq<T>> := Split([], [], []);
    var a, b := CutQ(kvSize, perKv, groups), CutK(kvSize, groups);
    var lists := CutChunks(tensor, groups, a, b, none);
    if lists.None? {
      return None;
    }
    JoinNone(none, TakeApart(tensor, a, b, groups));
    r := Some(Cat(lists.value));
  }

  /** `_split_tensors` on a fused matrix: two assertions, then every chunk is cut. It succeeds
      exactly when the rows fall into `groups` equal groups. */
  method SplitTensors<T>(tensor: seq<T>, heads: nat, groups: nat) returns (r: Option<Split<T>>)
    requires groups > 0
    ensures r.Some? <==> Splittable(|tensor|, heads, groups)
    ensures r.Some? ==> r.value == SplitResult(tensor, heads, groups)
  {
    hide TakeApart, CutQ, CutK;
    if heads % groups != 0 {
      return None;
    }
    var perKv := heads / groups;
    if |tensor| % (perKv + 2) != 0 {
      return None;
    }
    var kvSize := KvSize(|tensor|, perKv);
    DivMod(|tensor|, perKv + 2);
    r := CutAll(tensor, perKv, kvSize, groups);
  }

  /** The three results are the only ones whose interleaving is the fused matrix. */
  lemma SplitIsInverse<T>(t: seq<T>, heads: nat, groups: nat, s: Split<T>)
    requires groups > 0 && Splittable(|t|, heads, groups)
    ensures var a, b := GroupQ(|t|, heads, groups), GroupK(|t|, heads, groups);
            s == SplitResult(t, heads, groups) <==> Grouped(s, a, b, groups) && Interleave(s, a, b, groups) == t
  {
    hide TakeApart, Interleave, Grouped, GroupQ, GroupK;
    var a, b := GroupQ(|t|, heads, groups), GroupK(|t|, heads, groups);
    SplittableRows(|t|, heads, groups);
    InterleaveTakenApart(t, a, b, groups);
    if Grouped(s, a, b, groups) {
      TakeApartInterleaved(s, a, b, groups);
    }
  }

  lemma JoinNone<T>(none: Split<seq<T>>, s: Split<T>)
    requires none == Split([], [], [])
    ensures Join(Cat(none), s) == s
  {
  }

  /** The converter's fused matrix. `view` and `cat` only fit together when the query rows fall
      evenly into the groups. */
  function Fuse<T>(s: Split<T>, heads: nat, groups: nat, headDim: nat): Option<seq<T>>
    requires groups > 0
    requires |s.q| == heads * headDim && |s.k| == groups * headDim && |s.v| == groups * headDim
  {
    if headDim * heads % groups != 0 then None
    else
      DivMod(headDim * heads, groups);
      GroupedWhen(s, headDim * heads / groups, headDim, groups);
      Some(Interleave(s, headDim * heads / groups, headDim, groups))
  }

  lemma GroupedWhen<T>(s: Split<T>, a: nat, b: nat, groups: nat)
    requires |s.q| == a * groups && |s.k| == groups * b && |s.v| == groups * b
    ensures Grouped(s, a, b, groups)
  {
  }

  /** Splitting the converter's matrix returns the three matrices, for all head counts, group
      counts and head sizes the merger accepts; the converter accepts them all. */
  lemma RoundTrip<T>(s: Split<T>, heads: nat, groups: nat, headDim: nat)
    requires groups > 0 && heads % groups == 0
    requires |s.q| == heads * headDim && |s.k| == groups * headDim && |s.v| == groups * headDim
    ensures Fuse(s, heads, groups, headDim).Some?
    ensures Splittable(|Fuse(s, heads, groups, headDim).value|, heads, groups)
    ensures SplitResult(Fuse(s, heads, groups, headDim).value, heads, groups) == s
  {
    hide Interleave, TakeApart, Grouped, GroupQ, GroupK, Splittable;
    var a := heads / groups * headDim;
    FuseSizes(heads, groups, headDim);
    GroupedWhen(s, a, headDim, groups);
    TakeApartInterleaved(s, a, headDim, groups);
  }

  lemma FuseSizes(heads: nat, groups: nat, headDim: nat)
    requires groups > 0 && heads % groups == 0
    ensures headDim * heads % groups == 0
    ensures headDim * heads / groups == heads / groups * headDim
    ensures heads * headDim == heads / groups * headDim * groups
    ensures var rows := (heads / groups * headDim + 2 * headDim) * groups;
            rows >= 0 && Splittable(rows, heads, groups)
            && GroupQ(rows, heads, groups) == heads / groups * headDim && GroupK(rows, heads, groups) == headDim
  {
    var n := heads / groups;
    DivMod(heads, groups);
    assert headDim * heads == n * headDim * groups;
    Quotient(headDim * heads, groups, n * headDim, 0);
    var rows := (n * headDim + 2 * headDim) * groups;
    EvenSizes(n, headDim, groups);
    Quotient(rows, n + 2, headDim * groups, 0);
    Quotient(headDim * groups, groups, headDim, 0);
  }

  // ---- tensor-parallel shards ----

  ghost predicate AllFit<T>(shards: seq<seq<T>>, n: nat, w: nat)
    requires n > 0
  {
    forall i :: 0 <= i < |shards| ==> ChunksFit(shards[i], n, w)
  }

  /** A shard of a matrix is taken apart on its own, and the results are put end to end. */
  ghost function Merged<T>(shards: seq<seq<T>>, n: nat, a: nat, b: nat): Split<T>
    requires n > 0 && AllFit(shards, n, a + 2 * b)
  {
    if shards == [] then Split([], [], [])
    else
      var last := shards[|shards| - 1];
      FittingRows(last, n, a + 2 * b);
      Join(Merged(shards[..|shards| - 1], n, a, b), TakeApart(last, a, b, |Chunk(last, n)|))
  }

  lemma FittingRows<T>(t: seq<T>, n: nat, w: nat)
    requires n > 0 && ChunksFit(t, n, w)
    ensures |t| == w * |Chunk(t, n)|
  {
    FlattenChunk(t, n);
    FlattenEqual(Chunk(t, n), w);
  }

  /** Groups in one shard. */
  function PerShard(groups: nat, tp: nat): nat
    requires tp > 0
  {
    groups / tp
  }

  /** The sizes come from the first shard. */
  function ShardQ(rows: nat, perKv: nat, n: nat): nat
    requires n > 0
  {
    CutQ(KvSize(rows, perKv), perKv, n)
  }

  function ShardK(rows: nat, perKv: nat, n: nat): nat
    requires n > 0
  {
    CutK(KvSize(rows, perKv), n)
  }

  ghost predicate Mergeable<T>(shards: seq<seq<T>>, heads: nat, groups: nat)
    requires groups > 0 && shards != []
  {
    var perKv, n, rows := heads / groups, PerShard(groups, |shards|), |shards[0]|;
    && heads % groups == 0
    && rows % (perKv + 2) == 0
    && n > 0
    && AllFit(shards, n, ShardQ(rows, perKv, n) + 2 * ShardK(rows, perKv, n))
  }

  ghost function MergeResult<T>(shards: seq<seq<T>>, heads: nat, groups: nat): Split<T>
    requires groups > 0 && shards != [] && Mergeable(shards, heads, groups)
  {
    var perKv, n, rows := heads / groups, PerShard(groups, |shards|), |shards[0]|;
    Merged(shards, n, ShardQ(rows, perKv, n), ShardK(rows, perKv, n))
  }

  /** `_merge_across_tp` on the shards of a fused matrix. */
  method MergeAcrossTp<T>(shards: seq<seq<T>>, heads: nat, groups: nat) returns (r: Option<Split<T>>)
    requires groups > 0 && shards != []
    ensures r.Some? <==> Mergeable(shards, heads, groups)
    ensures r.Some? ==> r.value == MergeResult(shards, heads, groups)
  {
    hide Merged, AllFit, CutQ, CutK, KvSize;
    if heads % groups != 0 {
      return None;
    }
    var perKv := heads / groups;
    if |shards[0]| % (perKv + 2) != 0 {
      return None;
    }
    var kvSize := KvSize(|shards[0]|, perKv);
    var n := PerShard(groups, |shards|);
    if n == 0 {
      return None;
    }
    r := MergeSized(shards, n, CutQ(kvSize, perKv, n), CutK(kvSize, n));
  }

  method MergeSized<T>(shards: seq<seq<T>>, n: nat, a: nat, b: nat) returns (r: Option<Split<T>>)
    requires n > 0
    ensures r.Some? <==> AllFit(shards, n, a + 2 * b)
    ensures r.Some? ==> r.value == Merged(shards, n, a, b)
  {
    hide ChunksFit, Chunk, TakeApart, Flatten, Cat;
    var lists: Split<seq<T>> := Split([], [], []);
    CatNone(lists);
    for i := 0 to |shards|
      invariant AllFit(shards[..i], n, a + 2 * b)
      invariant Cat(lists) == Merged(shards[..i], n, a, b)
    {
      var cut := CutChunks(shards[i], n, a, b, lists);
      if cut.None? {
        return None;
      }
      assert shards[..i + 1][..i] == shards[..i];
      lists := cut.value;
    }
    assert shards[..|shards|] == shards;
    r := Some(Cat(lists));
  }

  lemma CatNone<T>(lists: Split<seq<T>>)
    requires lists == Split([], [], [])
    ensures Cat(lists) == Split([], [], [])
  {
  }

  /** Megatron's shards of a matrix: equal runs of its rows. */
  function Rows<T>(t: seq<T>, w: nat, tp: nat): (r: seq<seq<T>>)
    requires |t| == w * tp
    ensures |r| == tp && forall i :: 0 <= i < tp ==> |r[i]| == w
  {
    if tp == 0 then []
    else
      RowsInit(t, w, tp);
      Rows(t[..w * (tp - 1)], w, tp - 1) + [t[w * (tp - 1)..]]
  }

  lemma RowsInit<T>(t: seq<T>, w: nat, tp: nat)
    requires |t| == w * tp && tp > 0
    ensures 0 <= w * (tp - 1) && w * (tp - 1) + w == |t|
  {
    MulStep(w, tp);
    MulLe(0, w, tp - 1);
  }

  lemma RowsSnoc<T>(t: seq<T>, w: nat, tp: nat)
    requires |t| == w * tp && tp > 0
    ensures |t| >= w && |t[..|t| - w]| == w * (tp - 1)
    ensures Rows(t, w, tp) == Rows(t[..|t| - w], w, tp - 1) + [t[|t| - w..]]
  {
    RowsInit(t, w, tp);
  }

  lemma {:induction false} RowsFirst<T>(t: seq<T>, w: nat, tp: nat)
    requires |t| == w * tp && tp > 0
    ensures |t| >= w && Rows(t, w, tp)[0] == t[..w]
  {
    RowsSnoc(t, w, tp);
    hide Rows;
    if tp > 1 {
      RowsFirst(t[..|t| - w], w, tp - 1);
    } else {
      assert w * 0 == 0;
      NoRows(t[..|t| - w], w);
    }
  }

  lemma NoRows<T>(t: seq<T>, w: nat)
    requires t == []
    ensures w * 0 == 0 && Rows(t, w, 0) == []
  {
  }

  lemma MergedSnoc<T>(shards: seq<seq<T>>, last: seq<T>, n: nat, a: nat, b: nat)
    requires n > 0 && AllFit(shards, n, a + 2 * b) && ChunksFit(last, n, a + 2 * b)
    ensures AllFit(shards + [last], n, a + 2 * b) && |last| == (a + 2 * b) * |Chunk(last, n)|
    ensures Merged(shards + [last], n, a, b) == Join(Merged(shards, n, a, b), TakeApart(last, a, b, |Chunk(last, n)|))
  {
    hide ChunksFit, Chunk, TakeApart;
    FittingRows(last, n, a + 2 * b);
    assert (shards + [last])[..|shards|] == shards;
  }

  lemma NothingMerged<T>(t: seq<T>, n: nat, a: nat, b: nat)
    requires t == [] && n > 0
    ensures (a + 2 * b) * 0 == 0 && AllFit<T>([], n, a + 2 * b)
    ensures Merged<T>([], n, a, b) == TakeApart(t, a, b, 0)
  {
  }

  lemma OneShardLess(n: nat, tp: nat, m: nat, w: nat)
    requires tp > 0 && m == n * tp
    ensures m >= n && m - n == n * (tp - 1)
    ensures w * m == w * (m - n) + w * n
  {
    MulStep(n, tp);
    MulLe(0, tp - 1, n);
    MulPlus(w, m - n, n);
    assert (tp - 1) * n == n * (tp - 1);
  }

  /** Merging the shards of a matrix takes it apart: `w` rows a shard, n groups a shard, `m` in
      all. */
  lemma {:induction false} MergedRows<T>(t: seq<T>, w: nat, n: nat, tp: nat, m: nat, a: nat, b: nat)
    requires n > 0 && w == (a + 2 * b) * n && |t| == w * tp && m == n * tp
    ensures |t| == (a + 2 * b) * m && AllFit(Rows(t, w, tp), n, a + 2 * b)
    ensures Merged(Rows(t, w, tp), n, a, b) == TakeApart(t, a, b, m)
    decreases tp
  {
    hide Rows, Merged, AllFit, TakeApart, ChunksFit, Chunk;
    if tp == 0 {
      assert w * 0 == 0 && n * 0 == 0;
      NoRows(t, w);
      NothingMerged(t, n, a, b);
    } else {
      RowsSnoc(t, w, tp);
      OneShardLess(n, tp, m, a + 2 * b);
      var init, last := t[..|t| - w], t[|t| - w..];
      MergedRows(init, w, n, tp - 1, m - n, a, b);
      ExactFits(last, a + 2 * b, n);
      MergedSnoc(Rows(init, w, tp - 1), last, n, a, b);
      TakeApartAppend(init, last, a, b, m - n, n);
      assert init + last == t;
    }
  }

  lemma ExactFits<T>(t: seq<T>, w: nat, n: nat)
    requires n > 0 && |t| == w * n
    ensures ChunksFit(t, n, w) && |Chunk(t, n)| == n
  {
    ChunkExact(t, w, n);
  }

  lemma GroupIs(rows: nat, heads: nat, groups: nat)
    requires groups > 0 && Splittable(rows, heads, groups)
    ensures var perKv, b := heads / groups, GroupK(rows, heads, groups);
            && 0 <= b * groups && rows == (perKv + 2) * (b * groups)
            && GroupQ(rows, heads, groups) == perKv * b
  {
    var perKv, b := heads / groups, GroupK(rows, heads, groups);
    DivMod(rows, perKv + 2);
    DivMod(KvSize(rows, perKv), groups);
    EvenSizes(perKv, b, groups);
    assert rows == rows / (perKv + 2) * (perKv + 2) == (perKv + 2) * KvSize(rows, perKv);
  }

  lemma ShardSizes(rows: nat, heads: nat, groups: nat, tp: nat)
    requires tp > 0 && groups > 0 && groups % tp == 0 && Splittable(rows, heads, groups)
    ensures PerShard(groups, tp) > 0 && PerShard(groups, tp) * tp == groups
    ensures rows % tp == 0 && rows / tp * tp == rows
    ensures rows / tp % (heads / groups + 2) == 0
    ensures ShardQ(rows / tp, heads / groups, PerShard(groups, tp)) == GroupQ(rows, heads, groups)
    ensures ShardK(rows / tp, heads / groups, PerShard(groups, tp)) == GroupK(rows, heads, groups)
    ensures rows / tp == (GroupQ(rows, heads, groups) + 2 * GroupK(rows, heads, groups)) * PerShard(groups, tp)
  {
    var perKv, n, b := heads / groups, PerShard(groups, tp), GroupK(rows, heads, groups);
    DivMod(groups, tp);
    MulCancel(0, n, tp);
    GroupIs(rows, heads, groups);
    EvenSizes(perKv, b, n);
    hide GroupQ, GroupK, PerShard;
    MulRegroup(perKv + 2, b, n, tp);
    Quotient(rows, tp, (perKv + 2) * (b * n), 0);
    Quotient(rows / tp, perKv + 2, b * n, 0);
  }

  lemma MulRegroup(w: nat, b: nat, n: nat, tp: nat)
    ensures w * (b * (n * tp)) == w * (b * n) * tp
  {
    assert b * (n * tp) == b * n * tp;
    assert w * (b * n * tp) == w * (b * n) * tp;
  }

  /** The shards of a fused matrix can be merged, and give what splitting the whole matrix gives,
      whenever the shards divide the groups. */
  lemma MergeIsSplit<T>(t: seq<T>, heads: nat, groups: nat, tp: nat)
    requires tp > 0 && groups > 0 && groups % tp == 0 && Splittable(|t|, heads, groups)
    ensures |t| == |t| / tp * tp
    ensures Mergeable(Rows(t, |t| / tp, tp), heads, groups)
    ensures MergeResult(Rows(t, |t| / tp, tp), heads, groups) == SplitResult(t, heads, groups)
  {
    hide ShardQ, ShardK, GroupQ, GroupK, PerShard, AllFit, Merged, TakeApart;
    ShardSizes(|t|, heads, groups, tp);
    SplittableRows(|t|, heads, groups);
    MergedRows(t, |t| / tp, PerShard(groups, tp), tp, groups, GroupQ(|t|, heads, groups), GroupK(|t|, heads, groups));
  }

  // ---- shards that do not divide the groups ----

  lemma ShardIs(rows: nat, perKv: nat, n: nat)
    requires n > 0 && rows % (perKv + 2) == 0 && KvSize(rows, perKv) % n == 0
    ensures var b := ShardK(rows, perKv, n);
            && 0 <= b * n && rows == (perKv + 2) * (b * n)
            && ShardQ(rows, perKv, n) == perKv * b
  {
    var b := ShardK(rows, perKv, n);
    DivMod(rows, perKv + 2);
    DivMod(KvSize(rows, perKv), n);
    EvenSizes(perKv, b, n);
    assert rows == rows / (perKv + 2) * (perKv + 2) == (perKv + 2) * KvSize(rows, perKv);
  }

  /** As many rows cut into fewer groups: each of them is larger. */
  lemma FewerGroupsLarger(k: nat, b: nat, groups: nat, b': nat, n: nat, tp: nat)
    requires k > 0 && tp > 0 && n > 0 && b > 0 && n * tp < groups
    requires k * (b * groups) == k * (b' * n) * tp
    ensures b < b'
  {
    assert k * (b' * n) * tp == b' * (n * tp) * k && k * (b * groups) == b * groups * k;
    Cancel(b * groups, b' * (n * tp), k);
    MulStrict(n * tp, groups, b);
    assert n * tp * b == b * (n * tp) && groups * b == b * groups;
    MulCancel(b, b', n * tp);
  }

  lemma Cancel(x: int, y: int, k: nat)
    requires k > 0 && x * k == y * k
    ensures x == y
  {
    if x < y {
      MulStrict(x, y, k);
    } else if y < x {
      MulStrict(y, x, k);
    }
  }

  /** When the shards do not divide the groups and can be merged all the same, the groups they are
      cut into are larger than those of the matrix. */
  lemma UnevenShardSizes(rows: nat, heads: nat, groups: nat, tp: nat)
    requires tp > 0 && groups > 0 && rows % tp == 0 && Splittable(rows, heads, groups) && PerShard(groups, tp) > 0
    requires groups % tp != 0 && GroupQ(rows, heads, groups) > 0 && GroupK(rows, heads, groups) > 0
    requires rows / tp % (heads / groups + 2) == 0
    requires KvSize(rows / tp, heads / groups) % PerShard(groups, tp) == 0
    ensures GroupQ(rows, heads, groups) < ShardQ(rows / tp, heads / groups, PerShard(groups, tp))
  {
    var perKv, n := heads / groups, PerShard(groups, tp);
    DivMod(rows, tp);
    DivMod(groups, tp);
    GroupIs(rows, heads, groups);
    ShardIs(rows / tp, perKv, n);
    hide GroupQ, GroupK, ShardQ, ShardK, KvSize, PerShard, Splittable;
    var b, b' := GroupK(rows, heads, groups), ShardK(rows / tp, perKv, n);
    FewerGroupsLarger(perKv + 2, b, groups, b', n, tp);
    LargerQueries(perKv, b, b');
  }

  lemma LargerQueries(perKv: nat, b: nat, b': nat)
    requires perKv * b > 0 && b < b'
    ensures perKv * b < perKv * b'
  {
    assert perKv > 0;
    MulStrict(b, b', perKv);
  }

  /** The merged query rows begin with those of the first shard. */
  lemma {:induction false} MergedFirst<T>(shards: seq<seq<T>>, n: nat, a: nat, b: nat)
    requires n > 0 && shards != [] && AllFit(shards, n, a + 2 * b) && |Chunk(shards[0], n)| > 0
    ensures |shards[0]| >= a && shards[0][..a] <= Merged(shards, n, a, b).q
    decreases |shards|
  {
    hide Chunk, ChunksFit;
    var init, last := shards[..|shards| - 1], shards[|shards| - 1];
    assert init + [last] == shards;
    MergedSnoc(init, last, n, a, b);
    hide Merged;
    if init == [] {
      MergedNone<T>(n, a, b);
      FittingRows(last, n, a + 2 * b);
      RowsTail(last, a + 2 * b, |Chunk(last, n)|);
    } else {
      MergedFirst(init, n, a, b);
    }
  }

  lemma MergedNone<T>(n: nat, a: nat, b: nat)
    requires n > 0
    ensures AllFit<T>([], n, a + 2 * b) && Merged<T>([], n, a, b) == Split([], [], [])
  {
  }

  /** The query row after the first group is the first of the second group. */
  lemma SecondGroup<T>(t: seq<T>, a: nat, b: nat, groups: nat)
    requires |t| == (a + 2 * b) * groups && groups >= 2 && a > 0
    ensures |t| > a + 2 * b && |TakeApart(t, a, b, groups).q| > a
    ensures TakeApart(t, a, b, groups).q[a] == t[a + 2 * b]
  {
    var w := a + 2 * b;
    RowsTail(t, w, groups);
    RowsTail(t[w..], w, groups - 1);
    var rest := TakeApart(t[w..], a, b, groups - 1);
    assert rest.q[..a] == t[w..][..a];
    assert rest.q[0] == rest.q[..a][0] == t[w];
  }

  ghost predicate DistinctRows<T>(t: seq<T>) {
    forall i, j :: 0 <= i < j < |t| ==> t[i] != t[j]
  }

  lemma UnevenMergeDiffers<T>(t: seq<T>, heads: nat, groups: nat, tp: nat)
    requires tp > 0 && groups > 0 && |t| == |t| / tp * tp && |t| % tp == 0 && Splittable(|t|, heads, groups)
    requires GroupQ(|t|, heads, groups) > 0 && GroupK(|t|, heads, groups) > 0 && DistinctRows(t)
    requires groups % tp != 0 && Mergeable(Rows(t, |t| / tp, tp), heads, groups)
    ensures MergeResult(Rows(t, |t| / tp, tp), heads, groups) != SplitResult(t, heads, groups)
  {
    hide TakeApart, Merged, ChunksFit, Chunk, GroupQ, GroupK, ShardQ, ShardK, Rows;
    var shards, n, perKv := Rows(t, |t| / tp, tp), PerShard(groups, tp), heads / groups;
    var w := |t| / tp;
    var a', b' := ShardQ(w, perKv, n), ShardK(w, perKv, n);
    RowsFirst(t, w, tp);
    assert ChunksFit(shards[0], n, a' + 2 * b');
    FirstShardFits(shards[0], perKv, n);
    UnevenShardSizes(|t|, heads, groups, tp);
    MergedFirst(shards, n, a', b');
    var a, b := GroupQ(|t|, heads, groups), GroupK(|t|, heads, groups);
    SplittableRows(|t|, heads, groups);
    AtLeastTwo(groups, tp);
    SecondGroup(t, a, b, groups);
    var q := MergeResult(shards, heads, groups).q;
    assert q[a] == shards[0][..a'][a] == t[a];
    assert t[a] != t[a + 2 * b];
  }

  /** A first shard that can be cut holds key rows that fall evenly into its chunks. */
  lemma FirstShardFits<T>(shard: seq<T>, perKv: nat, n: nat)
    requires n > 0 && |shard| % (perKv + 2) == 0
    requires ChunksFit(shard, n, ShardQ(|shard|, perKv, n) + 2 * ShardK(|shard|, perKv, n))
    ensures KvSize(|shard|, perKv) % n == 0 && |Chunk(shard, n)| == n
  {
    DivMod(|shard|, perKv + 2);
    hide ChunksFit, Chunk;
    FitsIff(shard, perKv, KvSize(|shard|, perKv), n);
  }

  lemma AtLeastTwo(groups: nat, tp: nat)
    requires tp > 0 && PerShard(groups, tp) > 0 && groups % tp != 0
    ensures groups >= 2
  {
  }

  /** For a matrix of distinct rows, cut into shards of equal size: merging the shards goes through
      and gives what splitting the whole matrix gives exactly when the shards divide the groups. */
  lemma MergeRightIff<T>(t: seq<T>, heads: nat, groups: nat, tp: nat)
    requires tp > 0 && groups > 0 && |t| % tp == 0 && Splittable(|t|, heads, groups)
    requires GroupQ(|t|, heads, groups) > 0 && GroupK(|t|, heads, groups) > 0 && DistinctRows(t)
    ensures |t| == |t| / tp * tp
    ensures Mergeable(Rows(t, |t| / tp, tp), heads, groups)
            && MergeResult(Rows(t, |t| / tp, tp), heads, groups) == SplitResult(t, heads, groups)
            <==> groups % tp == 0
  {
    hide MergeResult, SplitResult, Mergeable, Rows, Splittable, GroupQ, GroupK, DistinctRows;
    DivMod(|t|, tp);
    if groups % tp == 0 {
      MergeIsSplit(t, heads, groups, tp);
    } else if Mergeable(Rows(t, |t| / tp, tp), heads, groups) {
      UnevenMergeDiffers(t, heads, groups, tp);
    }
  }

  lemma ThreeGroups(t: seq<nat>)
    requires t == seq(18, i => i)
    ensures Splittable(18, 3, 3) && [0, 1, 6] <= SplitResult(t, 3, 3).q
  {
    assert GroupQ(18, 3, 3) == 2 && GroupK(18, 3, 3) == 2;
    TakeApartUnfold(t, 2, 2, 3);
    TakeApartUnfold(t[6..], 2, 2, 2);
    hide TakeApart;
    assert t[..2] == [0, 1] && t[6..][..1] == [6];
  }

  /** With shards that do not divide the groups (3 groups of 6 rows over 2 shards) the merge goes
      through and is wrong: its third query row is row 2 of the matrix, a key row, not row 6. */
  lemma UnevenShardsMergeWrong(t: seq<nat>)
    requires t == seq(18, i => i)
    ensures Splittable(18, 3, 3) && [0, 1, 6] <= SplitResult(t, 3, 3).q
    ensures Rows(t, 9, 2) == [t[..9], t[9..]]
    ensures Mergeable(Rows(t, 9, 2), 3, 3) && [0, 1, 2] <= MergeResult(Rows(t, 9, 2), 3, 3).q
  {
    ThreeGroups(t);
    hide Splittable, SplitResult;
    assert Rows(t[..9], 9, 1) == [t[..9]];
    assert PerShard(3, 2) == 1 && ShardQ(9, 1, 1) == 3 && ShardK(9, 1, 1) == 3;
    var shards := Rows(t, 9, 2);
    ExactFits(shards[0], 9, 1);
    ExactFits(shards[1], 9, 1);
    assert Merged(shards[..1][..0], 1, 3, 3) == Split([], [], []);
    OneGroup(shards[0], 3, 3);
    OneGroup(shards[1], 3, 3);
    assert shards[..1][0] == shards[0];
    assert Merged(shards, 1, 3, 3).q == [] + t[..9][..3] + t[9..][..3];
  }
}
