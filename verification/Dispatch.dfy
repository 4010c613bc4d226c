/** Sending a batch to equal workers: pad it to a multiple of their number, cut it into as many
    chunks, let each worker map its chunk row by row, put the results together and drop the
    padding. Proved equal to mapping the rows. */
module Dispatch {
  import opened Arith
  import opened Basics
  import opened Torch

  // ---- rows ----

  function MapSeq<R, S>(f: R -> S, xs: seq<R>): (r: seq<S>)
    ensures |r| == |xs| && forall i :: 0 <= i < |xs| ==> r[i] == f(xs[i])
  {
    seq(|xs|, i requires 0 <= i < |xs| => f(xs[i]))
  }

  function MapEach<R, S>(f: R -> S, chunks: seq<seq<R>>): (r: seq<seq<S>>)
    ensures |r| == |chunks|
  {
    seq(|chunks|, i requires 0 <= i < |chunks| => MapSeq(f, chunks[i]))
  }

  lemma {:induction false} MapFlatten<R, S>(f: R -> S, chunks: seq<seq<R>>)
    ensures Flatten(MapEach(f, chunks)) == MapSeq(f, Flatten(chunks))
  {
    if chunks != [] {
      MapFlatten(f, chunks[1..]);
      assert MapEach(f, chunks)[1..] == MapEach(f, chunks[1..]);
    }
  }

  /** How many rows `pad_dataproto_to_divisor` adds. */
  function PadSize(n: nat, divisor: nat): nat
    requires divisor > 0
  {
    if n % divisor == 0 then 0 else divisor - n % divisor
  }

  /** The padded rows: row i is row i mod n. */
  ghost predicate IsCyclic<R>(rows: seq<R>, padded: seq<R>) {
    forall i :: 0 <= i < |padded| ==> rows != [] && padded[i] == rows[i % |rows|]
  }

  lemma PadSizeDivides(n: nat, divisor: nat)
    requires divisor > 0
    ensures PadSize(n, divisor) < divisor
    ensures (n + PadSize(n, divisor)) % divisor == 0
  {
    DivMod(n, divisor);
    if n % divisor != 0 {
      MulPlus(divisor, n / divisor, 1);
      Quotient(n + PadSize(n, divisor), divisor, n / divisor + 1, 0);
    }
  }

  /** One row by its column entries. */
  datatype Row<V> = Row(batch: map<string, V>, objects: map<string, V>)

  // ---- columns ----

  type Columns<V> = map<string, seq<V>>

  /** A DataProto: tensor columns and object columns of one length. */
  datatype Data<V> = Data(rows: nat, batch: Columns<V>, objects: Columns<V>) {
    ghost predicate Valid() {
      Aligned(batch, rows) && Aligned(objects, rows)
    }
  }

  ghost predicate Aligned<V>(cols: Columns<V>, n: nat) {
    forall k :: k in cols ==> |cols[k]| == n
  }

  function Entries<V>(cols: Columns<V>, n: nat, i: nat): (r: map<string, V>)
    requires Aligned(cols, n) && i < n
    ensures r.Keys == cols.Keys
  {
    map k | k in cols :: cols[k][i]
  }

  function RowAt<V>(d: Data<V>, i: nat): Row<V>
    requires d.Valid() && i < d.rows
  {
    Row(Entries(d.batch, d.rows, i), Entries(d.objects, d.rows, i))
  }

  function RowsOf<V>(d: Data<V>): (r: seq<Row<V>>)
    requires d.Valid()
    ensures |r| == d.rows && forall i :: 0 <= i < d.rows ==> r[i] == RowAt(d, i)
  {
    seq(d.rows, i requires 0 <= i < d.rows => RowAt(d, i))
  }

  /** A batch is its columns' names and its rows. */
  lemma SameRows<V>(d: Data<V>, e: Data<V>)
    requires d.Valid() && e.Valid() && RowsOf(d) == RowsOf(e)
    requires d.batch.Keys == e.batch.Keys && d.objects.Keys == e.objects.Keys
    ensures d == e
  {
    assert d.rows == |RowsOf(d)| == e.rows;
    forall i | 0 <= i < d.rows
      ensures Entries(d.batch, d.rows, i) == Entries(e.batch, e.rows, i)
      ensures Entries(d.objects, d.rows, i) == Entries(e.objects, e.rows, i)
    {
      assert RowsOf(d)[i] == RowsOf(e)[i];
    }
    SameColumns(d.batch, e.batch, d.rows);
    SameColumns(d.objects, e.objects, d.rows);
  }

  lemma SameColumns<V>(a: Columns<V>, b: Columns<V>, n: nat)
    requires Aligned(a, n) && Aligned(b, n) && a.Keys == b.Keys
    requires forall i :: 0 <= i < n ==> Entries(a, n, i) == Entries(b, n, i)
    ensures a == b
  {
    forall k | k in a ensures a[k] == b[k] {
      forall i | 0 <= i < n ensures a[k][i] == b[k][i] {
        assert Entries(a, n, i)[k] == Entries(b, n, i)[k];
      }
    }
  }

  /** `data[lo:hi]` */
  function SliceColumns<V>(cols: Columns<V>, n: nat, lo: nat, hi: nat): (r: Columns<V>)
    requires Aligned(cols, n) && lo <= hi <= n
    ensures r.Keys == cols.Keys && Aligned(r, hi - lo)
  {
    map k | k in cols :: cols[k][lo..hi]
  }

  lemma SliceEntries<V>(cols: Columns<V>, n: nat, lo: nat, hi: nat, i: nat)
    requires Aligned(cols, n) && lo <= hi <= n && i < hi - lo
    ensures Entries(SliceColumns(cols, n, lo, hi), hi - lo, i) == Entries(cols, n, lo + i)
  {
  }

  lemma SliceRows<V>(d: Data<V>, lo: nat, hi: nat, r: Data<V>)
    requires d.Valid() && lo <= hi <= d.rows
    requires r == Data(hi - lo, SliceColumns(d.batch, d.rows, lo, hi), SliceColumns(d.objects, d.rows, lo, hi))
    ensures r.Valid() && RowsOf(r) == RowsOf(d)[lo..hi]
  {
    hide Entries, SliceColumns, Aligned, RowsOf;
    forall i | 0 <= i < hi - lo ensures RowsOf(r)[i] == RowsOf(d)[lo..hi][i] {
      SliceEntries(d.batch, d.rows, lo, hi, i);
      SliceEntries(d.objects, d.rows, lo, hi, i);
    }
  }

  function Slice<V>(d: Data<V>, lo: nat, hi: nat): (r: Data<V>)
    requires d.Valid() && lo <= hi <= d.rows
    ensures r.Valid() && r.rows == hi - lo && RowsOf(r) == RowsOf(d)[lo..hi]
    ensures SameNames(r, d)
  {
    hide RowsOf, Aligned;
    var r := Data(hi - lo, SliceColumns(d.batch, d.rows, lo, hi), SliceColumns(d.objects, d.rows, lo, hi));
    SliceRows(d, lo, hi, r);
    r
  }

  predicate SameNames<V>(d: Data<V>, e: Data<V>) {
    d.batch.Keys == e.batch.Keys && d.objects.Keys == e.objects.Keys
  }

  function AppendColumns<V>(a: Columns<V>, b: Columns<V>): (r: Columns<V>)
    requires a.Keys == b.Keys
    ensures r.Keys == a.Keys
  {
    map k | k in a :: a[k] + b[k]
  }

  lemma AppendAligned<V>(a: Columns<V>, b: Columns<V>, m: nat, n: nat)
    requires Aligned(a, m) && Aligned(b, n) && a.Keys == b.Keys
    ensures Aligned(AppendColumns(a, b), m + n)
  {
  }

  lemma AppendEntries<V>(a: Columns<V>, b: Columns<V>, m: nat, n: nat, i: nat)
    requires Aligned(a, m) && Aligned(b, n) && a.Keys == b.Keys && i < m + n
    ensures Aligned(AppendColumns(a, b), m + n)
    ensures Entries(AppendColumns(a, b), m + n, i) == if i < m then Entries(a, m, i) else Entries(b, n, i - m)
  {
  }

  lemma AppendRows<V>(d: Data<V>, e: Data<V>, r: Data<V>)
    requires d.Valid() && e.Valid() && SameNames(d, e)
    requires r == Data(d.rows + e.rows, AppendColumns(d.batch, e.batch), AppendColumns(d.objects, e.objects))
    ensures r.Valid() && RowsOf(r) == RowsOf(d) + RowsOf(e)
  {
    hide Entries, AppendColumns, Aligned, RowsOf;
    AppendAligned(d.batch, e.batch, d.rows, e.rows);
    AppendAligned(d.objects, e.objects, d.rows, e.rows);
    forall i: nat | i < r.rows ensures RowAt(r, i) == if i < d.rows then RowAt(d, i) else RowAt(e, i - d.rows) {
      AppendEntries(d.batch, e.batch, d.rows, e.rows, i);
      AppendEntries(d.objects, e.objects, d.rows, e.rows, i);
    }
    hide RowAt;
    assert RowsOf(r) == RowsOf(d) + RowsOf(e);
  }

  function Append<V>(d: Data<V>, e: Data<V>): (r: Data<V>)
    requires d.Valid() && e.Valid() && SameNames(d, e)
    ensures r.Valid() && r.rows == d.rows + e.rows && RowsOf(r) == RowsOf(d) + RowsOf(e)
    ensures SameNames(r, d)
  {
    hide RowsOf, Aligned;
    var r := Data(d.rows + e.rows, AppendColumns(d.batch, e.batch), AppendColumns(d.objects, e.objects));
    AppendRows(d, e, r);
    r
  }

  ghost predicate Concatable<V>(parts: seq<Data<V>>) {
    && parts != []
    && forall i :: 0 <= i < |parts| ==> parts[i].Valid() && SameNames(parts[i], parts[0])
  }

  function AllRows<V>(parts: seq<Data<V>>): (r: seq<seq<Row<V>>>)
    requires forall i :: 0 <= i < |parts| ==> parts[i].Valid()
    ensures |r| == |parts|
  {
    seq(|parts|, i requires 0 <= i < |parts| && parts[i].Valid() => RowsOf(parts[i]))
  }

  /** `DataProto.concat` */
  method Concat<V>(parts: seq<Data<V>>) returns (r: Data<V>)
    requires Concatable(parts)
    ensures r.Valid() && SameNames(r, parts[0]) && RowsOf(r) == Flatten(AllRows(parts))
  {
    r := parts[0];
    assert AllRows(parts[..1]) == [RowsOf(r)] && Flatten([RowsOf(r)]) == RowsOf(r) + Flatten([]);
    for i := 1 to |parts|
      invariant r.Valid() && SameNames(r, parts[0]) && RowsOf(r) == Flatten(AllRows(parts[..i]))
    {
      assert AllRows(parts[..i + 1]) == AllRows(parts[..i]) + [RowsOf(parts[i])];
      FlattenSnoc(AllRows(parts[..i]), RowsOf(parts[i]));
      r := Append(r, parts[i]);
    }
    assert parts[..|parts|] == parts;
  }

  /** `pad_dataproto_to_divisor`: slices from the front are appended until the divisor divides. */
  method PadToDivisor<V>(d: Data<V>, divisor: nat) returns (padded: Data<V>, padSize: nat)
    requires d.Valid() && divisor > 0
    ensures padSize == PadSize(d.rows, divisor)
    ensures padded.Valid() && SameNames(padded, d) && padded.rows == d.rows + padSize
    ensures IsCyclic(RowsOf(d), RowsOf(padded)) && RowsOf(d) <= RowsOf(padded)
  {
    hide IsCyclic, RowsOf, Slice, PadSize;
    var n := d.rows;
    CyclicStart(RowsOf(d));
    PadSizeIs(n, divisor);
    if n % divisor != 0 {
      padSize := divisor - n % divisor;
      var protos: seq<Data<V>> := [];
      var remaining: nat := padSize;
      ghost var cycles: nat := 1;
      OnePart(d);
      while remaining > 0
        invariant remaining <= padSize
        invariant Concatable([d] + protos)
        invariant PaddedSoFar(d, protos, n + padSize - remaining)
        invariant remaining > 0 ==> n + padSize - remaining == cycles * n
      {
        var take := if remaining < n then remaining else n;
        var part := Slice(d, 0, take);
        OneMorePart(d, protos, part, take, cycles);
        protos := protos + [part];
        remaining := remaining - take;
        cycles := cycles + 1;
      }
      padded := Concat([d] + protos);
      assert PaddedSoFar(d, protos, n + padSize) && |RowsOf(padded)| == padded.rows;
    } else {
      padSize, padded := 0, d;
    }
  }

  lemma PadSizeIs(n: nat, divisor: nat)
    requires divisor > 0
    ensures PadSize(n, divisor) == if n % divisor == 0 then 0 else divisor - n % divisor
    ensures n == 0 ==> n % divisor == 0
  {
  }

  /** The data and the slices taken so far make `count` rows, cyclically. */
  ghost predicate PaddedSoFar<V>(d: Data<V>, protos: seq<Data<V>>, count: nat)
    requires Concatable([d] + protos)
  {
    var all := Flatten(AllRows([d] + protos));
    |all| == count && IsCyclic(RowsOf(d), all) && RowsOf(d) <= all
  }

  lemma OnePart<V>(d: Data<V>)
    requires d.Valid()
    ensures Concatable([d] + []) && PaddedSoFar(d, [], d.rows)
  {
    hide RowsOf, IsCyclic;
    var none: seq<Data<V>> := [];
    assert [d] + none == [d] && AllRows([d]) == [RowsOf(d)] && Flatten([RowsOf(d)]) == RowsOf(d) + Flatten([]);
    assert Flatten(AllRows([d] + none)) == RowsOf(d);
    CyclicStart(RowsOf(d));
  }

  lemma OneMorePart<V>(d: Data<V>, protos: seq<Data<V>>, part: Data<V>, take: nat, cycles: nat)
    requires d.Valid() && 0 < d.rows && take <= d.rows && part == Slice(d, 0, take)
    requires Concatable([d] + protos) && PaddedSoFar(d, protos, cycles * d.rows)
    ensures Concatable([d] + (protos + [part]))
    ensures PaddedSoFar(d, protos + [part], cycles * d.rows + take)
    ensures take == d.rows ==> cycles * d.rows + take == (cycles + 1) * d.rows
  {
    hide RowsOf, Slice;
    var before := [d] + protos;
    assert before + [part] == [d] + (protos + [part]);
    assert AllRows(before + [part]) == AllRows(before) + [RowsOf(part)];
    FlattenSnoc(AllRows(before), RowsOf(part));
    CyclicExtends(RowsOf(d), Flatten(AllRows(before)), take, cycles);
    hide IsCyclic;
  }

  lemma CyclicStart<R>(rows: seq<R>)
    ensures IsCyclic(rows, rows)
  {
    forall i | 0 <= i < |rows| ensures rows[i] == rows[i % |rows|] {
      Quotient(i, |rows|, 0, i);
    }
  }

  lemma CyclicExtends<R>(rows: seq<R>, padded: seq<R>, take: nat, cycles: nat)
    requires rows != [] && take <= |rows| && IsCyclic(rows, padded) && |padded| == cycles * |rows|
    ensures IsCyclic(rows, padded + rows[0..take])
    ensures take == |rows| ==> |padded| + take == (cycles + 1) * |rows|
  {
    MulPlus(|rows|, cycles, 1);
    forall i | 0 <= i < |padded| + take ensures (padded + rows[0..take])[i] == rows[i % |rows|] {
      if i >= |padded| {
        Quotient(i, |rows|, cycles, i - |padded|);
      }
    }
  }

  /** `data[:-pad_size]`, or all of it. */
  function Unpad<V>(d: Data<V>, padSize: nat): (r: Data<V>)
    requires d.Valid()
    ensures r.Valid() && SameNames(r, d)
    ensures RowsOf(r) == RowsOf(d)[..if padSize <= d.rows then d.rows - padSize else 0]
  {
    if padSize != 0 then Slice(d, 0, if padSize <= d.rows then d.rows - padSize else 0) else d
  }

  // ---- chunks ----

  /** One chunk of every column. */
  function ChunkColumns<V>(cols: Columns<V>, chunks: nat, i: nat): (r: Columns<V>)
    requires chunks > 0 && forall k :: k in cols ==> i < |Chunk(cols[k], chunks)|
    ensures r.Keys == cols.Keys
  {
    map k | k in cols :: Chunk(cols[k], chunks)[i]
  }

  /** `np.cumsum` of the chunk sizes. */
  function CutAt(sizes: seq<nat>, i: nat): nat
    requires i <= |sizes|
  {
    if i == 0 then 0 else CutAt(sizes, i - 1) + sizes[i - 1]
  }

  /** The object columns are cut where the tensors are: `np.array_split` at the cumulative sizes;
      the last part runs to the end. */
  function SplitColumns<V>(cols: Columns<V>, n: nat, sizes: seq<nat>, i: nat): (r: Columns<V>)
    requires Aligned(cols, n) && i < |sizes| && CutAt(sizes, i) <= CutAt(sizes, i + 1) <= n
    ensures r.Keys == cols.Keys
  {
    var hi := if i == |sizes| - 1 then n else CutAt(sizes, i + 1);
    SliceColumns(cols, n, CutAt(sizes, i), hi)
  }

  lemma {:induction false} EqualCuts(sizes: seq<nat>, size: nat, i: nat)
    requires i <= |sizes| && forall j :: 0 <= j < |sizes| ==> sizes[j] == size
    ensures CutAt(sizes, i) == size * i
  {
    if i > 0 {
      EqualCuts(sizes, size, i - 1);
      MulStep(size, i);
    } else {
      assert size * 0 == 0;
    }
  }

  /** Slice i of n slices of one size lies inside. */
  lemma SliceInside(size: nat, n: nat, i: nat)
    requires i < n
    ensures 0 <= size * i && size * i + size <= size * n
    ensures i + 1 == n ==> size * i + size == size * n
    ensures size * (i + 1) == size * i + size
  {
    MulLe(0, i, size);
    MulLe(i + 1, n, size);
    MulPlus(size, i, 1);
    assert (i + 1) * size == size * (i + 1) && n * size == size * n;
  }

  /** Chunk i of an evenly divided sequence is its i-th slice. */
  lemma {:induction false} ChunkIsSlice<R>(xs: seq<R>, size: nat, n: nat, i: nat)
    requires n > 0 && |xs| == size * n && i < n
    ensures |Chunk(xs, n)| == n && 0 <= size * i && size * i + size <= |xs|
    ensures Chunk(xs, n)[i] == xs[size * i..size * i + size]
  {
    ChunkExact(xs, size, n);
    SliceInside(size, n, i);
    if size == 0 {
      assert Chunk(xs, n)[i] == [];
    } else {
      ChunkIsPieces(xs, size, n);
      hide Chunk, Pieces;
      PieceIsSlice(xs, size, i);
    }
  }

  lemma ChunkIsPieces<R>(xs: seq<R>, size: nat, n: nat)
    requires n > 0 && size > 0 && |xs| == size * n
    ensures Chunk(xs, n) == Pieces(xs, size)
  {
    MulLe(1, n, size);
    CeilOfExact(size, n);
  }

  lemma {:induction false} PieceIsSlice<R>(xs: seq<R>, c: nat, i: nat)
    requires c > 0 && 0 <= c * i && c * i + c <= |xs|
    ensures i < |Pieces(xs, c)| && Pieces(xs, c)[i] == xs[c * i..c * i + c]
    decreases i
  {
    if i == 0 {
      assert c * 0 == 0;
    } else {
      MulStep(c, i);
      MulLe(0, i - 1, c);
      assert (i - 1) * c == c * (i - 1);
      PieceIsSlice(xs[c..], c, i - 1);
      assert xs[c..][c * (i - 1)..c * (i - 1) + c] == xs[c * i..c * i + c];
    }
  }

  /** `part` is slice number i of the data, of `size` rows. */
  ghost predicate IsPart<V>(d: Data<V>, size: nat, i: nat, part: Data<V>)
    requires d.Valid()
  {
    && 0 <= size * i && size * i + size <= d.rows
    && part == Slice(d, size * i, size * i + size)
  }

  /** `DataProto.chunk` without automatic padding: it refuses a batch that does not divide evenly.
      Otherwise tensors are chunked and objects cut at the same places: part i is slice i. */
  method ChunkData<V>(d: Data<V>, chunks: nat) returns (r: Option<seq<Data<V>>>)
    requires d.Valid() && chunks > 0
    ensures r.Some? <==> d.rows % chunks == 0
    ensures r.Some? ==>
              |r.value| == chunks && forall i :: 0 <= i < chunks ==> IsPart(d, d.rows / chunks, i, r.value[i])
  {
    hide IsPart, ChunkColumns, SplitColumns, CutAt, Aligned;
    if d.rows % chunks != 0 {
      return None;
    }
    var size := d.rows / chunks;
    DivMod(d.rows, chunks);
    var sizes: seq<nat> := Repeat(size, chunks);
    var output: seq<Data<V>> := [];
    for i := 0 to chunks
      invariant |output| == i && forall j :: 0 <= j < i ==> IsPart(d, size, j, output[j])
    {
      PartIsSlice(d, chunks, size, sizes, i);
      output := output + [Data(size, ChunkColumns(d.batch, chunks, i), SplitColumns(d.objects, d.rows, sizes, i))];
    }
    r := Some(output);
  }

  lemma PartIsSlice<V>(d: Data<V>, chunks: nat, size: nat, sizes: seq<nat>, i: nat)
    requires d.Valid() && chunks > 0 && d.rows == size * chunks && i < chunks && sizes == Repeat(size, chunks)
    ensures forall k :: k in d.batch ==> i < |Chunk(d.batch[k], chunks)|
    ensures CutAt(sizes, i) <= CutAt(sizes, i + 1) <= d.rows
    ensures IsPart(d, size, i, Data(size, ChunkColumns(d.batch, chunks, i), SplitColumns(d.objects, d.rows, sizes, i)))
  {
    hide Chunk, CutAt, RowsOf, Slice, ChunkColumns, SplitColumns;
    EqualCuts(sizes, size, i);
    EqualCuts(sizes, size, i + 1);
    SliceInside(size, chunks, i);
    forall k | k in d.batch
      ensures i < |Chunk(d.batch[k], chunks)| && Chunk(d.batch[k], chunks)[i] == d.batch[k][size * i..size * i + size]
    {
      ChunkIsSlice(d.batch[k], size, chunks, i);
    }
    CutIsSlice(d, chunks, size, sizes, i, size * i);
  }

  /** What is cut out at `lo` is the slice from there. */
  lemma CutIsSlice<V>(d: Data<V>, chunks: nat, size: nat, sizes: seq<nat>, i: nat, lo: nat)
    requires d.Valid() && i < chunks == |sizes| && lo + size <= d.rows
    requires CutAt(sizes, i) == lo && CutAt(sizes, i + 1) == lo + size && (i + 1 == chunks ==> lo + size == d.rows)
    requires forall k :: k in d.batch ==>
               i < |Chunk(d.batch[k], chunks)| && Chunk(d.batch[k], chunks)[i] == d.batch[k][lo..lo + size]
    ensures Data(size, ChunkColumns(d.batch, chunks, i), SplitColumns(d.objects, d.rows, sizes, i)) == Slice(d, lo, lo + size)
  {
    hide Chunk, CutAt, RowsOf;
    assert ChunkColumns(d.batch, chunks, i) == SliceColumns(d.batch, d.rows, lo, lo + size);
  }

  // ---- the whole trip ----

  ghost predicate Named<V>(row: Row<V>, batch: set<string>, objects: set<string>) {
    row.batch.Keys == batch && row.objects.Keys == objects
  }

  /** Column k of the rows. */
  function Column<V>(entries: seq<map<string, V>>, k: string): (r: seq<V>)
    requires forall i :: 0 <= i < |entries| ==> k in entries[i]
    ensures |r| == |entries| && forall i :: 0 <= i < |entries| ==> r[i] == entries[i][k]
  {
    seq(|entries|, i requires 0 <= i < |entries| && k in entries[i] => entries[i][k])
  }

  function FromEntries<V>(entries: seq<map<string, V>>, names: set<string>): (r: Columns<V>)
    requires forall i :: 0 <= i < |entries| ==> entries[i].Keys == names
    ensures r.Keys == names && Aligned(r, |entries|)
    ensures forall i :: 0 <= i < |entries| ==> Entries(r, |entries|, i) == entries[i]
  {
    map k | k in names :: Column(entries, k)
  }

  function BatchEntries<V>(rows: seq<Row<V>>): (r: seq<map<string, V>>)
    ensures |r| == |rows| && forall i :: 0 <= i < |rows| ==> r[i] == rows[i].batch
  {
    seq(|rows|, i requires 0 <= i < |rows| => rows[i].batch)
  }

  function ObjectEntries<V>(rows: seq<Row<V>>): (r: seq<map<string, V>>)
    ensures |r| == |rows| && forall i :: 0 <= i < |rows| ==> r[i] == rows[i].objects
  {
    seq(|rows|, i requires 0 <= i < |rows| => rows[i].objects)
  }

  lemma NamedEntries<V>(rows: seq<Row<V>>, batch: set<string>, objects: set<string>)
    requires forall i :: 0 <= i < |rows| ==> Named(rows[i], batch, objects)
    ensures forall i :: 0 <= i < |rows| ==> BatchEntries(rows)[i].Keys == batch
    ensures forall i :: 0 <= i < |rows| ==> ObjectEntries(rows)[i].Keys == objects
  {
    forall i | 0 <= i < |rows|
      ensures BatchEntries(rows)[i].Keys == batch && ObjectEntries(rows)[i].Keys == objects
    {
      assert Named(rows[i], batch, objects);
    }
  }

  /** The batch with the given rows, each with entries of the given names. */
  function FromRows<V>(rows: seq<Row<V>>, batch: set<string>, objects: set<string>): (r: Data<V>)
    requires forall i :: 0 <= i < |rows| ==> Named(rows[i], batch, objects)
    ensures r.Valid() && r.rows == |rows| && RowsOf(r) == rows
    ensures r.batch.Keys == batch && r.objects.Keys == objects
  {
    NamedEntries(rows, batch, objects);
    var r := Data(|rows|, FromEntries(BatchEntries(rows), batch), FromEntries(ObjectEntries(rows), objects));
    assert RowsOf(r) == rows;
    r
  }

  /** What a worker does to its chunk. */
  function Work<V>(f: Row<V> -> Row<V>, d: Data<V>, batch: set<string>, objects: set<string>): (r: Data<V>)
    requires d.Valid() && forall i :: 0 <= i < d.rows ==> Named(f(RowsOf(d)[i]), batch, objects)
    ensures r.Valid() && RowsOf(r) == MapSeq(f, RowsOf(d))
    ensures r.batch.Keys == batch && r.objects.Keys == objects
  {
    FromRows(MapSeq(f, RowsOf(d)), batch, objects)
  }

  ghost predicate Produces<V(!new)>(f: Row<V> -> Row<V>, batch: set<string>, objects: set<string>) {
    forall row :: Named(f(row), batch, objects)
  }

  lemma PartRows<V>(d: Data<V>, size: nat, i: nat, part: Data<V>)
    requires d.Valid() && IsPart(d, size, i, part)
    ensures 0 <= size * i && size * i + size <= d.rows
    ensures part.Valid() && RowsOf(part) == RowsOf(d)[size * i..size * i + size]
  {
  }

  /** The chunks have the rows of the whole, cut evenly. */
  lemma ChunksHaveRows<V>(d: Data<V>, chunks: nat, parts: seq<Data<V>>)
    requires d.Valid() && chunks > 0 && d.rows % chunks == 0 && |parts| == chunks
    requires forall i :: 0 <= i < chunks ==> IsPart(d, d.rows / chunks, i, parts[i])
    ensures forall i :: 0 <= i < chunks ==> parts[i].Valid()
    ensures Flatten(AllRows(parts)) == RowsOf(d)
  {
    hide RowsOf, Slice, Chunk, IsPart;
    var size := d.rows / chunks;
    DivMod(d.rows, chunks);
    forall i | 0 <= i < chunks
      ensures |Chunk(RowsOf(d), chunks)| == chunks && parts[i].Valid() && RowsOf(parts[i]) == Chunk(RowsOf(d), chunks)[i]
    {
      ChunkIsSlice(RowsOf(d), size, chunks, i);
      PartRows(d, size, i, parts[i]);
    }
    assert |Chunk(RowsOf(d), chunks)| == chunks by {
      ChunkExact(RowsOf(d), size, chunks);
    }
    assert AllRows(parts) == Chunk(RowsOf(d), chunks);
    FlattenChunk(RowsOf(d), chunks);
  }

  /** Padding, chunking, mapping by row on every worker, concatenating and unpadding is mapping the
      rows, for any non-empty batch, any number of workers and any function of a row. */
  method DispatchToWorkers<V(!new)>(d: Data<V>, workers: nat, f: Row<V> -> Row<V>, batch: set<string>, objects: set<string>)
    returns (out: Data<V>)
    requires d.Valid() && d.rows > 0 && workers > 0 && Produces(f, batch, objects)
    ensures out == Work(f, d, batch, objects)
  {
    hide RowsOf, Slice, Chunk, PadSize, IsCyclic, Work, Aligned, MapSeq, IsPart;
    var padded, padSize := PadToDivisor(d, workers);
    PadSizeDivides(d.rows, workers);
    var chunks := ChunkData(padded, workers);
    ChunksHaveRows(padded, workers, chunks.value);
    var done: seq<Data<V>> := [];
    for i := 0 to workers
      invariant |done| == i
      invariant forall j :: 0 <= j < i ==> done[j] == Work(f, chunks.value[j], batch, objects)
    {
      done := done + [Work(f, chunks.value[i], batch, objects)];
    }
    var all := Concat(done);
    WorkedRows(f, chunks.value, done, batch, objects);
    UnpadWorked(f, d, padded, all, padSize, batch, objects);
    out := Unpad(all, padSize);
  }

  lemma WorkedRows<V(!new)>(f: Row<V> -> Row<V>, parts: seq<Data<V>>, done: seq<Data<V>>, batch: set<string>, objects: set<string>)
    requires Produces(f, batch, objects) && |done| == |parts| && forall i :: 0 <= i < |parts| ==> parts[i].Valid()
    requires forall i :: 0 <= i < |parts| ==> done[i] == Work(f, parts[i], batch, objects)
    ensures forall i :: 0 <= i < |done| ==> done[i].Valid()
    ensures Flatten(AllRows(done)) == MapSeq(f, Flatten(AllRows(parts)))
  {
    hide RowsOf, Work;
    assert AllRows(done) == MapEach(f, AllRows(parts));
    MapFlatten(f, AllRows(parts));
  }

  lemma UnpadWorked<V(!new)>(f: Row<V> -> Row<V>, d: Data<V>, padded: Data<V>, all: Data<V>, padSize: nat,
                             batch: set<string>, objects: set<string>)
    requires d.Valid() && padded.Valid() && all.Valid() && Produces(f, batch, objects)
    requires padded.rows == d.rows + padSize && RowsOf(d) <= RowsOf(padded)
    requires RowsOf(all) == MapSeq(f, RowsOf(padded)) && all.batch.Keys == batch && all.objects.Keys == objects
    ensures Unpad(all, padSize) == Work(f, d, batch, objects)
  {
    hide RowsOf, Slice, Work;
    assert |RowsOf(all)| == all.rows && |RowsOf(padded)| == padded.rows;
    var out := Unpad(all, padSize);
    assert RowsOf(out) == MapSeq(f, RowsOf(d));
    SameRows(out, Work(f, d, batch, objects));
  }

  // ---- the generation script ----

  /** Rows by sample from samples by row: `np.transpose(xs, axes=(1, 0))`. */
  function Transpose<T>(xs: seq<seq<T>>, n: nat): (r: seq<seq<T>>)
    requires forall j :: 0 <= j < |xs| ==> |xs[j]| == n
    ensures |r| == n
    ensures forall i :: 0 <= i < n ==> |r[i]| == |xs| && forall j :: 0 <= j < |xs| ==> r[i][j] == xs[j][i]
  {
    seq(n, i requires 0 <= i < n => Across(xs, n, i))
  }

  function Across<T>(xs: seq<seq<T>>, n: nat, i: nat): (r: seq<T>)
    requires i < n && forall j :: 0 <= j < |xs| ==> |xs[j]| == n
    ensures |r| == |xs| && forall j :: 0 <= j < |xs| ==> r[j] == xs[j][i]
  {
    seq(|xs|, j requires 0 <= j < |xs| && |xs[j]| == n => xs[j][i])
  }

  /** Batch b begins here. */
  function BatchStart(b: nat, batchSize: nat, total: nat): (r: nat)
    ensures r <= total
  {
    if b * batchSize <= total then b * batchSize else total
  }

  /** Batch b: `chats[b * size : (b + 1) * size]`. */
  function BatchAt<C>(chats: seq<C>, batchSize: nat, b: nat): seq<C> {
    MulLe(b, b + 1, batchSize);
    chats[BatchStart(b, batchSize, |chats|)..BatchStart(b + 1, batchSize, |chats|)]
  }

  /** The tokenizer makes a row of every chat of a batch; which row may depend on the other chats,
      since a batch is padded to its longest chat. */
  ghost predicate Encodes<C(!new), V>(encode: seq<C> -> seq<Row<V>>, names: set<string>) {
    forall batch :: |encode(batch)| == |batch| && forall j :: 0 <= j < |batch| ==> Named(encode(batch)[j], names, {})
  }

  /** The answers of sample n to a batch. */
  function BatchAnswers<T, V>(rows: seq<Row<V>>, generate: (nat, Row<V>) -> Row<V>, decode: Row<V> -> T, n: nat): (r: seq<T>)
    ensures |r| == |rows| && forall j :: 0 <= j < |rows| ==> r[j] == decode(generate(n, rows[j]))
  {
    seq(|rows|, j requires 0 <= j < |rows| => decode(generate(n, rows[j])))
  }

  /** One batch: dispatched once a sample, the padding dropped, the answers appended. */
  method GenerateBatch<T, V(!new)>(rows: seq<Row<V>>, lists: seq<seq<T>>, workers: nat,
                                   generate: (nat, Row<V>) -> Row<V>, decode: Row<V> -> T,
                                   inputs: set<string>, outputs: set<string>) returns (r: seq<seq<T>>)
    requires rows != [] && workers > 0
    requires forall j :: 0 <= j < |rows| ==> Named(rows[j], inputs, {})
    requires forall n: nat, row :: Named(generate(n, row), outputs, {})
    ensures |r| == |lists|
    ensures forall n :: 0 <= n < |r| ==> r[n] == lists[n] + BatchAnswers(rows, generate, decode, n)
  {
    hide RowsOf, Work, FromRows, BatchAnswers;
    r := lists;
    var data := FromRows(rows, inputs, {});
    for n := 0 to |lists|
      invariant |r| == |lists|
      invariant forall m :: 0 <= m < n ==> r[m] == lists[m] + BatchAnswers(rows, generate, decode, m)
      invariant forall m :: n <= m < |r| ==> r[m] == lists[m]
    {
      var f := (row: Row<V>) => generate(n, row);
      var output := DispatchToWorkers(data, workers, f, outputs, {});
      assert MapSeq(decode, RowsOf(output)) == BatchAnswers(rows, generate, decode, n);
      r := r[n := r[n] + MapSeq(decode, RowsOf(output))];
    }
  }

  /** The answer of sample n to chat i, encoded with its batch. */
  function Answer<C(!new), T, V>(chats: seq<C>, batchSize: nat, encode: seq<C> -> seq<Row<V>>, names: set<string>,
                                 generate: (nat, Row<V>) -> Row<V>, decode: Row<V> -> T, n: nat, i: nat): T
    requires i < |chats| && batchSize > 0 && Encodes(encode, names)
  {
    InBatch(chats, batchSize, i);
    decode(generate(n, encode(BatchAt(chats, batchSize, i / batchSize))[i % batchSize]))
  }

  lemma InBatch<C>(chats: seq<C>, batchSize: nat, i: nat)
    requires i < |chats| && batchSize > 0
    ensures i % batchSize < |BatchAt(chats, batchSize, i / batchSize)|
    ensures BatchAt(chats, batchSize, i / batchSize)[i % batchSize] == chats[i]
  {
    DivMod(i, batchSize);
    MulPlus(batchSize, i / batchSize, 1);
    assert (i / batchSize + 1) * batchSize == i / batchSize * batchSize + batchSize;
  }

  function Answers<C(!new), T, V>(chats: seq<C>, batchSize: nat, encode: seq<C> -> seq<Row<V>>, names: set<string>,
                                  generate: (nat, Row<V>) -> Row<V>, decode: Row<V> -> T, n: nat, count: nat): (r: seq<T>)
    requires count <= |chats| && batchSize > 0 && Encodes(encode, names)
    ensures |r| == count
    ensures forall i :: 0 <= i < count ==> r[i] == Answer(chats, batchSize, encode, names, generate, decode, n, i)
  {
    seq(count, i requires 0 <= i < count => Answer(chats, batchSize, encode, names, generate, decode, n, i))
  }

  lemma BatchSteps(b: nat, batches: nat, batchSize: nat, total: nat)
    requires batchSize > 0 && b < batches == (total + batchSize - 1) / batchSize
    ensures BatchStart(b, batchSize, total) == b * batchSize < total
    ensures BatchStart(b + 1, batchSize, total) == if b * batchSize + batchSize <= total then b * batchSize + batchSize else total
  {
    DivMod(total + batchSize - 1, batchSize);
    MulStrict(b, batches, batchSize);
    MulPlus(batchSize, b, 1);
    assert (b + 1) * batchSize == b * batchSize + batchSize;
  }

  lemma BatchesEnd(batches: nat, batchSize: nat, total: nat)
    requires batchSize > 0 && batches == (total + batchSize - 1) / batchSize
    ensures BatchStart(0, batchSize, total) == 0 && BatchStart(batches, batchSize, total) == total
  {
    DivMod(total + batchSize - 1, batchSize);
    assert 0 * batchSize == 0;
  }

  /** Batch b's answers come after those to the chats before it. */
  lemma AnswersOfBatch<C(!new), T, V>(chats: seq<C>, batchSize: nat, encode: seq<C> -> seq<Row<V>>, names: set<string>,
                                generate: (nat, Row<V>) -> Row<V>, decode: Row<V> -> T, n: nat, b: nat, batches: nat)
    requires batchSize > 0 && Encodes(encode, names) && b < batches == (|chats| + batchSize - 1) / batchSize
    ensures Answers(chats, batchSize, encode, names, generate, decode, n, BatchStart(b, batchSize, |chats|))
            + BatchAnswers(encode(BatchAt(chats, batchSize, b)), generate, decode, n)
            == Answers(chats, batchSize, encode, names, generate, decode, n, BatchStart(b + 1, batchSize, |chats|))
  {
    BatchSteps(b, batches, batchSize, |chats|);
    var start, end := BatchStart(b, batchSize, |chats|), BatchStart(b + 1, batchSize, |chats|);
    var before := Answers(chats, batchSize, encode, names, generate, decode, n, start);
    var own := BatchAnswers(encode(BatchAt(chats, batchSize, b)), generate, decode, n);
    var after := Answers(chats, batchSize, encode, names, generate, decode, n, end);
    assert |own| == end - start;
    hide BatchStart, BatchAt, Answers, BatchAnswers;
    forall i | 0 <= i < end ensures (before + own)[i] == after[i] {
      if i >= start {
        Quotient(i, batchSize, b, i - start);
      }
    }
  }

  /** The batch loop of the generation script: batches of `batchSize` in order, each dispatched to
      the workers once a sample; at the end answers by chat. Every chat gets its own answers, one
      a sample, in order, made from the row it has in its batch. */
  method GenerateAll<C(!new), T, V(!new)>(chats: seq<C>, batchSize: nat, samples: nat, workers: nat,
                                          encode: seq<C> -> seq<Row<V>>, generate: (nat, Row<V>) -> Row<V>,
                                          decode: Row<V> -> T, inputs: set<string>, outputs: set<string>)
    returns (out: seq<seq<T>>)
    requires batchSize > 0 && samples > 0 && workers > 0 && Encodes(encode, inputs)
    requires forall n: nat, row :: Named(generate(n, row), outputs, {})
    ensures |out| == |chats|
    ensures forall i :: 0 <= i < |chats| ==>
              |out[i]| == samples
              && forall n :: 0 <= n < samples ==>
                   out[i][n] == Answer(chats, batchSize, encode, inputs, generate, decode, n, i)
  {
    hide Answers, Answer, BatchAnswers, BatchStart, BatchAt;
    var total := |chats|;
    var batches := (total + batchSize - 1) / batchSize;
    BatchesEnd(batches, batchSize, total);
    DivMod(total + batchSize - 1, batchSize);
    var lists: seq<seq<T>> := Repeat([], samples);
    for b := 0 to batches
      invariant |lists| == samples
      invariant forall n :: 0 <= n < samples ==>
                  lists[n] == Answers(chats, batchSize, encode, inputs, generate, decode, n, BatchStart(b, batchSize, total))
    {
      BatchSteps(b, batches, batchSize, total);
      forall n | 0 <= n < samples
        ensures Answers(chats, batchSize, encode, inputs, generate, decode, n, BatchStart(b, batchSize, total))
                + BatchAnswers(encode(BatchAt(chats, batchSize, b)), generate, decode, n)
                == Answers(chats, batchSize, encode, inputs, generate, decode, n, BatchStart(b + 1, batchSize, total))
      {
        AnswersOfBatch(chats, batchSize, encode, inputs, generate, decode, n, b, batches);
      }
      BatchNotEmpty(chats, batchSize, b, batches);
      lists := GenerateBatch(encode(BatchAt(chats, batchSize, b)), lists, workers, generate, decode, inputs, outputs);
    }
    out := Transpose(lists, total);
  }

  lemma BatchNotEmpty<C>(chats: seq<C>, batchSize: nat, b: nat, batches: nat)
    requires batchSize > 0 && b < batches == (|chats| + batchSize - 1) / batchSize
    ensures BatchAt(chats, batchSize, b) != []
  {
    BatchSteps(b, batches, batchSize, |chats|);
  }
}
