/** Global layer numbers and file numbers of a merged checkpoint. Pipeline chunks number their
    layers from zero; the mergers renumber them one after the other. */
module Numbering {
  import opened Arith

  /** A parameter of some layer, or one of no layer (embedding, final norm, output). */
  datatype Key = LayerKey(layer: nat, field: string) | OtherKey(name: string)

  datatype Entry<V> = Entry(key: Key, value: V)

  function Max(a: nat, b: nat): nat {
    if a >= b then a else b
  }

  /** `layers_handled` at the end of a chunk: the highest local layer, or 0. */
  function Highest<V>(chunk: seq<Entry<V>>): nat {
    if chunk == [] then 0
    else
      var rest, key := Highest(chunk[..|chunk| - 1]), chunk[|chunk| - 1].key;
      if key.LayerKey? then Max(key.layer, rest) else rest
  }

  function Globalize(key: Key, cum: nat): Key {
    if key.LayerKey? then LayerKey(key.layer + cum, key.field) else key
  }

  /** `layers_cum` after the chunks. */
  function Offset<V>(start: nat, chunks: seq<seq<Entry<V>>>): nat {
    if chunks == [] then start
    else Offset(start, chunks[..|chunks| - 1]) + Highest(chunks[|chunks| - 1]) + 1
  }

  function PutAll<V>(dict: map<Key, V>, chunk: seq<Entry<V>>, cum: nat): map<Key, V> {
    if chunk == [] then dict
    else
      var last := chunk[|chunk| - 1];
      PutAll(dict, chunk[..|chunk| - 1], cum)[Globalize(last.key, cum) := last.value]
  }

  function MergeDict<V>(start: nat, chunks: seq<seq<Entry<V>>>): map<Key, V> {
    if chunks == [] then map[]
    else
      var init := chunks[..|chunks| - 1];
      PutAll(MergeDict(start, init), chunks[|chunks| - 1], Offset(start, init))
  }

  /** One chunk of either merger's loop. */
  method MergeChunk<V>(dict: map<Key, V>, chunk: seq<Entry<V>>, cum: nat)
    returns (r: map<Key, V>, layersHandled: nat)
    ensures r == PutAll(dict, chunk, cum) && layersHandled == Highest(chunk)
  {
    r, layersHandled := dict, 0;
    for i := 0 to |chunk|
      invariant r == PutAll(dict, chunk[..i], cum) && layersHandled == Highest(chunk[..i])
    {
      assert chunk[..i + 1][..i] == chunk[..i];
      var key := chunk[i].key;
      if key.LayerKey? {
        layersHandled := Max(key.layer, layersHandled);
      }
      r := r[Globalize(key, cum) := chunk[i].value];
    }
    assert chunk[..|chunk|] == chunk;
  }

  /** The distributed merger: a rank's own chunks, from the layer the rank starts at. A parameter of
      no layer keeps its name; of several with one name the last chunk's stays. */
  method MergeStateDicts<V>(start: nat, chunks: seq<seq<Entry<V>>>) returns (dict: map<Key, V>)
    ensures dict == MergeDict(start, chunks)
    ensures forall name :: OtherKey(name) in dict <==> exists c :: 0 <= c < |chunks| && HoldsOther(chunks[c], name)
    ensures forall c, e ::
              0 <= c < |chunks| && 0 <= e < |chunks[c]| && LastWithName(chunks, c, e) ==>
                var entry := chunks[c][e];
                OtherKey(entry.key.name) in dict && dict[OtherKey(entry.key.name)] == entry.value
  {
    dict := map[];
    var cum := start;
    for c := 0 to |chunks|
      invariant dict == MergeDict(start, chunks[..c]) && cum == Offset(start, chunks[..c])
    {
      assert chunks[..c + 1][..c] == chunks[..c];
      var handled: nat;
      dict, handled := MergeChunk(dict, chunks[c], cum);
      cum := cum + handled + 1;
    }
    assert chunks[..|chunks|] == chunks;
    OthersKept(start, chunks);
  }

  lemma NoChunks<V>(start: nat)
    ensures MergeDict<V>(start, []) == map[] && Offset<V>(start, []) == start
  {
  }

  lemma OneMoreChunk<V>(start: nat, chunks: seq<seq<Entry<V>>>, chunk: seq<Entry<V>>)
    ensures MergeDict(start, chunks + [chunk]) == PutAll(MergeDict(start, chunks), chunk, Offset(start, chunks))
    ensures Offset(start, chunks + [chunk]) == Offset(start, chunks) + Highest(chunk) + 1
  {
    assert (chunks + [chunk])[..|chunks|] == chunks;
  }

  /** The chunks of `lists[pp][vpp]` in layer order: virtual stage by virtual stage, and within
      one pipeline rank by pipeline rank. */
  function Column<V>(lists: seq<seq<V>>, vpp: nat): (r: seq<V>)
    requires forall p :: 0 <= p < |lists| ==> vpp < |lists[p]|
    ensures |r| == |lists| && forall p :: 0 <= p < |lists| ==> r[p] == lists[p][vpp]
  {
    seq(|lists|, p requires 0 <= p < |lists| => lists[p][vpp])
  }

  function LayerOrder<V>(lists: seq<seq<V>>, vpps: nat): seq<V>
    requires forall p :: 0 <= p < |lists| ==> vpps <= |lists[p]|
  {
    if vpps == 0 then [] else LayerOrder(lists, vpps - 1) + Column(lists, vpps - 1)
  }

  /** The layer numbers taken up before chunk (p, v): by the virtual stages before v, and within
      stage v by the pipeline ranks before p. */
  function LayersBefore<V>(lists: seq<seq<seq<Entry<V>>>>, v: nat, p: nat): nat
    requires p <= |lists| && forall q :: 0 <= q < |lists| ==> v < |lists[q]|
    decreases v, p
  {
    if p > 0 then LayersBefore(lists, v, p - 1) + Highest(lists[p - 1][v]) + 1
    else if v > 0 then LayersBefore(lists, v - 1, |lists|)
    else 0
  }

  /** Chunk (p, v) is the chunk number v * |lists| + p. */
  lemma {:induction false} LayerOrderAt<V>(lists: seq<seq<V>>, vpps: nat, v: nat, p: nat)
    requires v < vpps && p < |lists| && forall q :: 0 <= q < |lists| ==> vpps <= |lists[q]|
    ensures |LayerOrder(lists, vpps)| == vpps * |lists| && 0 <= v * |lists| && v * |lists| + p < vpps * |lists|
    ensures LayerOrder(lists, vpps)[v * |lists| + p] == lists[p][v]
  {
    OrderLength(lists, vpps);
    OrderLength(lists, vpps - 1);
    MulStrict(v, vpps, |lists|);
    MulLe(0, v, |lists|);
    if v < vpps - 1 {
      LayerOrderAt(lists, vpps - 1, v, p);
    }
  }

  lemma {:induction false} OrderLength<V>(lists: seq<seq<V>>, vpps: nat)
    requires forall q :: 0 <= q < |lists| ==> vpps <= |lists[q]|
    ensures |LayerOrder(lists, vpps)| == vpps * |lists|
  {
    if vpps > 0 {
      OrderLength(lists, vpps - 1);
      MulPlus(|lists|, vpps - 1, 1);
      assert vpps * |lists| == (vpps - 1) * |lists| + |lists|;
    }
  }

  lemma {:induction false} OffsetOfChunk<V>(lists: seq<seq<seq<Entry<V>>>>, vpps: nat, v: nat, p: nat)
    requires v < vpps && p <= |lists| && forall q :: 0 <= q < |lists| ==> vpps <= |lists[q]|
    ensures 0 <= v * |lists| + p <= |LayerOrder(lists, vpps)|
    ensures Offset(0, LayerOrder(lists, vpps)[..v * |lists| + p]) == LayersBefore(lists, v, p)
    decreases v, p
  {
    hide LayerOrder, Highest;
    OrderLength(lists, vpps);
    MulLe(v + 1, vpps, |lists|);
    MulPlus(|lists|, v, 1);
    assert (v + 1) * |lists| == v * |lists| + |lists|;
    MulLe(0, v, |lists|);
    var order, k := LayerOrder(lists, vpps), v * |lists| + p;
    if p > 0 {
      OffsetOfChunk(lists, vpps, v, p - 1);
      LayerOrderAt(lists, vpps, v, p - 1);
      assert order[..k] == order[..k - 1] + [order[k - 1]];
      OneMoreChunk(0, order[..k - 1], order[k - 1]);
    } else if v > 0 {
      OffsetOfChunk(lists, vpps, v - 1, |lists|);
      MulPlus(|lists|, v - 1, 1);
      assert v * |lists| == (v - 1) * |lists| + |lists|;
    } else {
      assert k == 0 && order[..0] == [];
    }
  }

  /** Every layer parameter of chunk (p, v) ends up under its own layer, counted from the layers
      before the chunk. */
  lemma ChunkMerged<V>(lists: seq<seq<seq<Entry<V>>>>, vpps: nat, p: nat, v: nat, e: nat)
    requires forall q :: 0 <= q < |lists| ==> |lists[q]| == vpps
    requires forall q, u :: 0 <= q < |lists| && 0 <= u < vpps ==> DistinctKeys(lists[q][u])
    requires p < |lists| && v < vpps && e < |lists[p][v]| && lists[p][v][e].key.LayerKey?
    ensures var entry, dict := lists[p][v][e], MergeDict(0, LayerOrder(lists, vpps));
            var key := LayerKey(LayersBefore(lists, v, p) + entry.key.layer, entry.key.field);
            key in dict && dict[key] == entry.value
  {
    hide LayerOrder, MergeDict, DistinctKeys;
    var order := LayerOrder(lists, vpps);
    LayerOrderAt(lists, vpps, v, p);
    OffsetOfChunk(lists, vpps, v, p);
    OrderDistinct(lists, vpps);
    hide LayersBefore, Offset;
    NothingLost(0, order, v * |lists| + p, e);
  }

  lemma OrderDistinct<V>(lists: seq<seq<seq<Entry<V>>>>, vpps: nat)
    requires forall q :: 0 <= q < |lists| ==> |lists[q]| == vpps
    requires forall q, u :: 0 <= q < |lists| && 0 <= u < vpps ==> DistinctKeys(lists[q][u])
    ensures forall k :: 0 <= k < |LayerOrder(lists, vpps)| ==> DistinctKeys(LayerOrder(lists, vpps)[k])
  {
    hide LayerOrder, DistinctKeys;
    var order := LayerOrder(lists, vpps);
    forall k | 0 <= k < |order| ensures DistinctKeys(order[k]) {
      ChunkNumber(lists, vpps, k);
      DivMod(k, |lists|);
    }
  }

  /** Every chunk of the order is one of the lists. */
  lemma ChunkNumber<V>(lists: seq<seq<V>>, vpps: nat, k: nat)
    requires forall q :: 0 <= q < |lists| ==> |lists[q]| == vpps
    requires k < |LayerOrder(lists, vpps)|
    ensures |lists| > 0 && k / |lists| < vpps
    ensures LayerOrder(lists, vpps)[k] == lists[k % |lists|][k / |lists|]
  {
    hide LayerOrder;
    OrderLength(lists, vpps);
    if |lists| > 0 {
      DivMod(k, |lists|);
      MulCancel(k / |lists|, vpps, |lists|);
      LayerOrderAt(lists, vpps, k / |lists|, k % |lists|);
    }
  }

  /** The merger of all ranks' chunks: every layer parameter ends up under its own layer, counted
      virtual stage by virtual stage and within one pipeline rank by pipeline rank. */
  method MergeAllRanks<V>(lists: seq<seq<seq<Entry<V>>>>, vpps: nat) returns (dict: map<Key, V>)
    requires forall p :: 0 <= p < |lists| ==> |lists[p]| == vpps
    ensures dict == MergeDict(0, LayerOrder(lists, vpps))
    ensures (forall p, v :: 0 <= p < |lists| && 0 <= v < vpps ==> DistinctKeys(lists[p][v])) ==>
              forall p, v, e ::
                0 <= p < |lists| && 0 <= v < vpps && 0 <= e < |lists[p][v]| && lists[p][v][e].key.LayerKey? ==>
                  var entry := lists[p][v][e];
                  var key := LayerKey(LayersBefore(lists, v, p) + entry.key.layer, entry.key.field);
                  key in dict && dict[key] == entry.value
  {
    hide MergeDict, Offset, PutAll, Highest, DistinctKeys, LayersBefore;
    dict := map[];
    var cum: nat := 0;
    NoChunks<V>(0);
    for v := 0 to vpps
      invariant dict == MergeDict(0, LayerOrder(lists, v)) && cum == Offset(0, LayerOrder(lists, v))
    {
      ghost var before, column := LayerOrder(lists, v), Column(lists, v);
      assert before + column[..0] == before;
      for p := 0 to |lists|
        invariant dict == MergeDict(0, before + column[..p]) && cum == Offset(0, before + column[..p])
      {
        assert before + column[..p + 1] == before + column[..p] + [lists[p][v]];
        OneMoreChunk(0, before + column[..p], lists[p][v]);
        var handled: nat;
        dict, handled := MergeChunk(dict, lists[p][v], cum);
        cum := cum + handled + 1;
      }
      assert column[..|lists|] == column;
    }
    if forall p, v :: 0 <= p < |lists| && 0 <= v < vpps ==> DistinctKeys(lists[p][v]) {
      forall p, v, e | 0 <= p < |lists| && 0 <= v < vpps && 0 <= e < |lists[p][v]| && lists[p][v][e].key.LayerKey?
        ensures var entry := lists[p][v][e];
                var key := LayerKey(LayersBefore(lists, v, p) + entry.key.layer, entry.key.field);
                key in dict && dict[key] == entry.value
      {
        ChunkMerged(lists, vpps, p, v, e);
      }
    }
  }

  // ---- no two entries get one key ----

  lemma {:induction false} HighestBounds<V>(chunk: seq<Entry<V>>, e: nat)
    requires e < |chunk| && chunk[e].key.LayerKey?
    ensures chunk[e].key.layer <= Highest(chunk)
  {
    if e < |chunk| - 1 {
      HighestBounds(chunk[..|chunk| - 1], e);
    }
  }

  /** A chunk's layers come after those of every chunk before it. */
  lemma {:induction false} OffsetsIncrease<V>(start: nat, chunks: seq<seq<Entry<V>>>, c: nat)
    requires c < |chunks|
    ensures start <= Offset(start, chunks[..c])
    ensures Offset(start, chunks[..c]) + Highest(chunks[c]) < Offset(start, chunks)
  {
    OffsetFromStart(start, chunks[..c]);
    var init := chunks[..|chunks| - 1];
    if c < |chunks| - 1 {
      assert init[..c] == chunks[..c];
      OffsetsIncrease(start, init, c);
    }
  }

  lemma {:induction false} OffsetFromStart<V>(start: nat, chunks: seq<seq<Entry<V>>>)
    ensures start + |chunks| <= Offset(start, chunks)
  {
    if chunks != [] {
      OffsetFromStart(start, chunks[..|chunks| - 1]);
    }
  }

  /** A Python dictionary: no key twice. */
  ghost predicate DistinctKeys<V>(chunk: seq<Entry<V>>) {
    forall i, j :: 0 <= i < j < |chunk| ==> chunk[i].key != chunk[j].key
  }

  lemma {:induction false} PutAllKeeps<V>(dict: map<Key, V>, chunk: seq<Entry<V>>, cum: nat, key: Key)
    requires forall i :: 0 <= i < |chunk| ==> Globalize(chunk[i].key, cum) != key
    ensures key in PutAll(dict, chunk, cum) <==> key in dict
    ensures key in dict ==> PutAll(dict, chunk, cum)[key] == dict[key]
  {
    if chunk != [] {
      PutAllKeeps(dict, chunk[..|chunk| - 1], cum, key);
    }
  }

  lemma {:induction false} PutAllPuts<V>(dict: map<Key, V>, chunk: seq<Entry<V>>, cum: nat, e: nat)
    requires e < |chunk| && DistinctKeys(chunk)
    ensures Globalize(chunk[e].key, cum) in PutAll(dict, chunk, cum)
    ensures PutAll(dict, chunk, cum)[Globalize(chunk[e].key, cum)] == chunk[e].value
  {
    if e < |chunk| - 1 {
      PutAllPuts(dict, chunk[..|chunk| - 1], cum, e);
      assert chunk[e].key != chunk[|chunk| - 1].key;
    }
  }

  /** The global number of local layer `layer` of chunk c. */
  function GlobalLayer<V>(start: nat, chunks: seq<seq<Entry<V>>>, c: nat, layer: nat): nat
    requires c < |chunks|
  {
    Offset(start, chunks[..c]) + layer
  }

  /** Every layer parameter of every chunk ends up under its global layer: nothing is overwritten. */
  lemma {:induction false} NothingLost<V>(start: nat, chunks: seq<seq<Entry<V>>>, c: nat, e: nat)
    requires forall d :: 0 <= d < |chunks| ==> DistinctKeys(chunks[d])
    requires c < |chunks| && e < |chunks[c]| && chunks[c][e].key.LayerKey?
    ensures var entry := chunks[c][e];
            var key := LayerKey(GlobalLayer(start, chunks, c, entry.key.layer), entry.key.field);
            key in MergeDict(start, chunks) && MergeDict(start, chunks)[key] == entry.value
  {
    var init, last := chunks[..|chunks| - 1], chunks[|chunks| - 1];
    var cum := Offset(start, init);
    if c == |chunks| - 1 {
      PutAllPuts(MergeDict(start, init), last, cum, e);
    } else {
      assert init[..c] == chunks[..c];
      NothingLost(start, init, c, e);
      OffsetsIncrease(start, init, c);
      HighestBounds(chunks[c], e);
      var key := LayerKey(GlobalLayer(start, chunks, c, chunks[c][e].key.layer), chunks[c][e].key.field);
      PutAllKeeps(MergeDict(start, init), last, cum, key);
    }
  }

  /** And every layer parameter in the result is one of some chunk. */
  lemma {:induction false} NothingAdded<V>(start: nat, chunks: seq<seq<Entry<V>>>, g: nat, field: string)
    requires LayerKey(g, field) in MergeDict(start, chunks)
    ensures exists c, e :: 0 <= c < |chunks| && 0 <= e < |chunks[c]| && ComesFrom(start, chunks, c, e, g, field)
  {
    var init, last := chunks[..|chunks| - 1], chunks[|chunks| - 1];
    var cum, key := Offset(start, init), LayerKey(g, field);
    if e :| 0 <= e < |last| && Globalize(last[e].key, cum) == key {
      assert ComesFrom(start, chunks, |chunks| - 1, e, g, field);
    } else {
      PutAllKeeps(MergeDict(start, init), last, cum, key);
      NothingAdded(start, init, g, field);
      var c, e :| 0 <= c < |init| && 0 <= e < |init[c]| && ComesFrom(start, init, c, e, g, field);
      assert init[..c] == chunks[..c] && init[c] == chunks[c];
      assert ComesFrom(start, chunks, c, e, g, field);
    }
  }

  ghost predicate ComesFrom<V>(start: nat, chunks: seq<seq<Entry<V>>>, c: nat, e: nat, g: nat, field: string)
    requires c < |chunks| && e < |chunks[c]|
  {
    var key := chunks[c][e].key;
    key.LayerKey? && key.field == field && GlobalLayer(start, chunks, c, key.layer) == g
  }

  /** The chunk holds a parameter of no layer under this name. */
  ghost predicate HoldsOther<V>(chunk: seq<Entry<V>>, name: string) {
    exists e :: 0 <= e < |chunk| && chunk[e].key == OtherKey(name)
  }

  /** Entry e of chunk c is of no layer, and nothing after it has its name. */
  ghost predicate LastWithName<V>(chunks: seq<seq<Entry<V>>>, c: nat, e: nat)
    requires c < |chunks| && e < |chunks[c]|
  {
    && chunks[c][e].key.OtherKey?
    && !HoldsOther(chunks[c][e + 1..], chunks[c][e].key.name)
    && forall d :: c < d < |chunks| ==> !HoldsOther(chunks[d], chunks[c][e].key.name)
  }

  lemma HoldsSnoc<V>(chunk: seq<Entry<V>>, last: Entry<V>, name: string)
    ensures HoldsOther(chunk + [last], name) <==> HoldsOther(chunk, name) || last.key == OtherKey(name)
  {
    var all := chunk + [last];
    assert all[|chunk|] == last;
    if HoldsOther(chunk, name) {
      var e :| 0 <= e < |chunk| && chunk[e].key == OtherKey(name);
      assert all[e].key == OtherKey(name);
    }
  }

  lemma {:induction false} OtherInChunk<V>(dict: map<Key, V>, chunk: seq<Entry<V>>, cum: nat, name: string)
    ensures OtherKey(name) in PutAll(dict, chunk, cum) <==> OtherKey(name) in dict || HoldsOther(chunk, name)
    ensures OtherKey(name) in dict && !HoldsOther(chunk, name) ==>
              PutAll(dict, chunk, cum)[OtherKey(name)] == dict[OtherKey(name)]
    ensures forall e :: 0 <= e < |chunk| && chunk[e].key == OtherKey(name) && !HoldsOther(chunk[e + 1..], name) ==>
              OtherKey(name) in PutAll(dict, chunk, cum) && PutAll(dict, chunk, cum)[OtherKey(name)] == chunk[e].value
  {
    if chunk != [] {
      var init, last := chunk[..|chunk| - 1], chunk[|chunk| - 1];
      OtherInChunk(dict, init, cum, name);
      assert chunk == init + [last];
      HoldsSnoc(init, last, name);
      forall e | 0 <= e < |chunk| && chunk[e].key == OtherKey(name) && !HoldsOther(chunk[e + 1..], name)
        ensures OtherKey(name) in PutAll(dict, chunk, cum) && PutAll(dict, chunk, cum)[OtherKey(name)] == chunk[e].value
      {
        if e < |init| {
          assert init[e].key == OtherKey(name);
          assert chunk[e + 1..] == init[e + 1..] + [last];
          HoldsSnoc(init[e + 1..], last, name);
        }
      }
    }
  }

  lemma {:induction false} OthersKept<V>(start: nat, chunks: seq<seq<Entry<V>>>)
    ensures forall name ::
              OtherKey(name) in MergeDict(start, chunks) <==> exists c :: 0 <= c < |chunks| && HoldsOther(chunks[c], name)
    ensures forall c, e ::
              0 <= c < |chunks| && 0 <= e < |chunks[c]| && LastWithName(chunks, c, e) ==>
                var entry, dict := chunks[c][e], MergeDict(start, chunks);
                OtherKey(entry.key.name) in dict && dict[OtherKey(entry.key.name)] == entry.value
  {
    if chunks != [] {
      var init, last := chunks[..|chunks| - 1], chunks[|chunks| - 1];
      OthersKept(start, init);
      forall name
        ensures OtherKey(name) in MergeDict(start, chunks) <==> exists c :: 0 <= c < |chunks| && HoldsOther(chunks[c], name)
      {
        OtherInChunk(MergeDict(start, init), last, Offset(start, init), name);
        if c :| 0 <= c < |init| && HoldsOther(init[c], name) {
          assert HoldsOther(chunks[c], name);
        }
        if c :| 0 <= c < |chunks| && HoldsOther(chunks[c], name) {
          assert c < |init| ==> HoldsOther(init[c], name);
        }
      }
      forall c, e | 0 <= c < |chunks| && 0 <= e < |chunks[c]| && LastWithName(chunks, c, e)
        ensures var entry, dict := chunks[c][e], MergeDict(start, chunks);
                OtherKey(entry.key.name) in dict && dict[OtherKey(entry.key.name)] == entry.value
      {
        OtherInChunk(MergeDict(start, init), last, Offset(start, init), chunks[c][e].key.name);
        if c < |init| {
          assert LastWithName(init, c, e);
        }
      }
    }
  }

  /** Two layers of different chunks, or two of one chunk, never get one global number. */
  lemma GlobalLayersDistinct<V>(start: nat, chunks: seq<seq<Entry<V>>>, c: nat, l: nat, d: nat, m: nat)
    requires c < |chunks| && l <= Highest(chunks[c]) && d < |chunks| && m <= Highest(chunks[d])
    ensures GlobalLayer(start, chunks, c, l) == GlobalLayer(start, chunks, d, m) <==> c == d && l == m
  {
    if c < d {
      assert chunks[..d][..c] == chunks[..c];
      OffsetsIncrease(start, chunks[..d], c);
    } else if d < c {
      assert chunks[..c][..d] == chunks[..d];
      OffsetsIncrease(start, chunks[..c], d);
    }
  }

  // ---- every global layer is hit ----

  ghost predicate HasLayer<V>(chunk: seq<Entry<V>>, l: nat) {
    exists e :: 0 <= e < |chunk| && chunk[e].key.LayerKey? && chunk[e].key.layer == l
  }

  /** Chunk c has local layers 0..counts[c]-1. */
  ghost predicate HasLayers<V>(chunks: seq<seq<Entry<V>>>, counts: seq<nat>) {
    && |counts| == |chunks|
    && forall c, l: nat :: 0 <= c < |chunks| ==> (HasLayer(chunks[c], l) <==> l < counts[c])
  }

  ghost predicate Hit<V>(start: nat, chunks: seq<seq<Entry<V>>>, g: nat) {
    exists c, l :: 0 <= c < |chunks| && HasLayer(chunks[c], l) && GlobalLayer(start, chunks, c, l) == g
  }

  function Sum(counts: seq<nat>): nat {
    if counts == [] then 0 else Sum(counts[..|counts| - 1]) + counts[|counts| - 1]
  }

  lemma {:induction false} HighestIs<V>(chunk: seq<Entry<V>>, k: nat)
    requires forall l: nat :: HasLayer(chunk, l) <==> l < k
    ensures Highest(chunk) == if k == 0 then 0 else k - 1
  {
    HighestAttained(chunk);
    if k > 0 {
      assert HasLayer(chunk, k - 1);
      var e :| 0 <= e < |chunk| && chunk[e].key.LayerKey? && chunk[e].key.layer == k - 1;
      HighestBounds(chunk, e);
    }
  }

  lemma {:induction false} HighestAttained<V>(chunk: seq<Entry<V>>)
    ensures Highest(chunk) > 0 ==> HasLayer(chunk, Highest(chunk))
  {
    if chunk != [] && Highest(chunk) > 0 {
      var init, key := chunk[..|chunk| - 1], chunk[|chunk| - 1].key;
      if key.LayerKey? && key.layer == Highest(chunk) {
        assert HasLayer(chunk, key.layer);
      } else {
        HighestAttained(init);
        var e :| 0 <= e < |init| && init[e].key.LayerKey? && init[e].key.layer == Highest(init);
        assert chunk[e] == init[e];
      }
    }
  }

  /** No chunk without layers comes before one with layers. */
  ghost predicate EmptyOnlyAtEnd(counts: seq<nat>) {
    forall c, d :: 0 <= c < d < |counts| && counts[c] == 0 ==> counts[d] == 0
  }

  /** While no empty chunk has been passed the offset is the number of layers so far. */
  lemma {:induction false} OffsetIsSum<V>(start: nat, chunks: seq<seq<Entry<V>>>, counts: seq<nat>, c: nat)
    requires HasLayers(chunks, counts) && c <= |chunks| && forall d :: 0 <= d < c ==> counts[d] > 0
    ensures Offset(start, chunks[..c]) == start + Sum(counts[..c])
  {
    if c > 0 {
      OffsetIsSum(start, chunks, counts, c - 1);
      assert chunks[..c][..c - 1] == chunks[..c - 1] && counts[..c][..c - 1] == counts[..c - 1];
      HighestIs(chunks[c - 1], counts[c - 1]);
    }
  }

  lemma {:induction false} SumPrefix(counts: seq<nat>, c: nat, d: nat)
    requires c <= d <= |counts|
    ensures Sum(counts[..c]) <= Sum(counts[..d])
    ensures d > c ==> Sum(counts[..c]) + counts[d - 1] <= Sum(counts[..d])
  {
    if c < d {
      SumPrefix(counts, c, d - 1);
      assert counts[..d][..d - 1] == counts[..d - 1];
    }
  }

  /** Where among the chunks a global layer belongs. */
  lemma {:induction false} Locate(counts: seq<nat>, x: nat) returns (c: nat)
    requires x < Sum(counts)
    ensures c < |counts| && Sum(counts[..c]) <= x < Sum(counts[..c]) + counts[c]
  {
    var init := counts[..|counts| - 1];
    if x < Sum(init) {
      c := Locate(init, x);
      assert init[..c] == counts[..c];
    } else {
      c := |counts| - 1;
    }
  }

  /** Exactly the layers start..start+total-1 are hit, if and only if no chunk without layers
      comes before one with layers; such a chunk would take up a number of its own. */
  lemma NumberingIsOnto<V>(start: nat, chunks: seq<seq<Entry<V>>>, counts: seq<nat>)
    requires HasLayers(chunks, counts)
    ensures (forall g: nat :: Hit(start, chunks, g) <==> start <= g < start + Sum(counts)) <==> EmptyOnlyAtEnd(counts)
  {
    if EmptyOnlyAtEnd(counts) {
      forall g: nat ensures Hit(start, chunks, g) <==> start <= g < start + Sum(counts) {
        if Hit(start, chunks, g) {
          HitInRange(start, chunks, counts, g);
        }
        if start <= g < start + Sum(counts) {
          RangeIsHit(start, chunks, counts, g);
        }
      }
    } else {
      GapAtEmpty(start, chunks, counts);
    }
  }

  lemma HitInRange<V>(start: nat, chunks: seq<seq<Entry<V>>>, counts: seq<nat>, g: nat)
    requires HasLayers(chunks, counts) && EmptyOnlyAtEnd(counts) && Hit(start, chunks, g)
    ensures start <= g < start + Sum(counts)
  {
    var c, l :| 0 <= c < |chunks| && HasLayer(chunks[c], l) && GlobalLayer(start, chunks, c, l) == g;
    assert counts[c] > 0;
    OffsetIsSum(start, chunks, counts, c);
    SumPrefix(counts, c + 1, |counts|);
    assert counts[..|counts|] == counts && counts[..c + 1][..c] == counts[..c];
  }

  lemma RangeIsHit<V>(start: nat, chunks: seq<seq<Entry<V>>>, counts: seq<nat>, g: nat)
    requires HasLayers(chunks, counts) && EmptyOnlyAtEnd(counts) && start <= g < start + Sum(counts)
    ensures Hit(start, chunks, g)
  {
    var c := Locate(counts, g - start);
    assert counts[c] > 0;
    OffsetIsSum(start, chunks, counts, c);
    var l := g - start - Sum(counts[..c]);
    assert HasLayer(chunks[c], l) && GlobalLayer(start, chunks, c, l) == g;
  }

  /** The number the first empty chunk takes up belongs to no layer. */
  lemma GapAtEmpty<V>(start: nat, chunks: seq<seq<Entry<V>>>, counts: seq<nat>)
    requires HasLayers(chunks, counts) && !EmptyOnlyAtEnd(counts)
    ensures exists g: nat :: start <= g < start + Sum(counts) && !Hit(start, chunks, g)
  {
    hide HasLayer, Offset, Highest, Sum;
    var c, d :| 0 <= c < d < |counts| && counts[c] == 0 && counts[d] != 0;
    var f := FirstEmpty(counts, c);
    GapInRange(counts, f, d);
    OffsetIsSum(start, chunks, counts, f);
    var g := Offset(start, chunks[..f]);
    assert GlobalLayer(start, chunks, f, 0) == g;
    if Hit(start, chunks, g) {
      var e, l :| 0 <= e < |chunks| && HasLayer(chunks[e], l) && GlobalLayer(start, chunks, e, l) == g;
      NotOfEmpty(start, chunks, counts, e, l, f);
      assert false;
    }
  }

  lemma GapInRange(counts: seq<nat>, f: nat, d: nat)
    requires f < d < |counts| && counts[d] != 0
    ensures Sum(counts[..f]) < Sum(counts)
  {
    SumPrefix(counts, f, d + 1);
    SumPrefix(counts, d + 1, |counts|);
    assert counts[..|counts|] == counts;
  }

  /** No layer has the number that an empty chunk takes up. */
  lemma NotOfEmpty<V>(start: nat, chunks: seq<seq<Entry<V>>>, counts: seq<nat>, e: nat, l: nat, f: nat)
    requires HasLayers(chunks, counts) && f < |chunks| && counts[f] == 0 && e < |chunks| && HasLayer(chunks[e], l)
    ensures GlobalLayer(start, chunks, e, l) != GlobalLayer(start, chunks, f, 0)
  {
    HighestIs(chunks[e], counts[e]);
    HighestIs(chunks[f], counts[f]);
    GlobalLayersDistinct(start, chunks, e, l, f, 0);
  }

  lemma {:induction false} FirstEmpty(counts: seq<nat>, c: nat) returns (f: nat)
    requires c < |counts| && counts[c] == 0
    ensures f <= c && counts[f] == 0 && forall d :: 0 <= d < f ==> counts[d] > 0
  {
    if b :| 0 <= b < c && counts[b] == 0 {
      f := FirstEmpty(counts, b);
    } else {
      f := c;
    }
  }

  /** Rank r of the distributed merge starts at the layers of the ranks before it. */
  ghost predicate HitByRank<V>(shards: seq<nat>, chunks: seq<seq<seq<Entry<V>>>>, r: nat, g: nat)
    requires r < |shards| == |chunks|
  {
    Hit(Sum(shards[..r]), chunks[r], g)
  }

  /** When every rank holds as many layers as its pipeline shard, and no chunk without layers before
      one with layers, every layer of the model is produced by exactly one rank. */
  lemma RanksCoverOnce<V>(shards: seq<nat>, chunks: seq<seq<seq<Entry<V>>>>, counts: seq<seq<nat>>, g: nat) returns (rank: nat)
    requires |shards| == |chunks| == |counts| && g < Sum(shards)
    requires forall r :: 0 <= r < |shards| ==>
               HasLayers(chunks[r], counts[r]) && EmptyOnlyAtEnd(counts[r]) && Sum(counts[r]) == shards[r]
    ensures rank < |shards|
    ensures forall r: nat :: r < |shards| ==> (HitByRank(shards, chunks, r, g) <==> r == rank)
  {
    rank := Locate(shards, g);
    forall r: nat | r < |shards| ensures HitByRank(shards, chunks, r, g) <==> r == rank {
      NumberingIsOnto(Sum(shards[..r]), chunks[r], counts[r]);
      if r < rank {
        SumPrefix(shards, r + 1, rank);
        assert shards[..r + 1][..r] == shards[..r];
      } else if rank < r {
        SumPrefix(shards, rank + 1, r);
        assert shards[..rank + 1][..rank] == shards[..rank];
      }
    }
  }
}
