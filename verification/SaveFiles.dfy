/** How the distributed save numbers its files: every pipeline rank writes one or two files for
    each of its layers, and spreads its parameters over them. */
module SaveFiles {
  import opened Basics
  import opened Arith
  import opened Numbering

  /** `np.array_split(keys, n)`: the first |keys| % n parts get one more than the others. */
  function PartStart(len: nat, n: nat, i: nat): (r: nat)
    requires n > 0
  {
    MulLe(0, i, len / n);
    i * (len / n) + (if i < len % n then i else len % n)
  }

  lemma PartStartSteps(len: nat, n: nat, i: nat)
    requires n > 0 && i < n
    ensures PartStart(len, n, i) <= PartStart(len, n, i + 1) <= len
    ensures PartStart(len, n, i + 1) == PartStart(len, n, i) + len / n + (if i < len % n then 1 else 0)
  {
    MulPlus(len / n, i, 1);
    assert (i + 1) * (len / n) == i * (len / n) + len / n;
    MulLe(i + 1, n, len / n);
    DivMod(len, n);
    assert n * (len / n) == len / n * n;
  }

  lemma PartStartEnds(len: nat, n: nat)
    requires n > 0
    ensures PartStart(len, n, 0) == 0 && PartStart(len, n, n) == len
  {
    DivMod(len, n);
    assert n * (len / n) == len / n * n;
  }

  function Part<K>(keys: seq<K>, n: nat, i: nat): seq<K>
    requires n > 0 && i < n
  {
    PartStartSteps(|keys|, n, i);
    keys[PartStart(|keys|, n, i)..PartStart(|keys|, n, i + 1)]
  }

  function ArraySplit<K>(keys: seq<K>, n: nat): (r: seq<seq<K>>)
    requires n > 0
    ensures |r| == n
  {
    seq(n, i requires 0 <= i < n => Part(keys, n, i))
  }

  lemma {:induction false} StartsInOrder(len: nat, n: nat, i: nat, j: nat)
    requires n > 0 && i <= j <= n
    ensures PartStart(len, n, i) <= PartStart(len, n, j)
  {
    if i < j {
      StartsInOrder(len, n, i, j - 1);
      PartStartSteps(len, n, j - 1);
    }
  }

  /** The part that position p of the keys falls into. */
  lemma {:induction false} PartOf(len: nat, n: nat, p: nat, bound: nat) returns (i: nat)
    requires 0 < bound <= n && p < PartStart(len, n, bound)
    ensures i < bound && PartStart(len, n, i) <= p < PartStart(len, n, i + 1)
  {
    PartStartEnds(len, n);
    if bound > 1 && p < PartStart(len, n, bound - 1) {
      i := PartOf(len, n, p, bound - 1);
    } else {
      i := bound - 1;
    }
  }

  ghost predicate Distinct<K>(keys: seq<K>) {
    forall i, j :: 0 <= i < j < |keys| ==> keys[i] != keys[j]
  }

  /** Every key is in exactly one part. */
  lemma KeyInOnePart<K>(keys: seq<K>, n: nat, p: nat) returns (i: nat)
    requires n > 0 && p < |keys| && Distinct(keys)
    ensures i < n && forall j :: 0 <= j < n ==> (keys[p] in ArraySplit(keys, n)[j] <==> j == i)
  {
    hide PartStart;
    PartStartEnds(|keys|, n);
    i := PartOf(|keys|, n, p, n);
    forall j | 0 <= j < n ensures keys[p] in ArraySplit(keys, n)[j] <==> j == i {
      InPart(keys, n, p, j);
      if j < i {
        StartsInOrder(|keys|, n, j + 1, i);
      } else if i < j {
        StartsInOrder(|keys|, n, i + 1, j);
      }
    }
  }

  lemma InPart<K>(keys: seq<K>, n: nat, p: nat, j: nat)
    requires n > 0 && p < |keys| && j < n && Distinct(keys)
    ensures keys[p] in ArraySplit(keys, n)[j] <==> PartStart(|keys|, n, j) <= p < PartStart(|keys|, n, j + 1)
  {
    hide PartStart;
    PartStartSteps(|keys|, n, j);
    var lo, part := PartStart(|keys|, n, j), Part(keys, n, j);
    if lo <= p < PartStart(|keys|, n, j + 1) {
      assert part[p - lo] == keys[p];
    }
    if keys[p] in part {
      var q :| 0 <= q < |part| && part[q] == keys[p];
      assert keys[lo + q] == keys[p];
    }
  }

  function PerLayer(layers: nat): nat {
    if layers < 30 then 1 else 2
  }

  /** The first file of a rank, counted from zero. */
  function FirstFile(shards: seq<nat>, rank: nat, perLayer: nat): nat
    requires rank <= |shards|
  {
    Sum(shards[..rank]) * perLayer
  }

  function FileCount(shards: seq<nat>, rank: nat, perLayer: nat): nat
    requires rank < |shards|
  {
    shards[rank] * perLayer
  }

  /** One file a layer below 30 layers, two from 30 on. */
  lemma TwoFromThirty(shards: seq<nat>, rank: nat, layers: nat)
    requires rank < |shards|
    ensures var first, count := FirstFile(shards, rank, PerLayer(layers)), FileCount(shards, rank, PerLayer(layers));
            && first == (if layers < 30 then Sum(shards[..rank]) else 2 * Sum(shards[..rank]))
            && count == (if layers < 30 then shards[rank] else 2 * shards[rank])
  {
  }

  /** The saving loop of one rank: which keys go to which file number, and the index of where
      every key is. */
  method SaveRank<K(==)>(keys: seq<K>, shards: seq<nat>, rank: nat, layers: nat)
    returns (files: map<nat, seq<K>>, index: map<K, nat>)
    requires rank < |shards| && shards[rank] > 0 && Distinct(keys)
    ensures var first, count := FirstFile(shards, rank, PerLayer(layers)), FileCount(shards, rank, PerLayer(layers));
            && (forall f :: f in files <==> first + 1 <= f <= first + count)
            && (count > 0 ==> forall i :: 0 <= i < count ==> files[first + i + 1] == ArraySplit(keys, count)[i])
    ensures var before, own := Sum(shards[..rank]), shards[rank];
            forall f :: f in files
              <==> if layers < 30 then before < f <= before + own else 2 * before < f <= 2 * (before + own)
    ensures forall k :: k in index <==> k in keys
    ensures forall k :: k in index ==> index[k] in files && k in files[index[k]]
    ensures forall k, f :: k in index && f in files && k in files[f] ==> f == index[k]
  {
    var perLayer := PerLayer(layers);
    var first, count := FirstFile(shards, rank, perLayer), FileCount(shards, rank, perLayer);
    assert count > 0 by {
      MulLe(1, shards[rank], perLayer);
    }
    TwoFromThirty(shards, rank, layers);
    hide FirstFile, FileCount, PerLayer, ArraySplit;
    var chunks := ArraySplit(keys, count);
    files, index := map[], map[];
    for i := 0 to count
      invariant forall f :: f in files <==> first + 1 <= f <= first + i
      invariant forall j :: 0 <= j < i ==> files[first + j + 1] == chunks[j]
      invariant forall k :: k in index <==> exists j :: 0 <= j < i && k in chunks[j]
      invariant forall k :: k in index ==> index[k] in files && k in files[index[k]]
    {
      files := files[first + i + 1 := chunks[i]];
      ghost var before := index;
      for q := 0 to |chunks[i]|
        invariant forall k :: k in index <==> k in before || k in chunks[i][..q]
        invariant forall k :: k in index ==> index[k] in files && k in files[index[k]]
      {
        index := index[chunks[i][q] := first + i + 1];
      }
      assert chunks[i][..|chunks[i]|] == chunks[i];
    }
    forall k ensures k in index <==> k in keys {
      KeysOfParts(keys, count, k);
    }
    forall k, f | k in index && f in files && k in files[f] ensures f == index[k] {
      KeysOfParts(keys, count, k);
      var p :| 0 <= p < |keys| && keys[p] == k;
      var i := KeyInOnePart(keys, count, p);
      assert k in chunks[f - first - 1] && k in chunks[index[k] - first - 1];
    }
  }

  lemma KeysOfParts<K>(keys: seq<K>, n: nat, k: K)
    requires n > 0 && Distinct(keys)
    ensures k in keys <==> exists j :: 0 <= j < n && k in ArraySplit(keys, n)[j]
  {
    if k in keys {
      var p :| 0 <= p < |keys| && keys[p] == k;
      var i := KeyInOnePart(keys, n, p);
      assert k in ArraySplit(keys, n)[i];
    }
    if j :| 0 <= j < n && k in ArraySplit(keys, n)[j] {
      PartStartSteps(|keys|, n, j);
      assert ArraySplit(keys, n)[j] == Part(keys, n, j);
    }
  }

  ghost predicate Writes(shards: seq<nat>, rank: nat, perLayer: nat, f: nat)
    requires rank < |shards|
  {
    FirstFile(shards, rank, perLayer) + 1 <= f <= FirstFile(shards, rank, perLayer) + FileCount(shards, rank, perLayer)
  }

  /** Over all ranks the file numbers are 1..saves_total, each written by exactly one rank. */
  lemma FilesOnce(shards: seq<nat>, layers: nat, f: nat) returns (rank: nat)
    requires Sum(shards) == layers && 1 <= f <= PerLayer(layers) * layers
    ensures rank < |shards|
    ensures forall r: nat :: r < |shards| ==> (Writes(shards, r, PerLayer(layers), f) <==> r == rank)
  {
    var p := PerLayer(layers);
    DivMod(f - 1, p);
    MulCancel((f - 1) / p, layers, p);
    rank := Locate(shards, (f - 1) / p);
    forall r: nat | r < |shards| ensures Writes(shards, r, p, f) <==> r == rank {
      WritesWhen(shards, r, p, f);
      if r < rank {
        SumPrefix(shards, r + 1, rank);
        assert shards[..r + 1][..r] == shards[..r];
      } else if rank < r {
        SumPrefix(shards, rank + 1, r);
        assert shards[..rank + 1][..rank] == shards[..rank];
      }
    }
  }

  lemma FilesInRange(shards: seq<nat>, layers: nat, r: nat, f: nat)
    requires Sum(shards) == layers && r < |shards| && Writes(shards, r, PerLayer(layers), f)
    ensures 1 <= f <= PerLayer(layers) * layers
  {
    var p := PerLayer(layers);
    WritesWhen(shards, r, p, f);
    SumPrefix(shards, r + 1, |shards|);
    assert shards[..|shards|] == shards && shards[..r + 1][..r] == shards[..r];
    QuotientBelow(f - 1, p, layers);
  }

  /** A rank writes the files of its own layers. */
  lemma WritesWhen(shards: seq<nat>, r: nat, p: nat, f: nat)
    requires r < |shards| && p > 0 && f >= 1
    ensures Writes(shards, r, p, f) <==> Sum(shards[..r]) <= (f - 1) / p < Sum(shards[..r]) + shards[r]
  {
    var q, s := (f - 1) / p, Sum(shards[..r]);
    DivMod(f - 1, p);
    MulPlus(p, s, shards[r]);
    assert (s + shards[r]) * p == s * p + shards[r] * p;
    QuotientBelow(f - 1, p, s);
    QuotientBelow(f - 1, p, s + shards[r]);
  }

  lemma QuotientBelow(x: nat, p: nat, s: nat)
    requires p > 0
    ensures x < s * p <==> x / p < s
  {
    DivMod(x, p);
    if x / p < s {
      MulStrict(x / p, s, p);
    } else {
      MulLe(s, x / p, p);
    }
  }

  // ---- all ranks ----

  /** The last rank that holds the key. */
  function LastHolder<K(==)>(keys: seq<seq<K>>, k: K): (r: Option<nat>)
    ensures r.Some? ==> r.value < |keys| && k in keys[r.value]
    ensures forall i :: 0 <= i < |keys| && k in keys[i] ==> r.Some? && i <= r.value
  {
    if keys == [] then None
    else
      var last := |keys| - 1;
      if k in keys[last] then Some(last)
      else
        assert forall i :: 0 <= i < last ==> keys[..last][i] == keys[i];
        LastHolder(keys[..last], k)
  }

  lemma LastHolderStep<K>(keys: seq<seq<K>>, i: nat, k: K)
    requires i < |keys|
    ensures LastHolder(keys[..i + 1], k) == if k in keys[i] then Some(i) else LastHolder(keys[..i], k)
  {
    assert keys[..i + 1][..i] == keys[..i];
  }

  /** What rank r puts into file f. */
  function Written<K>(keys: seq<seq<K>>, shards: seq<nat>, r: nat, p: nat, f: nat): seq<K>
    requires r < |keys| == |shards| && Writes(shards, r, p, f)
  {
    ArraySplit(keys[r], FileCount(shards, r, p))[f - FirstFile(shards, r, p) - 1]
  }

  ghost predicate HeldOnce<K>(keys: seq<seq<K>>, k: K) {
    forall r, s :: 0 <= r < |keys| && 0 <= s < |keys| && k in keys[r] && k in keys[s] ==> r == s
  }

  /** The first i ranks have written their files, and the index holds what theirs hold. */
  ghost predicate SavedUpTo<K(!new)>(keys: seq<seq<K>>, shards: seq<nat>, p: nat, i: nat,
                                     files: map<nat, seq<K>>, index: map<K, nat>)
    requires |keys| == |shards| && i <= |shards|
  {
    && (forall f :: f in files <==> 1 <= f <= Sum(shards[..i]) * p)
    && (forall r: nat, f: nat :: r < i && Writes(shards, r, p, f) ==> f in files && files[f] == Written(keys, shards, r, p, f))
    && (forall k :: k in index <==> LastHolder(keys[..i], k).Some?)
    && (forall k :: k in index ==> Located(keys, shards, p, LastHolder(keys[..i], k).value, k, index[k]))
  }

  /** File f is one of rank r's and holds the key. */
  ghost predicate Located<K>(keys: seq<seq<K>>, shards: seq<nat>, p: nat, r: nat, k: K, f: nat)
    requires r < |keys| == |shards|
  {
    Writes(shards, r, p, f) && k in Written(keys, shards, r, p, f)
  }

  /** What `SaveRank` leaves, in these words. */
  ghost predicate RankSaved<K(!new)>(keys: seq<seq<K>>, shards: seq<nat>, p: nat, r: nat,
                                     own: map<nat, seq<K>>, ownIndex: map<K, nat>)
    requires r < |keys| == |shards|
  {
    && (forall f: nat :: f in own <==> Writes(shards, r, p, f))
    && (forall f: nat :: Writes(shards, r, p, f) ==> own[f] == Written(keys, shards, r, p, f))
    && (forall k :: k in ownIndex <==> k in keys[r])
    && (forall k :: k in ownIndex ==> Located(keys, shards, p, r, k, ownIndex[k]))
  }

  lemma FilesSoFar(shards: seq<nat>, i: nat, p: nat)
    requires i < |shards|
    ensures FirstFile(shards, i, p) == Sum(shards[..i]) * p
    ensures FirstFile(shards, i, p) + FileCount(shards, i, p) == Sum(shards[..i + 1]) * p
  {
    assert shards[..i + 1][..i] == shards[..i];
    MulPlus(p, Sum(shards[..i]), shards[i]);
    assert (Sum(shards[..i]) + shards[i]) * p == Sum(shards[..i]) * p + shards[i] * p;
  }

  lemma NoneSaved<K(!new)>(keys: seq<seq<K>>, shards: seq<nat>, p: nat)
    requires |keys| == |shards|
    ensures SavedUpTo(keys, shards, p, 0, map[], map[])
  {
    assert shards[..0] == [] && keys[..0] == [];
  }

  /** One more rank. Its files come after all others, and its index entries replace older ones. */
  lemma SaveOneMore<K(!new)>(keys: seq<seq<K>>, shards: seq<nat>, p: nat, i: nat,
                       files: map<nat, seq<K>>, index: map<K, nat>, own: map<nat, seq<K>>, ownIndex: map<K, nat>)
    requires i < |keys| == |shards|
    requires SavedUpTo(keys, shards, p, i, files, index) && RankSaved(keys, shards, p, i, own, ownIndex)
    ensures SavedUpTo(keys, shards, p, i + 1, files + own, index + ownIndex)
  {
    hide ArraySplit, Sum, LastHolder, Written, Located;
    FilesSoFar(shards, i, p);
    assert forall f: nat :: Writes(shards, i, p, f) <==> Sum(shards[..i]) * p + 1 <= f <= Sum(shards[..i + 1]) * p;
    hide FirstFile, FileCount, Writes;
    forall k ensures LastHolder(keys[..i + 1], k) == if k in keys[i] then Some(i) else LastHolder(keys[..i], k) {
      LastHolderStep(keys, i, k);
    }
    forall r: nat, f: nat | r < i + 1 && Writes(shards, r, p, f)
      ensures f in files + own && (files + own)[f] == Written(keys, shards, r, p, f)
    {
      if r < i {
        assert f in files;
      }
    }
  }

  /** A key is in a file of every rank that holds it. */
  lemma InOwnFile<K>(keys: seq<seq<K>>, shards: seq<nat>, p: nat, r: nat, k: K) returns (f: nat)
    requires r < |keys| == |shards| && shards[r] > 0 && p > 0 && Distinct(keys[r]) && k in keys[r]
    ensures Located(keys, shards, p, r, k, f)
  {
    var first, count := FirstFile(shards, r, p), FileCount(shards, r, p);
    MulLe(1, shards[r], p);
    var q :| 0 <= q < |keys[r]| && keys[r][q] == k;
    hide FirstFile, FileCount, ArraySplit;
    var i := KeyInOnePart(keys[r], count, q);
    f := first + i + 1;
  }

  /** No rank has a key in two files, and the keys of its files are its own. */
  lemma OwnFiles<K>(keys: seq<seq<K>>, shards: seq<nat>, p: nat, r: nat, k: K, f: nat, g: nat)
    requires r < |keys| == |shards| && Distinct(keys[r])
    requires Located(keys, shards, p, r, k, f) && Located(keys, shards, p, r, k, g)
    ensures k in keys[r] && f == g
  {
    var first, count := FirstFile(shards, r, p), FileCount(shards, r, p);
    KeysOfParts(keys[r], count, k);
    assert k in ArraySplit(keys[r], count)[f - first - 1] && k in ArraySplit(keys[r], count)[g - first - 1];
    var q :| 0 <= q < |keys[r]| && keys[r][q] == k;
    hide FirstFile, FileCount, ArraySplit;
    var i := KeyInOnePart(keys[r], count, q);
  }

  /** The files that hold a key are those that its holders put it in. */
  lemma HolderOf<K(!new)>(keys: seq<seq<K>>, shards: seq<nat>, layers: nat, files: map<nat, seq<K>>, index: map<K, nat>,
                          k: K, f: nat) returns (r: nat)
    requires |keys| == |shards| && Sum(shards) == layers
    requires SavedUpTo(keys, shards, PerLayer(layers), |shards|, files, index) && f in files && k in files[f]
    ensures r < |shards| && Located(keys, shards, PerLayer(layers), r, k, f)
  {
    hide PerLayer, Written, Writes, LastHolder;
    assert shards[..|shards|] == shards;
    assert layers * PerLayer(layers) == PerLayer(layers) * layers;
    r := FilesOnce(shards, layers, f);
  }

  /** The file the index names is the only one with the key exactly when one rank holds the key. */
  lemma OneFileIff<K(!new)>(keys: seq<seq<K>>, shards: seq<nat>, layers: nat, files: map<nat, seq<K>>, index: map<K, nat>,
                            k: K)
    requires |keys| == |shards| && Sum(shards) == layers && k in index
    requires forall r :: 0 <= r < |shards| ==> shards[r] > 0 && Distinct(keys[r])
    requires SavedUpTo(keys, shards, PerLayer(layers), |shards|, files, index)
    ensures index[k] in files && k in files[index[k]]
    ensures (forall f :: f in files && k in files[f] ==> f == index[k]) <==> HeldOnce(keys, k)
  {
    hide Written, Writes, LastHolder, Distinct;
    var p := PerLayer(layers);
    assert keys[..|keys|] == keys;
    var last := LastHolder(keys, k).value;
    assert Located(keys, shards, p, last, k, index[k]);
    hide PerLayer;
    if HeldOnce(keys, k) {
      forall f | f in files && k in files[f] ensures f == index[k] {
        var r := HolderOf(keys, shards, layers, files, index, k, f);
        OwnFiles(keys, shards, p, r, k, f, f);
        OwnFiles(keys, shards, p, last, k, index[k], index[k]);
        OwnFiles(keys, shards, p, last, k, index[k], f);
      }
    } else {
      var r, s :| 0 <= r < |keys| && 0 <= s < |keys| && k in keys[r] && k in keys[s] && r != s;
      var other := if r == last then s else r;
      var f := InOwnFile(keys, shards, p, other, k);
      assert f in files && k in files[f];
      if f == index[k] {
        OneWriter(shards, layers, f, other, last);
      }
    }
  }

  lemma OneWriter(shards: seq<nat>, layers: nat, f: nat, r: nat, s: nat)
    requires Sum(shards) == layers && r < |shards| && s < |shards|
    requires Writes(shards, r, PerLayer(layers), f) && Writes(shards, s, PerLayer(layers), f)
    ensures r == s
  {
    hide Writes, PerLayer;
    FilesInRange(shards, layers, r, f);
    var rank := FilesOnce(shards, layers, f);
  }

  lemma IsRankSaved<K(!new)>(keys: seq<seq<K>>, shards: seq<nat>, p: nat, r: nat, own: map<nat, seq<K>>, ownIndex: map<K, nat>)
    requires r < |keys| == |shards| && FileCount(shards, r, p) > 0
    requires var first, count := FirstFile(shards, r, p), FileCount(shards, r, p);
             && (forall f :: f in own <==> first + 1 <= f <= first + count)
             && (forall i :: 0 <= i < count ==> own[first + i + 1] == ArraySplit(keys[r], count)[i])
    requires forall k :: k in ownIndex <==> k in keys[r]
    requires forall k :: k in ownIndex ==> ownIndex[k] in own && k in own[ownIndex[k]]
    ensures RankSaved(keys, shards, p, r, own, ownIndex)
  {
    hide FirstFile, FileCount, ArraySplit;
    var first, count := FirstFile(shards, r, p), FileCount(shards, r, p);
    forall f: nat | Writes(shards, r, p, f) ensures own[f] == Written(keys, shards, r, p, f) {
      assert own[first + (f - first - 1) + 1] == ArraySplit(keys[r], count)[f - first - 1];
    }
  }

  /** The ranks' saves and the index gathered from theirs, in which a later rank's entry replaces an
      earlier one's. The files are numbered from one without a gap; the index sends every key that
      some rank holds to a file of the last such rank; and this file is the only one with the key
      exactly when no other rank holds it. */
  method SaveAll<K(==, !new)>(keys: seq<seq<K>>, shards: seq<nat>, layers: nat)
    returns (files: map<nat, seq<K>>, index: map<K, nat>)
    requires |keys| == |shards| && Sum(shards) == layers
    requires forall r :: 0 <= r < |shards| ==> shards[r] > 0 && Distinct(keys[r])
    ensures forall f :: f in files <==> 1 <= f <= if layers < 30 then layers else 2 * layers
    ensures forall k :: k in index <==> LastHolder(keys, k).Some?
    ensures forall k :: k in index ==> Writes(shards, LastHolder(keys, k).value, PerLayer(layers), index[k])
    ensures forall k :: k in index ==> index[k] in files && k in files[index[k]]
    ensures forall k :: k in index ==>
              ((forall f :: f in files && k in files[f] ==> f == index[k]) <==> HeldOnce(keys, k))
  {
    ghost var p := PerLayer(layers);
    files, index := map[], map[];
    NoneSaved(keys, shards, p);
    hide SavedUpTo, RankSaved, Distinct, ArraySplit, FirstFile, LastHolder, HeldOnce, Writes, PerLayer;
    for i := 0 to |shards|
      invariant SavedUpTo(keys, shards, p, i, files, index)
    {
      assert FileCount(shards, i, p) > 0 by {
        PerLayerIs(layers);
        MulStrict(0, shards[i], p);
      }
      var own, ownIndex := SaveRank(keys[i], shards, i, layers);
      IsRankSaved(keys, shards, p, i, own, ownIndex);
      SaveOneMore(keys, shards, p, i, files, index, own, ownIndex);
      files, index := files + own, index + ownIndex;
    }
    SavedToTheEnd(keys, shards, layers, files, index);
    PerLayerIs(layers);
    forall k | k in index
      ensures index[k] in files && k in files[index[k]]
      ensures (forall f :: f in files && k in files[f] ==> f == index[k]) <==> HeldOnce(keys, k)
    {
      OneFileIff(keys, shards, layers, files, index, k);
    }
  }

  lemma PerLayerIs(layers: nat)
    ensures PerLayer(layers) > 0 && PerLayer(layers) * layers == if layers < 30 then layers else 2 * layers
  {
  }

  lemma SavedToTheEnd<K(!new)>(keys: seq<seq<K>>, shards: seq<nat>, layers: nat, files: map<nat, seq<K>>, index: map<K, nat>)
    requires |keys| == |shards| && Sum(shards) == layers
    requires SavedUpTo(keys, shards, PerLayer(layers), |shards|, files, index)
    ensures forall f :: f in files <==> 1 <= f <= PerLayer(layers) * layers
    ensures forall k :: k in index <==> LastHolder(keys, k).Some?
    ensures forall k :: k in index ==> Writes(shards, LastHolder(keys, k).value, PerLayer(layers), index[k])
  {
    hide PerLayer, Written, Writes, LastHolder;
    assert shards[..|shards|] == shards && keys[..|keys|] == keys;
    assert layers * PerLayer(layers) == PerLayer(layers) * layers;
  }

  /** No two ranks of a distributed merge produce a parameter of one layer. */
  lemma LayerKeyHeldOnce<V>(shards: seq<nat>, chunks: seq<seq<seq<Entry<V>>>>, counts: seq<seq<nat>>, r: nat, s: nat, k: Key)
    requires |shards| == |chunks| == |counts| && r < |shards| && s < |shards| && k.LayerKey?
    requires forall r :: 0 <= r < |shards| ==>
               HasLayers(chunks[r], counts[r]) && EmptyOnlyAtEnd(counts[r]) && Sum(counts[r]) == shards[r]
    requires k in MergeDict(Sum(shards[..r]), chunks[r]) && k in MergeDict(Sum(shards[..s]), chunks[s])
    ensures r == s
  {
    hide HasLayers, EmptyOnlyAtEnd, MergeDict;
    LayerKeyIsHit(shards, chunks, counts, r, k);
    LayerKeyIsHit(shards, chunks, counts, s, k);
    var rank := RanksCoverOnce(shards, chunks, counts, k.layer);
  }

  lemma LayerKeyIsHit<V>(shards: seq<nat>, chunks: seq<seq<seq<Entry<V>>>>, counts: seq<seq<nat>>, r: nat, k: Key)
    requires |shards| == |chunks| == |counts| && r < |shards| && k.LayerKey?
    requires HasLayers(chunks[r], counts[r]) && EmptyOnlyAtEnd(counts[r]) && Sum(counts[r]) == shards[r]
    requires k in MergeDict(Sum(shards[..r]), chunks[r])
    ensures HitByRank(shards, chunks, r, k.layer) && k.layer < Sum(shards)
  {
    hide HasLayers, EmptyOnlyAtEnd, MergeDict;
    var start := Sum(shards[..r]);
    NothingAdded(start, chunks[r], k.layer, k.field);
    var c, e :| 0 <= c < |chunks[r]| && 0 <= e < |chunks[r][c]| && ComesFrom(start, chunks[r], c, e, k.layer, k.field);
    assert HasLayer(chunks[r][c], chunks[r][c][e].key.layer);
    HitInRange(start, chunks[r], counts[r], k.layer);
    SumPrefix(shards, r + 1, |shards|);
    assert shards[..|shards|] == shards && shards[..r + 1][..r] == shards[..r];
  }

  /** A distributed merge saved by all ranks: every parameter of a layer is in exactly one file, to
      which the index sends it, and so is every other parameter that only one rank holds. */
  method SaveMerged<V>(chunks: seq<seq<seq<Entry<V>>>>, keys: seq<seq<Key>>, shards: seq<nat>, layers: nat,
                       ghost counts: seq<seq<nat>>)
    returns (files: map<nat, seq<Key>>, index: map<Key, nat>)
    requires |keys| == |shards| == |chunks| == |counts| && Sum(shards) == layers
    requires forall r :: 0 <= r < |shards| ==> shards[r] > 0 && Distinct(keys[r])
    requires forall r :: 0 <= r < |shards| ==>
               HasLayers(chunks[r], counts[r]) && EmptyOnlyAtEnd(counts[r]) && Sum(counts[r]) == shards[r]
    requires forall r, k :: 0 <= r < |shards| ==> (k in keys[r] <==> k in MergeDict(Sum(shards[..r]), chunks[r]))
    ensures forall r, k :: 0 <= r < |shards| && k in keys[r] && (k.LayerKey? || HeldOnce(keys, k)) ==>
              k in index && forall f :: f in files && k in files[f] <==> f == index[k]
  {
    hide PerLayer, Distinct, HasLayers, EmptyOnlyAtEnd, MergeDict, Writes;
    forall k: Key | k.LayerKey? ensures HeldOnce(keys, k) {
      forall r, s | 0 <= r < |keys| && 0 <= s < |keys| && k in keys[r] && k in keys[s] ensures r == s {
        LayerKeyHeldOnce(shards, chunks, counts, r, s, k);
      }
    }
    files, index := SaveAll(keys, shards, layers);
  }
}
