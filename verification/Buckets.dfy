/** What travels with a bucket: an ordered dictionary from tensor name to shape, dtype and
    byte offset. The receiver slices the buffer by it, entry by entry. */
module Buckets {
  import opened Arith
  import opened Basics
  import opened Packing

  datatype TensorMeta = TensorMeta(name: string, shape: seq<nat>, dtype: Dtype, offset: nat) {
    function End(): nat {
      offset + NBytes(shape, dtype)
    }

    /** `view(dtype)` of bytes needs a storage offset that is a multiple of the item size. */
    predicate Aligned() {
      offset % dtype.ItemSize() == 0
    }
  }

  /** A Python dictionary keyed by `name`, in insertion order. */
  type BucketMeta = seq<TensorMeta>

  /** `d[m.name] = m`: a present key keeps its place and gets the new value. */
  function Put(d: BucketMeta, m: TensorMeta): BucketMeta {
    if d == [] then [m]
    else if d[0].name == m.name then [m] + d[1..]
    else [d[0]] + Put(d[1..], m)
  }

  function MetaAt(w: Weight, offset: nat): TensorMeta {
    TensorMeta(w.name, w.shape, w.dtype, offset)
  }

  /** The dictionary the sender has built once the tensors of `b` are in the buffer. */
  function MetaOf(b: Bucket): BucketMeta {
    if b == [] then []
    else
      var init := b[..|b| - 1];
      Put(MetaOf(init), MetaAt(b[|b| - 1], Total(init)))
  }

  ghost predicate InBounds(d: BucketMeta, n: nat) {
    forall i :: 0 <= i < |d| ==> d[i].End() <= n
  }

  ghost predicate AllAligned(d: BucketMeta) {
    forall i :: 0 <= i < |d| ==> d[i].Aligned()
  }

  /** The tensor the receiver sees in the buffer for one dictionary entry, if it can be viewed. */
  function View(m: TensorMeta, buf: seq<Byte>): Weight
    requires m.End() <= |buf|
  {
    Weight(m.name, m.shape, m.dtype, buf[m.offset..m.End()])
  }

  function Unpack(d: BucketMeta, buf: seq<Byte>): (r: seq<Weight>)
    requires InBounds(d, |buf|)
    ensures |r| == |d|
  {
    seq(|d|, i requires 0 <= i < |d| => View(d[i], buf))
  }

  ghost predicate DistinctNames(b: seq<Weight>) {
    forall i, j :: 0 <= i < j < |b| ==> b[i].name != b[j].name
  }

  ghost predicate HasName(b: seq<Weight>, name: string) {
    exists i :: 0 <= i < |b| && b[i].name == name
  }

  ghost predicate Named(d: BucketMeta, name: string) {
    exists i :: 0 <= i < |d| && d[i].name == name
  }

  lemma {:induction false} PutEffect(d: BucketMeta, m: TensorMeta)
    ensures Named(d, m.name) ==> |Put(d, m)| == |d|
    ensures !Named(d, m.name) ==> Put(d, m) == d + [m]
    ensures forall name :: Named(Put(d, m), name) <==> Named(d, name) || name == m.name
    ensures forall i :: 0 <= i < |Put(d, m)| ==> Put(d, m)[i] == m || (i < |d| && Put(d, m)[i] == d[i])
  {
    if d == [] {
      assert Put(d, m)[0] == m;
    } else if d[0].name == m.name {
      assert Put(d, m)[0] == m;
      forall name ensures Named(Put(d, m), name) <==> Named(d, name) || name == m.name {
        NamedCons(d[0], d[1..], name);
        NamedCons(m, d[1..], name);
        assert d == [d[0]] + d[1..];
      }
    } else {
      PutEffect(d[1..], m);
      assert d == [d[0]] + d[1..];
      forall name ensures Named(Put(d, m), name) <==> Named(d, name) || name == m.name {
        NamedCons(d[0], d[1..], name);
        NamedCons(d[0], Put(d[1..], m), name);
      }
    }
  }

  lemma NamedCons(m: TensorMeta, d: BucketMeta, name: string)
    ensures Named([m] + d, name) <==> m.name == name || Named(d, name)
  {
    if Named(d, name) {
      var i :| 0 <= i < |d| && d[i].name == name;
      assert ([m] + d)[i + 1].name == name;
    }
    if m.name == name {
      assert ([m] + d)[0].name == name;
    }
  }

  /** Every entry of a bucket's dictionary lies inside the bytes of the bucket; the
      dictionary names exactly the tensors of the bucket; and it has an entry for each
      tensor only when their names are distinct. */
  lemma {:induction false} MetaShape(b: Bucket)
    ensures InBounds(MetaOf(b), Total(b))
    ensures forall name :: Named(MetaOf(b), name) <==> HasName(b, name)
    ensures |MetaOf(b)| <= |b|
    ensures |MetaOf(b)| == |b| <==> DistinctNames(b)
  {
    if b != [] {
      var init, last := b[..|b| - 1], b[|b| - 1];
      var m := MetaAt(last, Total(init));
      MetaShape(init);
      PutEffect(MetaOf(init), m);
      hide Put;
      if Named(MetaOf(init), m.name) {
        var i :| 0 <= i < |init| && init[i].name == m.name;
        assert b[i].name == b[|b| - 1].name;
      } else if DistinctNames(init) {
        forall i, j | 0 <= i < j < |b| ensures b[i].name != b[j].name {
          assert b[i] == init[i];
          if j < |b| - 1 {
            assert b[j] == init[j];
          }
        }
      } else {
        var i, j :| 0 <= i < j < |init| && init[i].name == init[j].name;
        assert b[i].name == b[j].name;
      }
      forall name ensures Named(MetaOf(b), name) <==> HasName(b, name) {
        HasNameSnoc(b, name);
      }
    }
  }

  lemma HasNameSnoc(b: Bucket, name: string)
    requires b != []
    ensures HasName(b, name) <==> HasName(b[..|b| - 1], name) || b[|b| - 1].name == name
  {
    var init := b[..|b| - 1];
    if HasName(init, name) {
      var i :| 0 <= i < |init| && init[i].name == name;
      assert b[i].name == name;
    }
    if HasName(b, name) {
      var i :| 0 <= i < |b| && b[i].name == name;
      if i < |init| {
        assert init[i].name == name;
      }
    }
  }

  /** With distinct names the entries are contiguous, in order, and partition the bytes of
      the bucket: entry j starts where entry j - 1 ends. */
  lemma {:induction false} MetaLayout(b: Bucket)
    requires DistinctNames(b)
    ensures |MetaOf(b)| == |b|
    ensures forall j :: 0 <= j < |b| ==> MetaOf(b)[j] == MetaAt(b[j], Total(b[..j]))
  {
    if b != [] {
      var init, last := b[..|b| - 1], b[|b| - 1];
      assert DistinctNames(init);
      MetaLayout(init);
      MetaShape(init);
      PutEffect(MetaOf(init), MetaAt(last, Total(init)));
      assert !Named(MetaOf(init), last.name);
      forall j | 0 <= j < |b| ensures MetaOf(b)[j] == MetaAt(b[j], Total(b[..j])) {
        if j < |init| {
          assert init[..j] == b[..j];
        }
      }
    }
  }

  lemma BytesAt(b: Bucket, j: nat)
    requires j < |b|
    ensures Total(b[..j]) + |b[j].bytes| <= Total(b)
    ensures Bytes(b)[Total(b[..j])..Total(b[..j]) + |b[j].bytes|] == b[j].bytes
  {
    hide NBytes, Total, Bytes;
    assert b == b[..j + 1] + b[j + 1..];
    TotalPrefix(b[..j + 1], b[j + 1..]);
    assert b[..j + 1] == b[..j] + [b[j]];
    TotalSnoc(b[..j], b[j]);
  }

  /** The slices of a buffer that starts with the bytes of a bucket are the tensors of the bucket
      exactly when their names are distinct. */
  lemma SlicesRestore(b: Bucket, buf: seq<Byte>)
    requires Bytes(b) <= buf
    ensures InBounds(MetaOf(b), |buf|)
    ensures Unpack(MetaOf(b), buf) == b <==> DistinctNames(b)
  {
    hide NBytes, Total, Bytes, MetaOf;
    MetaShape(b);
    if DistinctNames(b) {
      MetaLayout(b);
      hide DistinctNames;
      forall j | 0 <= j < |b| ensures Unpack(MetaOf(b), buf)[j] == b[j] {
        BytesAt(b, j);
        var lo := Total(b[..j]);
        assert buf[lo..lo + |b[j].bytes|] == Bytes(b)[lo..lo + |b[j].bytes|];
      }
    }
  }

  /** Every tensor of the bucket starts at a multiple of its own item size. */
  ghost predicate AlignedBucket(b: Bucket) {
    forall j :: 0 <= j < |b| ==> Total(b[..j]) % b[j].dtype.ItemSize() == 0
  }

  /** Every entry of a bucket's dictionary is that of one of its tensors. */
  lemma {:induction false} EntryOfTensor(b: Bucket, i: nat) returns (j: nat)
    requires i < |MetaOf(b)|
    ensures j < |b| && MetaOf(b)[i] == MetaAt(b[j], Total(b[..j]))
  {
    var init, last := b[..|b| - 1], b[|b| - 1];
    PutEffect(MetaOf(init), MetaAt(last, Total(init)));
    if MetaOf(b)[i] == MetaAt(last, Total(init)) {
      j := |b| - 1;
    } else {
      j := EntryOfTensor(init, i);
      assert init[..j] == b[..j];
    }
  }

  lemma MetaAligned(b: Bucket)
    ensures AlignedBucket(b) ==> AllAligned(MetaOf(b))
    ensures DistinctNames(b) && AllAligned(MetaOf(b)) ==> AlignedBucket(b)
  {
    hide MetaOf, Total, NBytes, DistinctNames;
    if AlignedBucket(b) {
      forall i | 0 <= i < |MetaOf(b)| ensures MetaOf(b)[i].Aligned() {
        var j := EntryOfTensor(b, i);
      }
    }
    if DistinctNames(b) && AllAligned(MetaOf(b)) {
      MetaLayout(b);
      forall j | 0 <= j < |b| ensures Total(b[..j]) % b[j].dtype.ItemSize() == 0 {
        assert MetaOf(b)[j].Aligned();
      }
    }
  }

  /** What a receiver gets out of one buffer: nothing when some entry cannot be viewed. */
  ghost function ReceiveBucket(d: BucketMeta, buf: seq<Byte>): Option<seq<Weight>>
    requires InBounds(d, |buf|)
  {
    if AllAligned(d) then Some(Unpack(d, buf)) else None
  }

  /** Unpacking a buffer that starts with the bytes of a bucket returns the tensors of the bucket
      exactly when their names are distinct and each starts at a multiple of its item size. */
  lemma UnpackRestores(b: Bucket, buf: seq<Byte>)
    requires Bytes(b) <= buf
    ensures InBounds(MetaOf(b), |buf|)
    ensures ReceiveBucket(MetaOf(b), buf) == Some(b) <==> DistinctNames(b) && AlignedBucket(b)
  {
    hide Unpack, MetaOf, DistinctNames, AlignedBucket, AllAligned;
    SlicesRestore(b, buf);
    MetaAligned(b);
  }

  /** What a receiver reads does not depend on the bytes after the bucket's own. */
  lemma UnpackPrefix(b: Bucket, buf: seq<Byte>)
    requires Bytes(b) <= buf
    ensures InBounds(MetaOf(b), |buf|) && InBounds(MetaOf(b), Total(b))
    ensures Unpack(MetaOf(b), buf) == Unpack(MetaOf(b), Bytes(b))
  {
    hide MetaOf, Total, Bytes, NBytes, Named, HasName, DistinctNames;
    MetaShape(b);
    var d := MetaOf(b);
    forall i | 0 <= i < |d| ensures View(d[i], buf) == View(d[i], Bytes(b)) {
      assert buf[d[i].offset..d[i].End()] == Bytes(b)[d[i].offset..d[i].End()];
    }
  }

  /** The tensors that a bucket's dictionary and bytes describe. */
  function Received(b: Bucket): (r: seq<Weight>)
    ensures |r| == |MetaOf(b)|
  {
    MetaShape(b);
    Unpack(MetaOf(b), Bytes(b))
  }

  lemma ViewIsReceived(b: Bucket, buf: seq<Byte>, j: nat)
    requires Bytes(b) <= buf && j < |MetaOf(b)|
    ensures MetaOf(b)[j].End() <= |buf|
    ensures View(MetaOf(b)[j], buf) == Received(b)[j]
  {
    hide MetaOf, Bytes;
    UnpackPrefix(b, buf);
    assert Unpack(MetaOf(b), buf)[j] == View(MetaOf(b)[j], buf);
  }

  /** The tensors that the dictionaries and bytes of a whole transfer describe. */
  function Delivered(buckets: seq<Bucket>): seq<Weight> {
    if buckets == [] then [] else Received(buckets[0]) + Delivered(buckets[1..])
  }

  ghost predicate NamesDistinctWithinBuckets(buckets: seq<Bucket>) {
    forall i :: 0 <= i < |buckets| ==> DistinctNames(buckets[i])
  }

  lemma ReceivedIsBucket(b: Bucket)
    ensures Received(b) == b <==> DistinctNames(b)
    ensures |Received(b)| <= |b|
    ensures |Received(b)| == |b| <==> DistinctNames(b)
  {
    MetaShape(b);
    SlicesRestore(b, Bytes(b));
  }

  lemma {:induction false} DeliveredLength(buckets: seq<Bucket>)
    ensures |Delivered(buckets)| <= |Flatten(buckets)|
    ensures |Delivered(buckets)| == |Flatten(buckets)| ==> NamesDistinctWithinBuckets(buckets)
    ensures NamesDistinctWithinBuckets(buckets) ==> Delivered(buckets) == Flatten(buckets)
  {
    if buckets != [] {
      ReceivedIsBucket(buckets[0]);
      DeliveredLength(buckets[1..]);
      var tail := buckets[1..];
      if NamesDistinctWithinBuckets(tail) && DistinctNames(buckets[0]) {
        forall i | 0 <= i < |buckets| ensures DistinctNames(buckets[i]) {
          if i > 0 {
            assert buckets[i] == tail[i - 1];
          }
        }
      }
      if NamesDistinctWithinBuckets(buckets) {
        forall i | 0 <= i < |tail| ensures DistinctNames(tail[i]) {
          assert tail[i] == buckets[i + 1];
        }
      }
    }
  }

  /** What is described is the weight sequence exactly when no bucket holds a name twice. */
  lemma DeliveredRestores(ws: seq<Weight>, size: nat)
    ensures Delivered(Pack(ws, size, [])) == ws
            <==> NamesDistinctWithinBuckets(Pack(ws, size, []))
    ensures DistinctNames(ws) ==> Delivered(Pack(ws, size, [])) == ws
  {
    var buckets := Pack(ws, size, []);
    PackKeepsOrder(ws, size, []);
    assert [] + ws == ws;
    DeliveredLength(buckets);
    if DistinctNames(ws) {
      DistinctParts(buckets);
    }
  }

  /** No dictionary of the transfer has an entry that cannot be viewed. */
  ghost predicate EntriesAligned(buckets: seq<Bucket>) {
    forall i :: 0 <= i < |buckets| ==> AllAligned(MetaOf(buckets[i]))
  }

  ghost predicate AlignedBuckets(buckets: seq<Bucket>) {
    forall i :: 0 <= i < |buckets| ==> AlignedBucket(buckets[i])
  }

  /** What a receiver gets out of a whole transfer, if it can view every entry. */
  ghost function ReceiveAll(buckets: seq<Bucket>): Option<seq<Weight>> {
    if buckets == [] then Some([])
    else
      MetaShape(buckets[0]);
      var first, rest := ReceiveBucket(MetaOf(buckets[0]), Bytes(buckets[0])), ReceiveAll(buckets[1..]);
      if first.Some? && rest.Some? then Some(first.value + rest.value) else None
  }

  lemma {:induction false} ReceiveAllIs(buckets: seq<Bucket>)
    ensures ReceiveAll(buckets) == if EntriesAligned(buckets) then Some(Delivered(buckets)) else None
  {
    hide AllAligned, MetaOf, Unpack, Bytes;
    if buckets != [] {
      var tail := buckets[1..];
      MetaShape(buckets[0]);
      ReceiveAllIs(tail);
      assert EntriesAligned(buckets) <==> AllAligned(MetaOf(buckets[0])) && EntriesAligned(tail) by {
        assert forall i :: 0 <= i < |tail| ==> tail[i] == buckets[i + 1];
        assert forall i :: 0 < i < |buckets| ==> buckets[i] == tail[i - 1];
      }
    }
  }

  lemma AlignedWhenDistinct(buckets: seq<Bucket>)
    ensures AlignedBuckets(buckets) ==> EntriesAligned(buckets)
    ensures NamesDistinctWithinBuckets(buckets) && EntriesAligned(buckets) ==> AlignedBuckets(buckets)
  {
    hide AlignedBucket, AllAligned, MetaOf, DistinctNames;
    forall i | 0 <= i < |buckets|
      ensures AlignedBucket(buckets[i]) ==> AllAligned(MetaOf(buckets[i]))
      ensures DistinctNames(buckets[i]) && AllAligned(MetaOf(buckets[i])) ==> AlignedBucket(buckets[i])
    {
      MetaAligned(buckets[i]);
    }
  }

  /** The whole transfer hands over the weight sequence, in order and once each, exactly when no
      bucket holds two tensors of one name and every tensor starts at a multiple of its item size. */
  lemma TransferRestores(ws: seq<Weight>, size: nat)
    ensures ReceiveAll(Pack(ws, size, [])) == Some(ws)
            <==> NamesDistinctWithinBuckets(Pack(ws, size, [])) && AlignedBuckets(Pack(ws, size, []))
  {
    hide Pack, Delivered, NamesDistinctWithinBuckets, AlignedBuckets, EntriesAligned;
    DeliveredRestores(ws, size);
    ReceiveAllIs(Pack(ws, size, []));
    AlignedWhenDistinct(Pack(ws, size, []));
  }

  // ---- when tensors are aligned ----

  /** A number of bytes that every item size divides and that divides every tensor. */
  ghost predicate IsUnit(ws: seq<Weight>, unit: nat)
  {
    && unit > 0
    && forall i :: 0 <= i < |ws| ==> unit % ws[i].dtype.ItemSize() == 0 && |ws[i].bytes| % unit == 0
  }

  lemma {:induction false} TotalOfUnits(b: Bucket, unit: nat)
    requires IsUnit(b, unit)
    ensures Total(b) % unit == 0
  {
    hide NBytes;
    if b != [] {
      var init := b[..|b| - 1];
      assert IsUnit(init, unit);
      TotalOfUnits(init, unit);
      MultiplesAdd(Total(init), |b[|b| - 1].bytes|, unit);
    }
  }

  /** With such a unit every packing, into buckets of any size, is aligned. */
  lemma UnitAligns(ws: seq<Weight>, size: nat, unit: nat)
    requires IsUnit(ws, unit)
    ensures AlignedBuckets(Pack(ws, size, []))
  {
    hide NBytes, Total;
    var buckets := Pack(ws, size, []);
    PackKeepsOrder(ws, size, []);
    assert [] + ws == ws;
    forall i, j | 0 <= i < |buckets| && 0 <= j < |buckets[i]|
      ensures Total(buckets[i][..j]) % buckets[i][j].dtype.ItemSize() == 0
    {
      UnitOfPart(buckets, i, unit);
      assert IsUnit(buckets[i][..j], unit);
      TotalOfUnits(buckets[i][..j], unit);
      MultipleOfMultiple(Total(buckets[i][..j]), unit, buckets[i][j].dtype.ItemSize());
    }
  }

  lemma {:induction false} UnitOfPart(buckets: seq<Bucket>, i: nat, unit: nat)
    requires i < |buckets| && IsUnit(Flatten(buckets), unit)
    ensures IsUnit(buckets[i], unit)
  {
    hide NBytes;
    var all, rest := Flatten(buckets), Flatten(buckets[1..]);
    if i == 0 {
      assert forall k :: 0 <= k < |buckets[0]| ==> all[k] == buckets[0][k];
    } else {
      assert forall k :: 0 <= k < |rest| ==> all[|buckets[0]| + k] == rest[k];
      UnitOfPart(buckets[1..], i - 1, unit);
    }
  }

  /** Weights of one dtype are always aligned. */
  lemma OneDtypeAligns(ws: seq<Weight>, size: nat, dtype: Dtype)
    requires forall i :: 0 <= i < |ws| ==> ws[i].dtype == dtype
    ensures AlignedBuckets(Pack(ws, size, []))
  {
    hide Pack, AlignedBuckets;
    forall i | 0 <= i < |ws|
      ensures dtype.ItemSize() % ws[i].dtype.ItemSize() == 0 && |ws[i].bytes| % dtype.ItemSize() == 0
    {
      Quotient(|ws[i].bytes|, dtype.ItemSize(), Numel(ws[i].shape), 0);
    }
    UnitAligns(ws, size, dtype.ItemSize());
  }

  /** Two weights that fit one bucket are packed into one. */
  lemma PackPair(a: Weight, b: Weight, size: nat)
    requires |a.bytes| + |b.bytes| <= size
    ensures Pack([a, b], size, []) == [[a, b]]
  {
    assert [a, b][1..] == [b] && [b][1..] == [] && [] + [a] == [a] && [a] + [b] == [a, b];
    assert Total([a]) == |a.bytes|;
    assert Pack([b], size, [a]) == Pack([], size, [a, b]);
  }

  lemma PairOf(a: Weight, b: Weight)
    ensures [a, b][..1] == [a] && Total([a]) == |a.bytes|
    ensures MetaOf([a, b]) == Put([MetaAt(a, 0)], MetaAt(b, |a.bytes|))
    ensures Bytes([a, b]) == a.bytes + b.bytes
  {
    hide NBytes, Put;
    assert [a, b][..1] == [a] && [a][..0] == [];
    assert Bytes([a]) == [] + a.bytes == a.bytes;
    assert MetaOf([a]) == Put([], MetaAt(a, 0));
    OnePut(MetaAt(a, 0));
  }

  lemma OnePut(m: TensorMeta)
    ensures Put([], m) == [m]
  {
  }

  /** One byte and then a float of four: the names are distinct, and the float cannot be viewed. */
  lemma MisalignedTensorFails()
    ensures var a := Weight("a", [1], UInt8, [1]);
            var b := Weight("b", [1], Float32, [2, 3, 4, 5]);
            Pack([a, b], 8, []) == [[a, b]] && DistinctNames([a, b]) && ReceiveAll([[a, b]]) == None
  {
    assert Numel([1]) == 1 * Numel([1][1..]);
    var a: Weight := Weight("a", [1], UInt8, [1]);
    var b: Weight := Weight("b", [1], Float32, [2, 3, 4, 5]);
    PackPair(a, b, 8);
    PairOf(a, b);
    hide Pack, MetaOf, Bytes;
    assert !AlignedBucket([a, b]) by {
      assert Total([a, b][..1]) % [a, b][1].dtype.ItemSize() == 1;
    }
    MetaAligned([a, b]);
    ReceiveAllIs([[a, b]]);
    assert !AllAligned(MetaOf([[a, b]][0]));
  }

  lemma {:induction false} DistinctParts(buckets: seq<Bucket>)
    requires DistinctNames(Flatten(buckets))
    ensures NamesDistinctWithinBuckets(buckets)
  {
    if buckets != [] {
      var all, tail := Flatten(buckets), Flatten(buckets[1..]);
      forall i, j | 0 <= i < j < |tail| ensures tail[i].name != tail[j].name {
        assert tail[i] == all[|buckets[0]| + i] && tail[j] == all[|buckets[0]| + j];
      }
      DistinctParts(buckets[1..]);
      forall i | 0 <= i < |buckets| ensures DistinctNames(buckets[i]) {
        if i == 0 {
          forall k, l | 0 <= k < l < |buckets[0]| ensures buckets[0][k].name != buckets[0][l].name {
            assert buckets[0][k] == all[k] && buckets[0][l] == all[l];
          }
        } else {
          assert buckets[i] == buckets[1..][i - 1];
        }
      }
    }
  }

  /** Two tensors of one name in one bucket: the first is lost. */
  lemma DuplicateNameLosesTensor()
    ensures var a := Weight("w", [1], UInt8, [1]);
            var b := Weight("w", [1], UInt8, [2]);
            Pack([a, b], 8, []) == [[a, b]] && Delivered([[a, b]]) == [b]
  {
    var a: Weight := Weight("w", [1], UInt8, [1]);
    var b: Weight := Weight("w", [1], UInt8, [2]);
    PackPair(a, b, 8);
    PairOf(a, b);
    MetaShape([a, b]);
    hide Pack, MetaOf, Bytes, Total;
    assert MetaOf([a, b]) == [MetaAt(b, 1)];
    var r := Received([a, b]);
    assert r[0] == View(MetaAt(b, 1), [1, 2]);
    assert [1, 2][1..2] == [2];
    assert r == [b];
    assert [[a, b]][1..] == [];
  }
}
