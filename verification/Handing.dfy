/** How far a receiver has got in handing out the tensors of a transfer, bucket by bucket. */
module Handing {
  import opened Packing
  import opened Buckets
  import opened Filling

  /** How many tensors a receiver has handed out before bucket b. */
  function Start(bs: seq<Bucket>, b: nat): nat
    requires b <= |bs|
  {
    if b == 0 then 0 else Start(bs, b - 1) + |MetaOf(bs[b - 1])|
  }

  /** Entry k of the dictionary of bucket b can be viewed. */
  ghost predicate CanView(bs: seq<Bucket>, b: nat, k: nat)
    requires b < |bs|
  {
    k < |MetaOf(bs[b])| && MetaOf(bs[b])[k].Aligned()
  }

  /** The rank has handed out all tensors of the buckets before b, and j of bucket b. */
  ghost predicate Handed(bs: seq<Bucket>, yielded: seq<Weight>, b: nat, j: nat) {
    && b <= |bs| && (b == |bs| ==> j == 0)
    && yielded <= Delivered(bs) && |yielded| == Start(bs, b) + j
    && (forall c :: 0 <= c < b ==> AllAligned(MetaOf(bs[c])))
    && (b < |bs| ==> forall k: nat :: k < j ==> CanView(bs, b, k))
  }

  lemma HandedNothing(bs: seq<Bucket>)
    requires bs != []
    ensures Handed(bs, [], 0, 0)
  {
  }

  /** A bucket all handed out is the start of the next. */
  lemma HandedBucket(bs: seq<Bucket>, yielded: seq<Weight>, b: nat)
    requires b < |bs| && Handed(bs, yielded, b, |MetaOf(bs[b])|)
    ensures Handed(bs, yielded, b + 1, 0)
  {
    hide MetaOf, Delivered;
    forall k | 0 <= k < |MetaOf(bs[b])| ensures MetaOf(bs[b])[k].Aligned() {
      assert CanView(bs, b, k);
    }
  }

  /** All buckets handed out: everything is delivered, and every entry could be viewed. */
  lemma HandedAll(bs: seq<Bucket>, yielded: seq<Weight>)
    requires Handed(bs, yielded, |bs|, 0)
    ensures yielded == Delivered(bs) && EntriesAligned(bs)
  {
    StartOfEnd(bs);
  }

  /** The tensor viewed in the sending buffer is the next one to deliver. */
  lemma YieldsNext(bs: seq<Bucket>, b: nat, j: nat, yielded: seq<Weight>, buf: seq<Byte>)
    requires b < |bs| && j < |MetaOf(bs[b])| && Holds(buf, bs[b])
    requires Handed(bs, yielded, b, j)
    ensures MetaOf(bs[b])[j].End() <= |buf|
    ensures MetaOf(bs[b])[j].Aligned() ==> Handed(bs, yielded + [View(MetaOf(bs[b])[j], buf)], b, j + 1)
  {
    hide Start, MetaOf, Delivered, Bytes, Received, View;
    ViewIsReceived(bs[b], buf, j);
    DeliveredAt(bs, b, j);
  }

  /** Where the tensors of bucket b lie in the whole delivery. */
  lemma {:induction false} DeliveredAt(bs: seq<Bucket>, b: nat, j: nat)
    requires b < |bs| && j < |MetaOf(bs[b])|
    ensures Start(bs, b) + j < |Delivered(bs)|
    ensures Delivered(bs)[Start(bs, b) + j] == Received(bs[b])[j]
  {
    hide Received, MetaOf;
    if b > 0 {
      DeliveredAt(bs[1..], b - 1, j);
      StartShift(bs, b);
    }
  }

  lemma {:induction false} StartShift(bs: seq<Bucket>, b: nat)
    requires 0 < b <= |bs|
    ensures Start(bs, b) == |MetaOf(bs[0])| + Start(bs[1..], b - 1)
  {
    if b > 1 {
      StartShift(bs, b - 1);
      assert bs[1..][b - 2] == bs[b - 1];
    }
  }

  lemma {:induction false} StartOfEnd(bs: seq<Bucket>)
    ensures Start(bs, |bs|) == |Delivered(bs)|
  {
    if bs != [] {
      StartOfEnd(bs[1..]);
      StartShift(bs, |bs|);
    }
  }
}
