/** The NCCL sender and receiver loops over their two buffers. A broadcast in flight may read the
    sender's buffer, and write the receiver's, at any time up to the wait for it. */
module NcclTransfer {
  import opened Basics
  import opened Packing
  import opened Buckets
  import opened Filling

  /** A broadcast in flight on the sender's side: the buffer it reads and its metadata. */
  datatype Operation = Operation(bucket: array<Byte>, meta: BucketMeta, isLast: bool)

  /** One completed broadcast. */
  datatype Packet = Packet(meta: BucketMeta, isLast: bool, bytes: seq<Byte>)

  ghost predicate Carries(p: Packet, b: Bucket, isLast: bool, size: nat) {
    |p.bytes| == size && Holds(p.bytes, b) && p.meta == MetaOf(b) && p.isLast == isLast
  }

  /** Broadcast k carries bucket k of the packing, and only the last is marked as the last. */
  ghost predicate CarriesAll(sent: seq<Packet>, bs: seq<Bucket>, size: nat) {
    && |sent| <= |bs|
    && forall k :: 0 <= k < |sent| ==> Carries(sent[k], bs[k], k == |bs| - 1, size)
  }

  ghost predicate IsTransfer(ws: seq<Weight>, size: nat, sent: seq<Packet>) {
    |sent| == |Pack(ws, size, [])| && CarriesAll(sent, Pack(ws, size, []), size)
  }

  method CopyIn(a: array<Byte>, at: nat, bytes: seq<Byte>)
    requires at + |bytes| <= a.Length
    modifies a
    ensures a[..] == Overwrite(old(a[..]), at, bytes)
  {
    forall j | 0 <= j < |bytes| {
      a[at + j] := bytes[j];
    }
    assert a[..] == Overwrite(old(a[..]), at, bytes);
  }

  /** The sender. It fails exactly when a weight does not fit in a bucket; otherwise broadcast k
      carries bucket k of the greedy packing. `inFlight` is what the buffer of the pending
      broadcast held when the broadcast began: it holds the same when the broadcast is awaited,
      so it does not matter when in between it is read. */
  method SendWeights(ws: seq<Weight>, size: nat, sendBuf: array<Byte>, recvBuf: array<Byte>)
    returns (ok: bool, sent: seq<Packet>)
    requires sendBuf != recvBuf && sendBuf.Length == recvBuf.Length == size
    modifies sendBuf, recvBuf
    ensures ok <==> AllFit(ws, size)
    ensures ok ==> IsTransfer(ws, size, sent)
  {
    hide FillingInv, Carries, NBytes, Put, MetaAt, Pack;
    var send, recv := sendBuf, recvBuf;
    var op: Option<Operation> := None;
    var meta: BucketMeta, offset: nat := [], 0;
    sent := [];
    ghost var bs, posted: nat := Pack(ws, size, []), 0;
    ghost var filled: Bucket, inFlight: seq<Byte> := [], [];
    FillingStarts(ws, size, send[..]);
    for i := 0 to |ws|
      invariant (send == sendBuf && recv == recvBuf) || (send == recvBuf && recv == sendBuf)
      invariant FillingInv(ws, size, posted, i, filled, offset, meta, send[..])
      invariant AllFit(ws[..i], size)
      invariant posted < |bs| && |sent| == (if op.Some? then posted - 1 else posted)
      invariant CarriesAll(sent, bs, size)
      invariant op.Some? ==>
                  op.value.bucket == recv && recv[..] == inFlight && posted > 0
                  && Carries(Packet(op.value.meta, op.value.isLast, inFlight), bs[posted - 1], false, size)
    {
      var w := ws[i];
      if offset + |w.bytes| > size {
        if op.Some? {
          sent := sent + [Packet(op.value.meta, op.value.isLast, op.value.bucket[..])];
        }
        ClosesNext(ws, size, posted, i, filled, offset, meta, send[..], recv[..]);
        op, inFlight := Some(Operation(send, meta, false)), send[..];
        send, recv := recv, send;
        meta, offset := [], 0;
        posted, filled := posted + 1, [];
      }
      if offset + |w.bytes| > size {
        return false, sent;
      }
      FillKeeps(ws, size, posted, i, filled, offset, meta, send[..]);
      meta := Put(meta, MetaAt(w, offset));
      CopyIn(send, offset, w.bytes);
      offset, filled := offset + |w.bytes|, filled + [w];
    }
    assert ws[..|ws|] == ws;
    if op.Some? {
      sent := sent + [Packet(op.value.meta, op.value.isLast, op.value.bucket[..])];
    }
    ClosesNext(ws, size, posted, |ws|, filled, offset, meta, send[..], recv[..]);
    op := Some(Operation(send, meta, true));
    sent := sent + [Packet(op.value.meta, op.value.isLast, op.value.bucket[..])];
    ok := true;
  }

  /** A bucket that is closed is the next bucket of the packing. */
  lemma ClosesNext(ws: seq<Weight>, size: nat, posted: nat, next: nat, filled: Bucket, offset: nat, meta: BucketMeta,
                   buf: seq<Byte>, other: seq<Byte>)
    requires FillingInv(ws, size, posted, next, filled, offset, meta, buf) && |buf| == size
    requires next == |ws| || offset + |ws[next].bytes| > size
    ensures posted < |Pack(ws, size, [])|
    ensures next == |ws| <==> posted == |Pack(ws, size, [])| - 1
    ensures Carries(Packet(meta, next == |ws|, buf), Pack(ws, size, [])[posted], next == |ws|, size)
    ensures next < |ws| && |ws[next].bytes| <= size ==>
              FillingInv(ws, size, posted + 1, next, [], 0, [], other)
  {
    hide Pack, Bytes, Total, MetaOf, NBytes;
    ClosesBucket(ws, size, posted, next, filled, offset, meta, buf, other);
  }

  // ---- the receiver ----

  /** What the receiver relies on: whole buffers, entries inside them, and one last broadcast. */
  ghost predicate Readable(wire: seq<Packet>, size: nat) {
    && wire != []
    && forall k :: 0 <= k < |wire| ==>
         |wire[k].bytes| == size && InBounds(wire[k].meta, size) && (wire[k].isLast <==> k == |wire| - 1)
  }

  function Unpacked(wire: seq<Packet>, size: nat, count: nat): seq<Weight>
    requires Readable(wire, size) && count <= |wire|
  {
    if count == 0 then [] else Unpacked(wire, size, count - 1) + Unpack(wire[count - 1].meta, wire[count - 1].bytes)
  }

  /** Every entry of every broadcast can be viewed. */
  ghost predicate Viewable(wire: seq<Packet>) {
    forall k :: 0 <= k < |wire| ==> AllAligned(wire[k].meta)
  }

  lemma {:induction false} UnpackedGrows(wire: seq<Packet>, size: nat, m: nat, n: nat)
    requires Readable(wire, size) && m <= n <= |wire|
    ensures Unpacked(wire, size, m) <= Unpacked(wire, size, n)
    ensures m < n ==> Unpacked(wire, size, m) + Unpack(wire[m].meta, wire[m].bytes) <= Unpacked(wire, size, n)
  {
    hide Unpack;
    if m < n - 1 {
      UnpackedGrows(wire, size, m, n - 1);
    }
  }

  /** Hands out the tensors of one bucket, each a view of the buffer, until one cannot be viewed. */
  method YieldAll(meta: BucketMeta, buf: array<Byte>, yielded: seq<Weight>) returns (ok: bool, r: seq<Weight>)
    requires InBounds(meta, buf.Length)
    ensures ok <==> AllAligned(meta)
    ensures yielded <= r <= yielded + Unpack(meta, buf[..])
    ensures ok ==> r == yielded + Unpack(meta, buf[..])
  {
    ok, r := true, yielded;
    for j := 0 to |meta|
      invariant r == yielded + Unpack(meta, buf[..])[..j]
      invariant forall i :: 0 <= i < j ==> meta[i].Aligned()
    {
      if !meta[j].Aligned() {
        return false, r;
      }
      r := r + [View(meta[j], buf[..])];
    }
  }

  /** One bucket of a transfer, from a buffer that holds it. */
  method YieldPacket(ghost wire: seq<Packet>, ghost size: nat, ghost k: nat, meta: BucketMeta, buf: array<Byte>,
                     yielded: seq<Weight>)
    returns (ok: bool, r: seq<Weight>)
    requires Readable(wire, size) && k < |wire| && meta == wire[k].meta && buf[..] == wire[k].bytes
    requires yielded == Unpacked(wire, size, k)
    ensures ok <==> AllAligned(wire[k].meta)
    ensures ok ==> r == Unpacked(wire, size, k + 1)
    ensures r <= Unpacked(wire, size, |wire|)
  {
    hide InBounds, View, AllAligned, Unpack;
    ok, r := YieldAll(meta, buf, yielded);
    UnpackedGrows(wire, size, k, |wire|);
  }

  lemma Whole(wire: seq<Packet>, size: nat, k: nat)
    requires Readable(wire, size) && k < |wire|
    ensures |wire[k].bytes| == size && (wire[k].isLast <==> k == |wire| - 1)
  {
  }

  /** The receiver. While a broadcast is in flight its buffer may hold anything, and the tensors
      of the bucket before are handed out from the other buffer all the same. It fails exactly when
      some entry cannot be viewed; otherwise it takes part in as many broadcasts as there are, and
      hands out every entry of each, in order. */
  method ReceiveWeights(wire: seq<Packet>, size: nat, sendBuf: array<Byte>, recvBuf: array<Byte>)
    returns (ok: bool, yielded: seq<Weight>, received: nat)
    requires sendBuf != recvBuf && sendBuf.Length == recvBuf.Length == size
    requires Readable(wire, size)
    modifies sendBuf, recvBuf
    ensures ok <==> Viewable(wire)
    ensures ok ==> received == |wire| && yielded == Unpacked(wire, size, |wire|)
    ensures yielded <= Unpacked(wire, size, |wire|)
  {
    hide Readable, AllAligned, Unpacked;
    var send, recv := sendBuf, recvBuf;
    Started(wire, size);
    ok, yielded, received := true, [], 0;
    modify recv;
    Whole(wire, size, 0);
    CopyIn(recv, 0, wire[0].bytes);
    received := 1;
    var meta, isLast := wire[0].meta, wire[0].isLast;
    send, recv := recv, send;
    assert send[..] == wire[0].bytes;
    while !isLast
      invariant (send == sendBuf && recv == recvBuf) || (send == recvBuf && recv == sendBuf)
      invariant ok && 1 <= received <= |wire|
      invariant meta == wire[received - 1].meta && isLast == wire[received - 1].isLast
      invariant isLast <==> received == |wire|
      invariant send[..] == wire[received - 1].bytes
      invariant yielded == Unpacked(wire, size, received - 1)
      invariant forall k :: 0 <= k < received - 1 ==> AllAligned(wire[k].meta)
      decreases |wire| - received
    {
      modify recv;
      ok, yielded := YieldPacket(wire, size, received - 1, meta, send, yielded);
      if !ok {
        return;
      }
      Whole(wire, size, received);
      CopyIn(recv, 0, wire[received].bytes);
      meta, isLast := wire[received].meta, wire[received].isLast;
      received := received + 1;
      send, recv := recv, send;
      assert send[..] == wire[received - 1].bytes;
    }
    ok, yielded := YieldPacket(wire, size, received - 1, meta, send, yielded);
  }

  lemma Started(wire: seq<Packet>, size: nat)
    requires Readable(wire, size)
    ensures wire != [] && Unpacked(wire, size, 0) == []
  {
  }

  /** What a sender sends a receiver can read, and unpacking it delivers the packing. */
  lemma TransferReadable(ws: seq<Weight>, size: nat, sent: seq<Packet>)
    requires AllFit(ws, size) && IsTransfer(ws, size, sent)
    ensures Readable(sent, size)
    ensures Unpacked(sent, size, |sent|) == Delivered(Pack(ws, size, []))
  {
    hide Pack, MetaOf, Bytes;
    var bs := Pack(ws, size, []);
    PackFits(ws, size, []);
    hide Total;
    forall k | 0 <= k < |sent|
      ensures |sent[k].bytes| == size && InBounds(sent[k].meta, size) && (sent[k].isLast <==> k == |sent| - 1)
    {
      assert Carries(sent[k], bs[k], k == |bs| - 1, size);
      MetaShape(bs[k]);
    }
    UnpackedIsDelivered(sent, bs, size, |sent|);
    assert bs[..|sent|] == bs;
  }

  lemma {:induction false} UnpackedIsDelivered(sent: seq<Packet>, bs: seq<Bucket>, size: nat, count: nat)
    requires Readable(sent, size) && CarriesAll(sent, bs, size) && count <= |sent|
    ensures Unpacked(sent, size, count) == Delivered(bs[..count])
  {
    hide MetaOf, Received, Unpack, InBounds;
    if count > 0 {
      UnpackedIsDelivered(sent, bs, size, count - 1);
      var p, b := sent[count - 1], bs[count - 1];
      assert Carries(p, b, count - 1 == |bs| - 1, size);
      UnpackIsReceived(b, p.bytes);
      DeliveredSnoc(bs[..count - 1], b);
      assert bs[..count] == bs[..count - 1] + [b];
    }
  }

  lemma UnpackIsReceived(b: Bucket, buf: seq<Byte>)
    requires Holds(buf, b)
    ensures InBounds(MetaOf(b), |buf|)
    ensures Unpack(MetaOf(b), buf) == Received(b)
  {
    hide MetaOf;
    UnpackPrefix(b, buf);
  }

  lemma {:induction false} DeliveredSnoc(bs: seq<Bucket>, b: Bucket)
    ensures Delivered(bs + [b]) == Delivered(bs) + Received(b)
  {
    hide Received;
    if bs == [] {
      assert Delivered([b]) == Received(b) + Delivered([]);
    } else {
      assert (bs + [b])[1..] == bs[1..] + [b];
      DeliveredSnoc(bs[1..], b);
    }
  }

  lemma ViewableIff(sent: seq<Packet>, bs: seq<Bucket>, size: nat)
    requires |sent| == |bs| && CarriesAll(sent, bs, size)
    ensures Viewable(sent) <==> EntriesAligned(bs)
  {
    hide AllAligned, MetaOf;
    assert forall k :: 0 <= k < |sent| ==> Carries(sent[k], bs[k], k == |bs| - 1, size);
  }

  /** Sending and then receiving hands over the weights, in order and once each, exactly when no
      bucket holds two weights of one name and every weight starts at a multiple of its item size. */
  lemma TransferDelivers(ws: seq<Weight>, size: nat, sent: seq<Packet>)
    requires AllFit(ws, size) && IsTransfer(ws, size, sent)
    ensures Readable(sent, size)
    ensures Viewable(sent) && Unpacked(sent, size, |sent|) == ws
            <==> NamesDistinctWithinBuckets(Pack(ws, size, [])) && AlignedBuckets(Pack(ws, size, []))
  {
    var bs := Pack(ws, size, []);
    hide Pack, DistinctNames, AlignedBuckets, EntriesAligned, Viewable, CarriesAll, NamesDistinctWithinBuckets;
    TransferReadable(ws, size, sent);
    DeliveredRestores(ws, size);
    ViewableIff(sent, bs, size);
    AlignedWhenDistinct(bs);
  }
}
