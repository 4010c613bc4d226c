/** The open bucket of a sender: what is in the buffer, and what the weights still to come will
    be packed into. Shared by the NIXL and the NCCL sender. */
module Filling {
  import opened Packing
  import opened Buckets

  function Overwrite(buf: seq<Byte>, at: nat, bytes: seq<Byte>): (r: seq<Byte>)
    requires at + |bytes| <= |buf|
    ensures |r| == |buf|
  {
    buf[..at] + bytes + buf[at + |bytes|..]
  }

  /** The buffer starts with the bytes of the bucket. */
  ghost predicate Holds(buf: seq<Byte>, b: Bucket) {
    Bytes(b) <= buf
  }

  /** `posted` buckets of the packing are closed, `next` weights consumed, and those of `filled`
      are in the open bucket. */
  ghost predicate FillingInv(ws: seq<Weight>, size: nat, posted: nat, next: nat, filled: Bucket, offset: nat,
                             meta: BucketMeta, buf: seq<Byte>)
  {
    && posted < |Pack(ws, size, [])| && next <= |ws|
    && Pack(ws, size, [])[posted..] == Pack(ws[next..], size, filled)
    && offset == Total(filled) <= size
    && meta == MetaOf(filled)
    && Holds(buf, filled)
  }

  lemma FillingStarts(ws: seq<Weight>, size: nat, buf: seq<Byte>)
    ensures FillingInv(ws, size, 0, 0, [], 0, [], buf)
  {
    assert ws[0..] == ws;
  }

  /** One more weight in the open bucket. */
  lemma FillKeeps(ws: seq<Weight>, size: nat, posted: nat, next: nat, filled: Bucket, offset: nat, meta: BucketMeta,
                  buf: seq<Byte>)
    requires FillingInv(ws, size, posted, next, filled, offset, meta, buf)
    requires next < |ws| && offset + |ws[next].bytes| <= size == |buf|
    ensures var w := ws[next];
            FillingInv(ws, size, posted, next + 1, filled + [w], offset + |w.bytes|, Put(meta, MetaAt(w, offset)),
                       Overwrite(buf, offset, w.bytes))
  {
    hide NBytes, Total, Bytes;
    var w := ws[next];
    TotalSnoc(filled, w);
    assert ws[next..][0] == w && ws[next..][1..] == ws[next + 1..];
    assert (filled + [w])[..|filled|] == filled;
    assert Pack(ws[next..], size, filled) == Pack(ws[next + 1..], size, filled + [w]);
    hide Pack;
    assert MetaOf(filled + [w]) == Put(MetaOf(filled), MetaAt(w, Total(filled)));
    hide MetaOf, MetaAt, Put;
    assert Bytes(filled) + w.bytes <= Overwrite(buf, offset, w.bytes);
  }

  /** When the next weight does not fit, or there is none, the open bucket is the next bucket of
      the packing; and what is left to pack starts a new one. */
  lemma ClosesBucket(ws: seq<Weight>, size: nat, posted: nat, next: nat, filled: Bucket, offset: nat, meta: BucketMeta,
                     buf: seq<Byte>, other: seq<Byte>)
    requires FillingInv(ws, size, posted, next, filled, offset, meta, buf)
    requires next == |ws| || offset + |ws[next].bytes| > size
    ensures Pack(ws, size, [])[posted] == filled
    ensures next == |ws| <==> posted == |Pack(ws, size, [])| - 1
    ensures next < |ws| && |ws[next].bytes| <= size ==>
              FillingInv(ws, size, posted + 1, next, [], 0, [], other)
  {
    hide NBytes;
    var bs, rest := Pack(ws, size, []), ws[next..];
    assert bs[posted] == bs[posted..][0];
    if next < |ws| {
      assert rest[1..] == ws[next + 1..] && [] + [rest[0]] == [rest[0]];
      var tail := Pack(rest[1..], size, [rest[0]]);
      assert bs[posted..] == [filled] + tail;
      assert bs[posted + 1..] == bs[posted..][1..];
      if |ws[next].bytes| <= size {
        assert Pack(rest, size, []) == tail;
      }
    }
  }
}
