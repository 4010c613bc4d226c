/** The bucket allocator shared by the NCCL and the NIXL weight sender: tensors are packed
    greedily, in order, into buckets of at most `size` bytes; each bucket travels with an
    ordered dictionary that says where each tensor lies in the buffer. */
module Packing {
  import opened Basics

  type Byte = n: int | 0 <= n < 256

  datatype Dtype = UInt8 | BFloat16 | Float32 | Int64 {
    function ItemSize(): (r: nat)
      ensures r > 0
    {
      match this
      case UInt8 => 1
      case BFloat16 => 2
      case Float32 => 4
      case Int64 => 8
    }
  }

  lemma ItemSizesAre()
    ensures UInt8.ItemSize() == 1 && BFloat16.ItemSize() == 2 && Float32.ItemSize() == 4 && Int64.ItemSize() == 8
  {
  }

  function Numel(shape: seq<nat>): nat {
    if shape == [] then 1 else shape[0] * Numel(shape[1..])
  }

  function NBytes(shape: seq<nat>, dtype: Dtype): nat {
    dtype.ItemSize() * Numel(shape)
  }

  /** A named tensor, its contents flattened and viewed as bytes. */
  datatype RawWeight = Weight(name: string, shape: seq<nat>, dtype: Dtype, bytes: seq<Byte>)

  type Weight = w: RawWeight | |w.bytes| == NBytes(w.shape, w.dtype)
    witness Weight("", [0], UInt8, [])

  type Bucket = seq<Weight>

  function Total(b: Bucket): nat {
    if b == [] then 0 else Total(b[..|b| - 1]) + |b[|b| - 1].bytes|
  }

  function Bytes(b: Bucket): (r: seq<Byte>)
    ensures |r| == Total(b)
  {
    if b == [] then [] else Bytes(b[..|b| - 1]) + b[|b| - 1].bytes
  }

  /** The buckets the sender's loop produces when `cur` is already in the open bucket. */
  function Pack(ws: seq<Weight>, size: nat, cur: Bucket): (r: seq<Bucket>)
    ensures r != []
  {
    if ws == [] then [cur]
    else if Total(cur) + |ws[0].bytes| > size then [cur] + Pack(ws[1..], size, [ws[0]])
    else Pack(ws[1..], size, cur + [ws[0]])
  }

  predicate AllFit(ws: seq<Weight>, size: nat) {
    forall i :: 0 <= i < |ws| ==> |ws[i].bytes| <= size
  }

  /** Every part of an order-preserving partition holds at most `size` bytes. */
  predicate PartsFit(parts: seq<Bucket>, size: nat) {
    forall i :: 0 <= i < |parts| ==> Total(parts[i]) <= size
  }

  lemma TotalSnoc(b: Bucket, w: Weight)
    ensures Total(b + [w]) == Total(b) + |w.bytes|
    ensures Bytes(b + [w]) == Bytes(b) + w.bytes
  {
    assert (b + [w])[..|b|] == b;
  }

  /** Nothing is lost, duplicated or reordered by packing. */
  lemma {:induction false} PackKeepsOrder(ws: seq<Weight>, size: nat, cur: Bucket)
    ensures Flatten(Pack(ws, size, cur)) == cur + ws
  {
    if ws == [] {
      assert Flatten([cur]) == cur + Flatten([]);
    } else if Total(cur) + |ws[0].bytes| > size {
      PackKeepsOrder(ws[1..], size, [ws[0]]);
      assert [ws[0]] + ws[1..] == ws;
    } else {
      PackKeepsOrder(ws[1..], size, cur + [ws[0]]);
      assert cur + [ws[0]] + ws[1..] == cur + ws;
    }
  }

  lemma {:induction false} PackFits(ws: seq<Weight>, size: nat, cur: Bucket)
    requires AllFit(ws, size) && Total(cur) <= size
    ensures PartsFit(Pack(ws, size, cur), size)
  {
    if ws != [] {
      TotalSnoc([], ws[0]);
      assert [] + [ws[0]] == [ws[0]];
      if Total(cur) + |ws[0].bytes| > size {
        PackFits(ws[1..], size, [ws[0]]);
      } else {
        TotalSnoc(cur, ws[0]);
        PackFits(ws[1..], size, cur + [ws[0]]);
      }
    }
  }

  /** The tensor that opens bucket i + 1 did not fit in bucket i. */
  ghost predicate Overflows(parts: seq<Bucket>, size: nat, i: nat)
    requires i + 1 < |parts|
  {
    parts[i + 1] != [] && Total(parts[i]) + |parts[i + 1][0].bytes| > size
  }

  /** A bucket is only closed because the next tensor does not fit in it. */
  ghost predicate ClosedLate(parts: seq<Bucket>, size: nat) {
    forall i: nat :: i + 1 < |parts| ==> Overflows(parts, size, i)
  }

  lemma {:induction false} PackFirst(ws: seq<Weight>, size: nat, cur: Bucket)
    ensures cur <= Pack(ws, size, cur)[0]
  {
    if ws != [] && Total(cur) + |ws[0].bytes| <= size {
      PackFirst(ws[1..], size, cur + [ws[0]]);
      assert cur <= cur + [ws[0]];
    }
  }

  lemma ClosedLateCons(b: Bucket, parts: seq<Bucket>, size: nat)
    requires ClosedLate(parts, size)
    requires parts != [] ==> parts[0] != [] && Total(b) + |parts[0][0].bytes| > size
    ensures ClosedLate([b] + parts, size)
  {
    var r: seq<Bucket> := [b] + parts;
    forall i: nat | i + 1 < |r| ensures Overflows(r, size, i) {
      if i > 0 {
        assert Overflows(parts, size, i - 1);
      }
    }
  }

  lemma {:induction false} PackClosesLate(ws: seq<Weight>, size: nat, cur: Bucket)
    ensures ClosedLate(Pack(ws, size, cur), size)
  {
    if ws != [] {
      if Total(cur) + |ws[0].bytes| > size {
        PackClosesLate(ws[1..], size, [ws[0]]);
        PackFirst(ws[1..], size, [ws[0]]);
        var r := Pack(ws[1..], size, [ws[0]]);
        ClosedLateCons(cur, r, size);
      } else {
        PackClosesLate(ws[1..], size, cur + [ws[0]]);
      }
    }
  }

  /** The number of buckets only depends on how full the open bucket is, and filling it
      further costs at most one more bucket. */
  lemma {:induction false} PackCountMonotone(ws: seq<Weight>, size: nat, cur: Bucket, cur': Bucket)
    requires AllFit(ws, size)
    requires Total(cur) <= Total(cur') <= size
    ensures |Pack(ws, size, cur)| <= |Pack(ws, size, cur')| <= |Pack(ws, size, cur)| + 1
  {
    if ws != [] {
      var w := ws[0];
      TotalSnoc(cur, w);
      TotalSnoc(cur', w);
      TotalSnoc([], w);
      assert [] + [w] == [w];
      if Total(cur') + |w.bytes| <= size {
        PackCountMonotone(ws[1..], size, cur + [w], cur' + [w]);
      } else if Total(cur) + |w.bytes| <= size {
        PackCountMonotone(ws[1..], size, [w], cur + [w]);
      }
    }
  }

  /** A part that still fits on top of the open bucket is absorbed without closing it. */
  lemma {:induction false} PackAbsorbs(part: seq<Weight>, rest: seq<Weight>, size: nat, cur: Bucket)
    requires Total(cur + part) <= size
    ensures Pack(part + rest, size, cur) == Pack(rest, size, cur + part)
    decreases |part|
  {
    if part == [] {
      assert part + rest == rest && cur + part == cur;
    } else {
      var w := part[0];
      assert (part + rest)[1..] == part[1..] + rest;
      assert cur + part == cur + [w] + part[1..];
      TotalSnoc(cur, w);
      TotalPrefix(cur + [w], part[1..]);
      PackAbsorbs(part[1..], rest, size, cur + [w]);
    }
  }

  lemma {:induction false} TotalPrefix(a: Bucket, b: Bucket)
    ensures Total(a) + Total(b) == Total(a + b)
    ensures Bytes(a + b) == Bytes(a) + Bytes(b)
  {
    hide NBytes;
    if b == [] {
      assert a + b == a;
    } else {
      hide Total, Bytes;
      var init, w := b[..|b| - 1], b[|b| - 1];
      assert b == init + [w] && a + b == a + init + [w];
      TotalPrefix(a, init);
      TotalSnoc(init, w);
      TotalSnoc(a + init, w);
    }
  }

  /** Greedy packing is optimal: no order-preserving partition into non-overfull buckets
      has fewer of them. (The sender always sends at least one bucket.) */
  lemma {:induction false} PackIsOptimal(ws: seq<Weight>, size: nat, parts: seq<Bucket>)
    requires AllFit(ws, size)
    requires parts != [] && PartsFit(parts, size) && Flatten(parts) == ws
    ensures |Pack(ws, size, [])| <= |parts|
    decreases |parts|
  {
    var rest := Flatten(parts[1..]);
    assert ws == parts[0] + rest;
    assert [] + parts[0] == parts[0];
    PackAbsorbs(parts[0], rest, size, []);
    if |parts| > 1 {
      forall i | 0 <= i < |rest| ensures |rest[i].bytes| <= size {
        assert rest[i] == ws[|parts[0]| + i];
      }
      PackCountMonotone(rest, size, [], parts[0]);
      PackIsOptimal(rest, size, parts[1..]);
    } else {
      assert rest == [];
    }
  }

  lemma FlattenTotalTwo(parts: seq<Bucket>)
    requires |parts| >= 2
    ensures Total(Flatten(parts)) == Total(parts[0]) + Total(parts[1]) + Total(Flatten(parts[2..]))
  {
    assert parts[1..][1..] == parts[2..];
    TotalPrefix(parts[0], Flatten(parts[1..]));
    TotalPrefix(parts[1], Flatten(parts[2..]));
  }

  lemma ClosedLateDrop(parts: seq<Bucket>, size: nat)
    requires |parts| >= 2 && ClosedLate(parts, size)
    ensures ClosedLate(parts[2..], size)
    ensures Total(parts[0]) + Total(parts[1]) > size
  {
    var tail: seq<Bucket> := parts[2..];
    forall i: nat | i + 1 < |tail| ensures Overflows(tail, size, i) {
      assert Overflows(parts, size, i + 2);
    }
    assert Overflows(parts, size, 0);
    FirstBelowTotal(parts[1]);
  }

  lemma StepUp(n: nat, k: nat, total: nat, rest: nat)
    requires n >= 2 && (n - 2) / 2 * k <= rest && rest + k <= total
    ensures n / 2 * k <= total
  {
    assert n / 2 == (n - 2) / 2 + 1;
    assert ((n - 2) / 2 + 1) * k == (n - 2) / 2 * k + k;
  }

  /** Two consecutive buckets overflow one, so the number of buckets is linear in the
      number of bytes. */
  lemma {:induction false} ClosedLateBound(parts: seq<Bucket>, size: nat)
    requires ClosedLate(parts, size)
    ensures |parts| / 2 * (size + 1) <= Total(Flatten(parts))
  {
    hide NBytes, ClosedLate;
    if |parts| >= 2 {
      ClosedLateDrop(parts, size);
      ClosedLateBound(parts[2..], size);
      FlattenTotalTwo(parts);
      StepUp(|parts|, size + 1, Total(Flatten(parts)), Total(Flatten(parts[2..])));
    }
  }

  lemma FirstBelowTotal(b: Bucket)
    requires b != []
    ensures |b[0].bytes| <= Total(b)
  {
    assert b == [b[0]] + b[1..];
    TotalPrefix([b[0]], b[1..]);
  }

  lemma PackBucketBound(ws: seq<Weight>, size: nat)
    ensures var r := Pack(ws, size, []);
            (forall i: nat {:trigger Total(r[i])} :: i + 1 < |r| ==> Total(r[i]) + Total(r[i + 1]) > size)
            && |r| / 2 * (size + 1) <= Total(ws)
  {
    var r := Pack(ws, size, []);
    PackClosesLate(ws, size, []);
    PackKeepsOrder(ws, size, []);
    assert [] + ws == ws;
    ClosedLateBound(r, size);
    forall i: nat {:trigger Total(r[i])} | i + 1 < |r| ensures Total(r[i]) + Total(r[i + 1]) > size {
      assert Overflows(r, size, i);
      FirstBelowTotal(r[i + 1]);
    }
  }
}
