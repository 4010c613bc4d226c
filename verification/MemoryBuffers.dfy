/** One large buffer for each data type, and the parameters of a module placed in it one after
    the other, each from a 128-bit boundary. A parameter is given in the sorted order in which both
    passes visit the parameters. */
module MemoryBuffers {
  import opened Arith
  import opened Basics

  datatype FloatType = Float8 | Float16 | BFloat16 | Float32 | Float64 {
    function Bits(): (r: nat)
      ensures r > 0 && 128 / r > 0 && 128 / r * r == 128
    {
      match this
      case Float8 => 8
      case Float16 => 16
      case BFloat16 => 16
      case Float32 => 32
      case Float64 => 64
    }

    /** Elements in 128 bits. */
    function Align(): (r: nat)
      ensures r > 0 && r * Bits() == 128
    {
      128 / Bits()
    }
  }

  /** The sizes of the types, and what fits in 16 bytes. */
  lemma BitsAre()
    ensures Float8.Bits() == 8 && Float16.Bits() == BFloat16.Bits() == 16 && Float32.Bits() == 32 && Float64.Bits() == 64
    ensures Float8.Align() == 16 && Float16.Align() == BFloat16.Align() == 8 && Float32.Align() == 4 && Float64.Align() == 2
  {
  }

  datatype Param<E> = Param(name: string, dtype: FloatType, data: seq<E>)

  /** A view of `len` elements of the buffer of a type. */
  datatype View = View(dtype: FloatType, start: nat, len: nat)

  /** `calc_padded_numel` */
  function PaddedNumel(numel: nat, dtype: FloatType): (r: nat)
    ensures numel <= r < numel + dtype.Align() && r % dtype.Align() == 0
  {
    var a := dtype.Align();
    PaddedUp(numel, a);
    (numel + a - 1) / a * a
  }

  lemma PaddedUp(numel: nat, a: nat)
    requires a > 0
    ensures numel <= (numel + a - 1) / a * a < numel + a && (numel + a - 1) / a * a % a == 0
  {
    DivMod(numel + a - 1, a);
    Quotient((numel + a - 1) / a * a, a, (numel + a - 1) / a, 0);
  }

  /** Elements the first k parameters take up in the buffer of a type. */
  function Taken<E>(params: seq<Param<E>>, dtype: FloatType, k: nat): nat
    requires k <= |params|
  {
    if k == 0 then 0
    else if params[k - 1].dtype == dtype then Taken(params, dtype, k - 1) + PaddedNumel(|params[k - 1].data|, dtype)
    else Taken(params, dtype, k - 1)
  }

  /** Where parameter k is placed. */
  function PlaceOf<E>(params: seq<Param<E>>, k: nat): View
    requires k < |params|
  {
    View(params[k].dtype, Taken(params, params[k].dtype, k), |params[k].data|)
  }

  lemma {:induction false} TakenGrows<E>(params: seq<Param<E>>, dtype: FloatType, j: nat, k: nat)
    requires j <= k <= |params|
    ensures Taken(params, dtype, j) <= Taken(params, dtype, k)
    ensures j < k && params[j].dtype == dtype ==>
              Taken(params, dtype, j) + PaddedNumel(|params[j].data|, dtype) <= Taken(params, dtype, k)
  {
    if j < k - 1 {
      TakenGrows(params, dtype, j, k - 1);
    }
  }

  lemma {:induction false} TakenAligned<E>(params: seq<Param<E>>, dtype: FloatType, k: nat)
    requires k <= |params|
    ensures Taken(params, dtype, k) % dtype.Align() == 0
  {
    if k == 0 {
      Quotient(0, dtype.Align(), 0, 0);
    } else {
      TakenAligned(params, dtype, k - 1);
      MultiplesAdd(Taken(params, dtype, k - 1), PaddedNumel(|params[k - 1].data|, dtype), dtype.Align());
    }
  }

  predicate Disjoint(v: View, w: View) {
    v.dtype != w.dtype || v.start + v.len <= w.start || w.start + w.len <= v.start
  }

  /** The placement: every view starts on a 128-bit boundary and ends inside the buffer that the
      sizing pass asked for. */
  lemma PlacementIsSound<E>(params: seq<Param<E>>, k: nat)
    requires k < |params|
    ensures PlaceOf(params, k).start * params[k].dtype.Bits() % 128 == 0
    ensures PlaceOf(params, k).start + PlaceOf(params, k).len <= Taken(params, params[k].dtype, |params|)
  {
    TakenAligned(params, params[k].dtype, k);
    BitsAligned(PlaceOf(params, k).start, params[k].dtype);
    TakenGrows(params, params[k].dtype, k, |params|);
  }

  /** No two views overlap. */
  lemma PlacesDisjoint<E>(params: seq<Param<E>>, j: nat, k: nat)
    requires j < |params| && k < |params| && j != k
    ensures Disjoint(PlaceOf(params, j), PlaceOf(params, k))
  {
    if j < k {
      TakenGrows(params, params[k].dtype, j, k);
    } else {
      TakenGrows(params, params[k].dtype, k, j);
    }
  }

  lemma BitsAligned(start: nat, dtype: FloatType)
    requires start % dtype.Align() == 0
    ensures start * dtype.Bits() % 128 == 0
  {
    var a, b := dtype.Align(), dtype.Bits();
    DivMod(start, a);
    assert start / a * a * b == start / a * (a * b);
    Quotient(start * b, 128, start / a, 0);
  }

  class MemoryBuffer<E> {
    const numel: nat
    const data: array<E>

    constructor (numel: nat, zero: E)
      ensures this.numel == numel == data.Length && fresh(data)
      ensures forall i :: 0 <= i < numel ==> data[i] == zero
    {
      this.numel := numel;
      this.data := new E[numel](_ => zero);
    }

    /** `get`: its assertion is the precondition. */
    function Get(dtype: FloatType, len: nat, start: nat): View
      requires start + len <= numel
    {
      View(dtype, start, len)
    }
  }

  /** One buffer for each type that occurs, of the size that its parameters take up, none shared. */
  ghost predicate BuffersFor<E>(params: seq<Param<E>>, buffers: map<FloatType, MemoryBuffer<E>>) {
    && (forall d :: d in buffers <==> exists k :: 0 <= k < |params| && params[k].dtype == d)
    && (forall d :: d in buffers ==>
          buffers[d].numel == buffers[d].data.Length == Taken(params, d, |params|))
    && (forall d, e :: d in buffers && e in buffers && d != e ==> buffers[d].data != buffers[e].data)
  }

  /** The sizing pass: padded sizes added up by type. */
  method TotalNumels<E>(params: seq<Param<E>>) returns (totals: map<FloatType, nat>)
    ensures forall d :: d in totals <==> exists k :: 0 <= k < |params| && params[k].dtype == d
    ensures forall d :: d in totals ==> totals[d] == Taken(params, d, |params|)
  {
    totals := map[];
    for k := 0 to |params|
      invariant forall d :: d in totals <==> exists j :: 0 <= j < k && params[j].dtype == d
      invariant forall d: FloatType :: Taken(params, d, k) == if d in totals then totals[d] else 0
    {
      var dtype := params[k].dtype;
      if dtype !in totals {
        totals := totals[dtype := 0];
      }
      totals := totals[dtype := totals[dtype] + PaddedNumel(|params[k].data|, dtype)];
    }
  }

  method BuildMemoryBuffer<E>(params: seq<Param<E>>, zero: E) returns (buffers: map<FloatType, MemoryBuffer<E>>)
    ensures BuffersFor(params, buffers)
    ensures forall d :: d in buffers ==> fresh(buffers[d].data)
  {
    var totals := TotalNumels(params);
    buffers := map[];
    var todo := totals.Keys;
    while todo != {}
      invariant todo <= totals.Keys
      invariant forall d :: d in buffers <==> d in totals && d !in todo
      invariant forall d :: d in buffers ==>
                  fresh(buffers[d].data) && buffers[d].numel == buffers[d].data.Length == totals[d]
      invariant forall d, e :: d in buffers && e in buffers && d != e ==> buffers[d].data != buffers[e].data
      decreases todo
    {
      var dtype :| dtype in todo;
      todo := todo - {dtype};
      var buffer := new MemoryBuffer<E>(totals[dtype], zero);
      buffers := buffers[dtype := buffer];
    }
  }

  /** A parameter's view holds the parameter's data. */
  ghost predicate HoldsParam<E>(params: seq<Param<E>>, buffers: map<FloatType, MemoryBuffer<E>>, k: nat)
    requires k < |params| && params[k].dtype in buffers
    reads buffers[params[k].dtype].data
  {
    var v, data := PlaceOf(params, k), buffers[params[k].dtype].data;
    v.start + v.len <= data.Length && data[v.start..v.start + v.len] == params[k].data
  }

  /** Every view returned lies in the buffer of its own type and holds the data of its parameter;
      it starts on a 128-bit boundary, after the padded views of all parameters before it. */
  ghost predicate ViewsHold<E>(params: seq<Param<E>>, buffers: map<FloatType, MemoryBuffer<E>>, views: seq<View>)
    reads set d | d in buffers :: buffers[d].data
  {
    && |views| == |params|
    && (forall k :: 0 <= k < |views| ==>
          && views[k].dtype in buffers
          && views[k].start + views[k].len <= buffers[views[k].dtype].data.Length
          && buffers[views[k].dtype].data[views[k].start..views[k].start + views[k].len] == params[k].data
          && views[k].start * views[k].dtype.Bits() % 128 == 0)
    && (forall j, k :: 0 <= j < k < |views| && views[j].dtype == views[k].dtype ==>
          views[j].start + PaddedNumel(views[j].len, views[j].dtype) <= views[k].start)
  }

  ghost predicate HoldsFirst<E>(params: seq<Param<E>>, buffers: map<FloatType, MemoryBuffer<E>>, k: nat)
    requires k <= |params| && BuffersFor(params, buffers)
    reads set d | d in buffers :: buffers[d].data
  {
    forall j :: 0 <= j < k ==> HoldsParam(params, buffers, j)
  }

  /** One parameter: its view, and a copy that leaves the views before it alone. */
  method PlaceOne<E>(params: seq<Param<E>>, buffers: map<FloatType, MemoryBuffer<E>>, k: nat, start: nat) returns (v: View)
    requires k < |params| && BuffersFor(params, buffers) && HoldsFirst(params, buffers, k)
    requires start == Taken(params, params[k].dtype, k)
    modifies buffers[params[k].dtype].data
    ensures v == PlaceOf(params, k) && HoldsFirst(params, buffers, k + 1)
  {
    hide Taken;
    var dtype, len := params[k].dtype, |params[k].data|;
    PlacementIsSound(params, k);
    v := buffers[dtype].Get(dtype, len, start);
    CopyInto(buffers[dtype].data, v.start, params[k].data);
    forall j | 0 <= j < k ensures HoldsParam(params, buffers, j) {
      assert old(HoldsParam(params, buffers, j));
      PlacesDisjoint(params, j, k);
      var w := PlaceOf(params, j);
      if params[j].dtype == dtype {
        assert buffers[dtype].data[w.start..w.start + w.len] == old(buffers[dtype].data[w.start..w.start + w.len]);
      }
    }
  }

  /** The next free place in the buffer of every type, once k parameters are placed. */
  ghost predicate StartsAt<E>(params: seq<Param<E>>, starts: map<FloatType, nat>, k: nat)
    requires k <= |params|
  {
    forall d :: d in starts ==> starts[d] == Taken(params, d, k)
  }

  lemma StartsAdvance<E>(params: seq<Param<E>>, starts: map<FloatType, nat>, k: nat)
    requires k < |params| && StartsAt(params, starts, k) && params[k].dtype in starts
    ensures var dtype := params[k].dtype;
            StartsAt(params, starts[dtype := starts[dtype] + PaddedNumel(|params[k].data|, dtype)], k + 1)
  {
    hide PaddedNumel;
  }

  lemma HasBuffer<E>(params: seq<Param<E>>, buffers: map<FloatType, MemoryBuffer<E>>, k: nat)
    requires k < |params| && BuffersFor(params, buffers)
    ensures params[k].dtype in buffers
  {
  }

  /** The placement pass: no lookup and no assertion of `get` fails, parameter k gets its place,
      and after all copies every view holds its parameter's data. */
  method BuildReferences<E>(params: seq<Param<E>>, buffers: map<FloatType, MemoryBuffer<E>>) returns (views: seq<View>)
    requires BuffersFor(params, buffers)
    modifies set d | d in buffers :: buffers[d].data
    ensures |views| == |params|
    ensures forall k :: 0 <= k < |params| ==> views[k] == PlaceOf(params, k) && views[k].dtype == params[k].dtype
    ensures HoldsFirst(params, buffers, |params|) && ViewsHold(params, buffers, views)
  {
    hide HoldsFirst, ViewsHold, PaddedNumel, PlaceOf, BuffersFor, StartsAt;
    var starts: map<FloatType, nat> := map d | d in buffers :: 0;
    views := [];
    NothingPlaced(params, buffers);
    NothingTaken(params, starts);
    for k := 0 to |params|
      invariant |views| == k && starts.Keys == buffers.Keys && StartsAt(params, starts, k)
      invariant forall j :: 0 <= j < k ==> views[j] == PlaceOf(params, j)
      invariant HoldsFirst(params, buffers, k)
    {
      HasBuffer(params, buffers, k);
      StartsAdvance(params, starts, k);
      var dtype := params[k].dtype;
      StartOf(params, starts, k);
      var v := PlaceOne(params, buffers, k, starts[dtype]);
      starts := starts[dtype := starts[dtype] + PaddedNumel(|params[k].data|, dtype)];
      views := views + [v];
    }
    PlacesHold(params, buffers, views);
  }

  lemma PlacesHold<E>(params: seq<Param<E>>, buffers: map<FloatType, MemoryBuffer<E>>, views: seq<View>)
    requires BuffersFor(params, buffers) && HoldsFirst(params, buffers, |params|)
    requires |views| == |params| && forall k :: 0 <= k < |params| ==> views[k] == PlaceOf(params, k)
    ensures ViewsHold(params, buffers, views)
    ensures forall k :: 0 <= k < |views| ==> views[k].dtype == params[k].dtype
  {
    hide Taken, PaddedNumel, Disjoint;
    forall k | 0 <= k < |params| ensures HoldsParam(params, buffers, k) && views[k].start * views[k].dtype.Bits() % 128 == 0 {
      PlacementIsSound(params, k);
    }
    forall j, k | 0 <= j < k < |views| && views[j].dtype == views[k].dtype
      ensures views[j].start + PaddedNumel(views[j].len, views[j].dtype) <= views[k].start
    {
      TakenGrows(params, params[k].dtype, j, k);
    }
  }

  lemma NothingTaken<E>(params: seq<Param<E>>, starts: map<FloatType, nat>)
    requires forall d :: d in starts ==> starts[d] == 0
    ensures StartsAt(params, starts, 0)
  {
  }

  lemma StartOf<E>(params: seq<Param<E>>, starts: map<FloatType, nat>, k: nat)
    requires k < |params| && StartsAt(params, starts, k) && params[k].dtype in starts
    ensures starts[params[k].dtype] == Taken(params, params[k].dtype, k)
  {
  }

  lemma NothingPlaced<E>(params: seq<Param<E>>, buffers: map<FloatType, MemoryBuffer<E>>)
    requires BuffersFor(params, buffers)
    ensures HoldsFirst(params, buffers, 0)
  {
  }

  method CopyInto<E>(a: array<E>, start: nat, data: seq<E>)
    requires start + |data| <= a.Length
    modifies a
    ensures a[start..start + |data|] == data
    ensures forall i :: 0 <= i < a.Length && !(start <= i < start + |data|) ==> a[i] == old(a[i])
  {
    forall i | 0 <= i < |data| {
      a[start + i] := data[i];
    }
  }

  /** Building the buffers and placing a module's parameters in them keeps every parameter. */
  method BuildFromModule<E>(params: seq<Param<E>>, zero: E) returns (buffers: map<FloatType, MemoryBuffer<E>>, views: seq<View>)
    ensures BuffersFor(params, buffers) && HoldsFirst(params, buffers, |params|) && ViewsHold(params, buffers, views)
    ensures |views| == |params|
    ensures forall k :: 0 <= k < |params| ==> views[k] == PlaceOf(params, k) && views[k].dtype == params[k].dtype
  {
    hide HoldsFirst, ViewsHold;
    buffers := BuildMemoryBuffer(params, zero);
    views := BuildReferences(params, buffers);
  }
}
