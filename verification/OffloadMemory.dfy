/** Tensors as the offload handler sees them, and why `data_ptr + storage_offset` together with
    the dtype can name the bytes of a tensor. */
module OffloadMemory {
  import opened Packing

  type Elem = int

  /** A contiguous tensor: the address of its storage, its offset there in elements, its shape
      and its flattened contents. */
  datatype RawTensor = Tensor(ptr: nat, offset: nat, dtype: Dtype, shape: seq<nat>, data: seq<Elem>)

  type Tensor = t: RawTensor | |t.data| == Numel(t.shape)
    witness Tensor(0, 0, UInt8, [0], [])

  datatype Key = Key(address: nat, dtype: Dtype)

  /** `_get_unique_tensor_key` */
  function KeyOf(t: Tensor): Key {
    Key(t.ptr + t.offset, t.dtype)
  }

  /** What a computation sees of a tensor: everything but its address. */
  datatype Value = Value(dtype: Dtype, shape: seq<nat>, data: seq<Elem>)

  function ValueOf(t: Tensor): Value {
    Value(t.dtype, t.shape, t.data)
  }

  /** A live block of device memory; `contents` is what it holds, read as a given dtype. */
  datatype Storage = Storage(ptr: nat, nbytes: nat, contents: Dtype -> seq<Elem>)

  ghost predicate ViewOf(t: Tensor, s: Storage) {
    var end := t.offset + |t.data|;
    && t.ptr == s.ptr && end * t.dtype.ItemSize() <= s.nbytes
    && end <= |s.contents(t.dtype)| && t.data == s.contents(t.dtype)[t.offset..end]
  }

  ghost predicate Disjoint(a: Storage, b: Storage) {
    a.ptr + a.nbytes <= b.ptr || b.ptr + b.nbytes <= a.ptr
  }

  lemma AddressInside(t: Tensor, s: Storage)
    requires ViewOf(t, s) && t.data != []
    ensures s.ptr <= KeyOf(t).address < s.ptr + s.nbytes
  {
    var end := t.offset + |t.data|;
    assert end * t.dtype.ItemSize() >= end;
  }

  /** Over live storages that do not overlap, non-empty tensors with one key start at the same
      place of the same storage, although the key adds an offset in elements to an address in
      bytes. */
  lemma KeyIsInjective(t: Tensor, s: Storage, t': Tensor, s': Storage)
    requires ViewOf(t, s) && ViewOf(t', s') && (s == s' || Disjoint(s, s'))
    requires t.data != [] && t'.data != [] && KeyOf(t) == KeyOf(t')
    ensures s == s' && t.offset == t'.offset
  {
    AddressInside(t, s);
    AddressInside(t', s');
  }

  /** Tensors with one key and equally many elements hold the same elements. */
  ghost predicate SameBytes(t: Tensor, t': Tensor) {
    KeyOf(t) == KeyOf(t') && |t.data| == |t'.data| ==> t.data == t'.data
  }

  lemma LiveTensorsAgree(t: Tensor, s: Storage, t': Tensor, s': Storage)
    requires ViewOf(t, s) && ViewOf(t', s') && (s == s' || Disjoint(s, s'))
    ensures SameBytes(t, t')
  {
    if KeyOf(t) == KeyOf(t') && |t.data| == |t'.data| && t.data != [] {
      KeyIsInjective(t, s, t', s');
    }
  }
}
