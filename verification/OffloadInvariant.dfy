/** The simple store that the asynchronous offload handler must agree with, and the invariant
    that ties the handler's dictionaries and counters to it. */
module OffloadInvariant {
  import opened Arith
  import opened Basics
  import opened Packing
  import opened OffloadMemory
  import opened OffloadWindow

  datatype Tag = Tag(group: int, index: nat)

  /** What a push returns: a tag, or the tensor itself when it is not to be offloaded. */
  datatype Handle = Tagged(tag: Tag) | Stray(tensor: Tensor)

  /** An entry of `tensor_tag_to_state`: a tensor, or the tuple (key, shape). */
  datatype Saved = OnDevice(tensor: Tensor) | OnHost(key: Key, shape: seq<nat>)

  datatype HostCopy = HostCopy(dtype: Dtype, shape: seq<nat>, data: seq<Elem>)

  function CopyToHost(t: Tensor): HostCopy {
    HostCopy(t.dtype, t.shape, t.data)
  }

  /** A host copy moved to device memory at some address, and viewed as `shape`. */
  function Reload(copy: HostCopy, ptr: nat, shape: seq<nat>): Tensor
    requires |copy.data| == Numel(shape)
  {
    Tensor(ptr, 0, copy.dtype, shape, copy.data)
  }

  /** The simple handler: tensors under tags, a group counter and a count within the group.
      `forward` tells which pass the run is in. */
  datatype Store = Store(group: int, count: nat, forward: bool, live: map<Tag, Tensor>)

  const EMPTY_STORE := Store(0, 0, true, map[])

  function StorePush(s: Store, t: Tensor): Store {
    s.(live := s.live[Tag(s.group, s.count) := t], count := s.count + 1)
  }

  function StorePop(s: Store, tag: Tag): (r: Store)
    ensures r.group == s.group && r.count == s.count && r.live == s.live - {tag}
  {
    Settle(s.(live := s.live - {tag}))
  }

  function StoreCommitForward(s: Store): (r: Store)
    ensures r.group == s.group + 1 && r.count == 0 && r.live == s.live
  {
    s.(group := s.group + 1, count := 0)
  }

  function StoreCommitBackward(s: Store): (r: Store)
    ensures r.group == s.group - 1 && r.count == s.count && r.live == s.live
  {
    Settle(s.(group := s.group - 1, forward := false))
  }

  /** Once the backward pass is over and every tag is popped the next forward pass may start. */
  function Settle(s: Store): (r: Store)
    ensures r == s.(forward := r.forward)
  {
    if !s.forward && s.group == 0 && s.live == map[] then s.(forward := true) else s
  }

  /** Live tensors of one group with one key and equally many elements hold the same elements;
      `LiveTensorsAgree` derives it from storages not overlapping. */
  ghost predicate GroupsCoherent(live: map<Tag, Tensor>) {
    forall a, b :: a in live && b in live && a.group == b.group ==> SameBytes(live[a], live[b])
  }

  /** Contiguous tensors are coherent when the storages of one group do not overlap. A later group
      may lie where an earlier one was before it went to the host. */
  lemma CoherentOverStorages(live: map<Tag, Tensor>, storages: map<Tag, Storage>)
    requires storages.Keys == live.Keys && forall tag :: tag in live ==> ViewOf(live[tag], storages[tag])
    requires forall a, b :: a in live && b in live && a.group == b.group ==>
               storages[a] == storages[b] || Disjoint(storages[a], storages[b])
    ensures GroupsCoherent(live)
  {
    forall a, b | a in live && b in live && a.group == b.group ensures SameBytes(live[a], live[b]) {
      LiveTensorsAgree(live[a], storages[a], live[b], storages[b]);
    }
  }

  /** Tensors of the group with one key have equally many elements. */
  ghost predicate CountsAgree(live: map<Tag, Tensor>, group: int) {
    forall a, b ::
      a in live && b in live && a.group == group && b.group == group && KeyOf(live[a]) == KeyOf(live[b])
      ==> |live[a].data| == |live[b].data|
  }

  type Mapping = map<int, map<Key, HostCopy>>

  /** Which groups have a host copy, and how far the counter is. `hosted` groups, the first ones,
      are on the host. */
  ghost predicate ScheduleInv(n: int, layers: int, s: Store, offloaded: int, hosted: int, mapping: Mapping) {
    && 1 <= n <= layers && 0 <= s.group <= layers && 0 <= hosted <= n
    && (forall g :: g in mapping <==> 0 <= g < hosted)
    && (s.forward ==>
          && 0 <= offloaded <= n
          && (offloaded > 0 ==> Window(n, layers, offloaded - 1) < s.group)
          && (offloaded < n ==> s.group <= Window(n, layers, offloaded))
          && hosted == if s.group == 0 then 0 else Min(offloaded + 1, n))
    && (!s.forward ==>
          && s.count == 0 && s.group < layers
          && (hosted > 0 ==> Window(n, layers, hosted - 1) < s.group)
          && (hosted < n ==> s.group <= Window(n, layers, hosted))
          && offloaded == if s.group == 0 then 0 else if hosted == 0 then 1 else hosted)
  }

  /** Every live tag is either a device tensor of the pushed value, or names a host copy. */
  ghost predicate SavedInv(s: Store, saved: map<Tag, Saved>, mapping: Mapping) {
    && saved.Keys == s.live.Keys
    && (forall tag :: tag in saved ==> SavedRight(s.live[tag], saved[tag], s.forward, tag.group, mapping))
  }

  ghost predicate SavedRight(t: Tensor, saved: Saved, forward: bool, group: int, mapping: Mapping) {
    match saved
    case OnDevice(t') => ValueOf(t') == ValueOf(t) && (forward ==> t' == t)
    case OnHost(key, shape) => key == KeyOf(t) && shape == t.shape && group in mapping && key in mapping[group]
  }

  /** Every host copy was made from a tensor that is still live in its group. */
  ghost predicate CopiesInv(live: map<Tag, Tensor>, mapping: Mapping) {
    forall g, key :: g in mapping && key in mapping[g] ==> Copied(live, g, key, mapping[g][key])
  }

  ghost predicate Copied(live: map<Tag, Tensor>, g: int, key: Key, copy: HostCopy) {
    exists tag :: tag in live && tag.group == g && KeyOf(live[tag]) == key && CopyToHost(live[tag]) == copy
  }

  ghost predicate TagsInv(s: Store, layers: int) {
    && (forall tag :: tag in s.live ==> 0 <= tag.group < layers)
    && (s.forward ==> forall tag :: tag in s.live ==>
          tag.group <= s.group && (tag.group == s.group ==> tag.index < s.count))
    && (s.forward && s.group == layers ==> s.count == 0)
  }

  /** A hosted group is all on the host when some layer is not offloaded; otherwise each group but
      the first is "offloaded" before its first push, and stays on the device. */
  ghost predicate HostedInv(n: int, layers: int, saved: map<Tag, Saved>, mapping: Mapping) {
    forall tag :: tag in saved && tag.group in mapping ==>
      (saved[tag].OnHost? <==> n < layers || tag.group == 0)
  }

  /** The extra device references: kept for the offloaded groups until their window closes. */
  ghost predicate BufInv(n: int, s: Store, buf: map<Tag, Option<Tensor>>, offloaded: int) {
    && (forall tag :: tag in buf <==> tag in s.live && tag.group < n)
    && (forall tag :: tag in buf ==> (buf[tag].Some? <==> s.forward && tag.group >= offloaded))
  }

  /** What the tensors and copies satisfy, whatever the counters. */
  ghost predicate StorageInv(n: int, layers: int, s: Store, saved: map<Tag, Saved>, mapping: Mapping) {
    && SavedInv(s, saved, mapping)
    && CopiesInv(s.live, mapping)
    && TagsInv(s, layers)
    && HostedInv(n, layers, saved, mapping)
    && GroupsCoherent(s.live)
  }

  // ---- what the steps do to the fields ----

  function OffloadedEntry(tag: Tag, saved: Saved, g: int): Saved {
    if tag.group == g && saved.OnDevice? then OnHost(KeyOf(saved.tensor), saved.tensor.shape) else saved
  }

  function OffloadedState(saved: map<Tag, Saved>, g: int): map<Tag, Saved> {
    map tag | tag in saved :: OffloadedEntry(tag, saved[tag], g)
  }

  ghost predicate OnDeviceGroup(saved: map<Tag, Saved>, g: int) {
    forall tag :: tag in saved && tag.group == g ==> saved[tag].OnDevice?
  }

  /** `copies` is what bulk offloading group g puts on the host. */
  ghost predicate CopiesOf(saved: map<Tag, Saved>, g: int, copies: map<Key, HostCopy>)
    requires OnDeviceGroup(saved, g)
  {
    && (forall tag :: tag in saved && tag.group == g ==> KeyOf(saved[tag].tensor) in copies)
    && (forall key :: key in copies ==>
          exists tag :: tag in saved && tag.group == g && KeyOf(saved[tag].tensor) == key
                        && copies[key] == CopyToHost(saved[tag].tensor))
  }

  /** `saved'` is `saved` with the host entries of group g brought back from `copies`. */
  ghost predicate ReloadedFrom(saved: map<Tag, Saved>, g: int, copies: map<Key, HostCopy>, saved': map<Tag, Saved>) {
    && saved'.Keys == saved.Keys
    && forall tag :: tag in saved ==>
         if tag.group == g && saved[tag].OnHost? then
           && saved[tag].key in copies && saved'[tag].OnDevice?
           && ValueOf(saved'[tag].tensor)
              == Value(copies[saved[tag].key].dtype, saved[tag].shape, copies[saved[tag].key].data)
         else saved'[tag] == saved[tag]
  }

  /** Every host entry of group g has a copy with as many elements as its shape. */
  ghost predicate Reloadable(saved: map<Tag, Saved>, g: int, copies: map<Key, HostCopy>) {
    forall tag :: tag in saved && tag.group == g && saved[tag].OnHost? ==>
      saved[tag].key in copies && |copies[saved[tag].key].data| == Numel(saved[tag].shape)
  }

  function Freed(buf: map<Tag, Option<Tensor>>, g: int): map<Tag, Option<Tensor>> {
    map tag | tag in buf :: if tag.group == g then None else buf[tag]
  }


  // ---- the schedule ----

  lemma WindowsInOrder(n: int, layers: int, i: int, j: int)
    requires 1 <= n <= layers && 0 <= i <= j < n
    ensures i <= Window(n, layers, i) <= Window(n, layers, j) < layers
    ensures i < j ==> Window(n, layers, i) < Window(n, layers, j)
    ensures n < layers ==> i + 1 <= Window(n, layers, i)
  {
    WindowLate(n, layers, i);
    WindowLate(n, layers, j);
    if i < j {
      WindowIncreasing(n, layers, i, j);
    }
  }

  /** Groups go to the host only once all their tensors have been pushed, if some layer is not
      offloaded. */
  lemma HostedGroupsAreComplete(n: int, layers: int, s: Store, offloaded: int, hosted: int, mapping: Mapping)
    requires ScheduleInv(n, layers, s, offloaded, hosted, mapping) && s.forward && n < layers
    ensures hosted <= s.group
    ensures forall g :: g in mapping ==> g < s.group
  {
    if s.group > 0 && offloaded > 0 {
      WindowsInOrder(n, layers, offloaded - 1, offloaded - 1);
    }
  }

  /** In the backward pass every group from the current one on is back on the device. */
  lemma BackwardGroupsAreBack(n: int, layers: int, s: Store, offloaded: int, hosted: int, mapping: Mapping)
    requires ScheduleInv(n, layers, s, offloaded, hosted, mapping) && !s.forward
    ensures forall g :: g in mapping ==> g < s.group
  {
    forall g | g in mapping ensures g < s.group {
      WindowsInOrder(n, layers, g, hosted - 1);
    }
  }

  /** At the end of the forward pass all groups have been offloaded. */
  lemma ForwardEnds(n: int, layers: int, s: Store, offloaded: int, hosted: int, mapping: Mapping)
    requires ScheduleInv(n, layers, s, offloaded, hosted, mapping) && s.forward
    ensures s.group == layers <==> offloaded == n
    ensures s.group == layers ==> hosted == n
  {
    WindowEnds(n, layers);
    if offloaded < n {
      WindowsInOrder(n, layers, offloaded, n - 1);
    }
  }

  // ---- pushes and pops ----

  lemma CopiesStay(live: map<Tag, Tensor>, live': map<Tag, Tensor>, mapping: Mapping)
    requires CopiesInv(live, mapping)
    requires forall tag :: tag in live && tag.group in mapping ==> tag in live' && live'[tag] == live[tag]
    ensures CopiesInv(live', mapping)
  {
    forall g, key | g in mapping && key in mapping[g] ensures Copied(live', g, key, mapping[g][key]) {
      assert Copied(live, g, key, mapping[g][key]);
      var src :| src in live && src.group == g && KeyOf(live[src]) == key && CopyToHost(live[src]) == mapping[g][key];
      assert src in live' && live'[src] == live[src];
    }
  }

  lemma PushKeeps(n: int, layers: int, s: Store, saved: map<Tag, Saved>, mapping: Mapping, offloaded: int, hosted: int, t: Tensor)
    requires ScheduleInv(n, layers, s, offloaded, hosted, mapping) && StorageInv(n, layers, s, saved, mapping)
    requires s.forward && s.group < layers && GroupsCoherent(StorePush(s, t).live)
    ensures Tag(s.group, s.count) !in s.live
    ensures ScheduleInv(n, layers, StorePush(s, t), offloaded, hosted, mapping)
    ensures StorageInv(n, layers, StorePush(s, t), saved[Tag(s.group, s.count) := OnDevice(t)], mapping)
  {
    hide Window, GroupsCoherent, CopiesInv, SavedRight;
    var tag, s' := Tag(s.group, s.count), StorePush(s, t);
    if n < layers {
      HostedGroupsAreComplete(n, layers, s, offloaded, hosted, mapping);
    }
    assert tag !in s.live;
    CopiesStay(s.live, s'.live, mapping);
    PushSaves(s, saved, mapping, t);
    hide SavedInv;
  }

  lemma PushSaves(s: Store, saved: map<Tag, Saved>, mapping: Mapping, t: Tensor)
    requires SavedInv(s, saved, mapping) && Tag(s.group, s.count) !in s.live
    ensures SavedInv(StorePush(s, t), saved[Tag(s.group, s.count) := OnDevice(t)], mapping)
  {
    var tag, s', saved' := Tag(s.group, s.count), StorePush(s, t), saved[Tag(s.group, s.count) := OnDevice(t)];
    forall a | a in saved' ensures SavedRight(s'.live[a], saved'[a], s'.forward, a.group, mapping) {
      if a != tag {
        assert SavedRight(s.live[a], saved[a], s.forward, a.group, mapping);
      }
    }
  }

  /** A tag popped in the backward pass, in its group's turn or later, is on the device. */
  lemma PopFinds(n: int, layers: int, s: Store, saved: map<Tag, Saved>, mapping: Mapping, offloaded: int, hosted: int, tag: Tag)
    requires ScheduleInv(n, layers, s, offloaded, hosted, mapping) && StorageInv(n, layers, s, saved, mapping)
    requires tag in s.live && !s.forward && tag.group >= s.group
    ensures tag in saved && saved[tag].OnDevice? && tag.group !in mapping
  {
    BackwardGroupsAreBack(n, layers, s, offloaded, hosted, mapping);
    assert SavedRight(s.live[tag], saved[tag], s.forward, tag.group, mapping);
  }

  lemma SavedAt(n: int, layers: int, s: Store, saved: map<Tag, Saved>, mapping: Mapping, tag: Tag)
    requires StorageInv(n, layers, s, saved, mapping)
    ensures tag in saved <==> tag in s.live
    ensures tag in saved && saved[tag].OnDevice? ==> ValueOf(saved[tag].tensor) == ValueOf(s.live[tag])
  {
    if tag in saved {
      assert SavedRight(s.live[tag], saved[tag], s.forward, tag.group, mapping);
    }
  }

  lemma PopKeeps(n: int, layers: int, s: Store, saved: map<Tag, Saved>, mapping: Mapping, offloaded: int, hosted: int, tag: Tag)
    requires ScheduleInv(n, layers, s, offloaded, hosted, mapping) && StorageInv(n, layers, s, saved, mapping)
    requires tag in s.live && !s.forward && tag.group >= s.group
    ensures ScheduleInv(n, layers, StorePop(s, tag), offloaded, hosted, mapping)
    ensures StorageInv(n, layers, StorePop(s, tag), saved - {tag}, mapping)
  {
    hide Window, CopiesInv, GroupsCoherent, SavedInv;
    PopFinds(n, layers, s, saved, mapping, offloaded, hosted, tag);
    hide SavedRight;
    var s0 := s.(live := s.live - {tag});
    CopiesStay(s.live, s0.live, mapping);
    PopSaves(s, saved, mapping, tag);
    assert ScheduleInv(n, layers, s0, offloaded, hosted, mapping);
    hide ScheduleInv;
    assert StorageInv(n, layers, s0, saved - {tag}, mapping);
    hide StorageInv;
    SettleKeeps(n, layers, s0, saved - {tag}, mapping, offloaded, hosted);
  }

  lemma PopSaves(s: Store, saved: map<Tag, Saved>, mapping: Mapping, tag: Tag)
    requires SavedInv(s, saved, mapping) && GroupsCoherent(s.live)
    ensures SavedInv(s.(live := s.live - {tag}), saved - {tag}, mapping)
    ensures GroupsCoherent(s.live - {tag})
  {
    var live', saved' := s.live - {tag}, saved - {tag};
    forall a | a in saved' ensures SavedRight(live'[a], saved'[a], s.forward, a.group, mapping) {
      assert SavedRight(s.live[a], saved[a], s.forward, a.group, mapping);
    }
    forall a, b | a in live' && b in live' && a.group == b.group ensures SameBytes(live'[a], live'[b]) {
      assert SameBytes(s.live[a], s.live[b]);
    }
  }

  lemma SettleKeeps(n: int, layers: int, s: Store, saved: map<Tag, Saved>, mapping: Mapping, offloaded: int, hosted: int)
    requires ScheduleInv(n, layers, s, offloaded, hosted, mapping) && StorageInv(n, layers, s, saved, mapping)
    ensures ScheduleInv(n, layers, Settle(s), offloaded, hosted, mapping)
    ensures StorageInv(n, layers, Settle(s), saved, mapping)
  {
    hide CopiesInv, GroupsCoherent, Window;
    if !s.forward && s.group == 0 {
      NothingHostedAtStart(n, layers, s, offloaded, hosted, mapping);
    }
  }

  lemma NothingHostedAtStart(n: int, layers: int, s: Store, offloaded: int, hosted: int, mapping: Mapping)
    requires ScheduleInv(n, layers, s, offloaded, hosted, mapping) && s.group == 0
    ensures hosted == 0 && offloaded == 0 && mapping == map[] && 0 <= Window(n, layers, 0)
  {
    hide Window;
    WindowsInOrder(n, layers, 0, 0);
    if hosted > 0 {
      WindowsInOrder(n, layers, 0, hosted - 1);
    }
    if offloaded > 0 {
      WindowsInOrder(n, layers, 0, offloaded - 1);
    }
    assert forall g :: g !in mapping;
  }

  // ---- bulk moves ----

  lemma OffloadKeeps(n: int, layers: int, s: Store, saved: map<Tag, Saved>, mapping: Mapping, g: int, copies: map<Key, HostCopy>)
    requires StorageInv(n, layers, s, saved, mapping) && s.forward && g !in mapping
    requires OnDeviceGroup(saved, g) && CopiesOf(saved, g, copies)
    requires n < layers || g == 0 || forall tag :: tag in saved ==> tag.group != g
    ensures StorageInv(n, layers, s, OffloadedState(saved, g), mapping[g := copies])
  {
    hide GroupsCoherent, CopiesOf, CopiesInv;
    var saved', mapping' := OffloadedState(saved, g), mapping[g := copies];
    OffloadSaves(s, saved, mapping, g, copies);
    OffloadCopies(s, saved, mapping, g, copies);
    hide SavedInv;
    assert HostedInv(n, layers, saved', mapping') by {
      forall tag | tag in saved' && tag.group in mapping'
        ensures saved'[tag].OnHost? <==> n < layers || tag.group == 0
      {
        assert tag.group == g ==> saved[tag].OnDevice?;
      }
    }
  }

  lemma OffloadSaves(s: Store, saved: map<Tag, Saved>, mapping: Mapping, g: int, copies: map<Key, HostCopy>)
    requires SavedInv(s, saved, mapping) && s.forward && g !in mapping
    requires OnDeviceGroup(saved, g) && CopiesOf(saved, g, copies)
    ensures SavedInv(s, OffloadedState(saved, g), mapping[g := copies])
  {
    var saved', mapping' := OffloadedState(saved, g), mapping[g := copies];
    forall tag | tag in saved' ensures SavedRight(s.live[tag], saved'[tag], s.forward, tag.group, mapping') {
      assert SavedRight(s.live[tag], saved[tag], s.forward, tag.group, mapping);
    }
  }

  lemma OffloadCopies(s: Store, saved: map<Tag, Saved>, mapping: Mapping, g: int, copies: map<Key, HostCopy>)
    requires SavedInv(s, saved, mapping) && CopiesInv(s.live, mapping) && s.forward
    requires OnDeviceGroup(saved, g) && CopiesOf(saved, g, copies)
    ensures CopiesInv(s.live, mapping[g := copies])
  {
    var mapping' := mapping[g := copies];
    forall h, key | h in mapping' && key in mapping'[h] ensures Copied(s.live, h, key, mapping'[h][key]) {
      if h != g {
        assert Copied(s.live, h, key, mapping[h][key]);
      } else {
        var src :| src in saved && src.group == g && KeyOf(saved[src].tensor) == key
                   && copies[key] == CopyToHost(saved[src].tensor);
        assert SavedRight(s.live[src], saved[src], s.forward, src.group, mapping);
        assert src in s.live && s.live[src] == saved[src].tensor;
      }
    }
  }

  lemma DeviceOutsideMapping(n: int, layers: int, s: Store, saved: map<Tag, Saved>, mapping: Mapping, g: int)
    requires StorageInv(n, layers, s, saved, mapping) && g !in mapping
    ensures OnDeviceGroup(saved, g)
  {
    forall tag | tag in saved && tag.group == g ensures saved[tag].OnDevice? {
      assert SavedRight(s.live[tag], saved[tag], s.forward, tag.group, mapping);
    }
  }

  /** Reloading group g cannot fail exactly when its tensors with one key have equally many
      elements, or when it never left the device. */
  lemma ReloadableIff(n: int, layers: int, s: Store, saved: map<Tag, Saved>, mapping: Mapping, g: int)
    requires StorageInv(n, layers, s, saved, mapping) && g in mapping
    ensures Reloadable(saved, g, mapping[g]) <==> (n < layers || g == 0 ==> CountsAgree(s.live, g))
  {
    hide GroupsCoherent;
    if n < layers || g == 0 {
      if Reloadable(saved, g, mapping[g]) {
        ReloadableCounts(n, layers, s, saved, mapping, g);
      }
      if CountsAgree(s.live, g) {
        CountsReloadable(s, saved, mapping, g);
      }
    }
  }

  lemma ReloadableCounts(n: int, layers: int, s: Store, saved: map<Tag, Saved>, mapping: Mapping, g: int)
    requires SavedInv(s, saved, mapping) && HostedInv(n, layers, saved, mapping) && g in mapping
    requires (n < layers || g == 0) && Reloadable(saved, g, mapping[g])
    ensures CountsAgree(s.live, g)
  {
    forall a, b | a in s.live && b in s.live && a.group == g && b.group == g && KeyOf(s.live[a]) == KeyOf(s.live[b])
      ensures |s.live[a].data| == |s.live[b].data|
    {
      assert SavedRight(s.live[a], saved[a], s.forward, g, mapping);
      assert SavedRight(s.live[b], saved[b], s.forward, g, mapping);
    }
  }

  lemma CountsReloadable(s: Store, saved: map<Tag, Saved>, mapping: Mapping, g: int)
    requires SavedInv(s, saved, mapping) && CopiesInv(s.live, mapping) && g in mapping && CountsAgree(s.live, g)
    ensures Reloadable(saved, g, mapping[g])
  {
    var copies := mapping[g];
    forall tag | tag in saved && tag.group == g && saved[tag].OnHost?
      ensures saved[tag].key in copies && |copies[saved[tag].key].data| == Numel(saved[tag].shape)
    {
      assert SavedRight(s.live[tag], saved[tag], s.forward, g, mapping);
      assert Copied(s.live, g, saved[tag].key, copies[saved[tag].key]);
    }
  }

  lemma ReloadKeeps(n: int, layers: int, s: Store, saved: map<Tag, Saved>, mapping: Mapping, g: int, saved': map<Tag, Saved>)
    requires StorageInv(n, layers, s, saved, mapping) && !s.forward && g in mapping
    requires Reloadable(saved, g, mapping[g]) && ReloadedFrom(saved, g, mapping[g], saved')
    ensures StorageInv(n, layers, s, saved', mapping - {g})
  {
    var mapping' := mapping - {g};
    forall tag | tag in saved' ensures SavedRight(s.live[tag], saved'[tag], s.forward, tag.group, mapping') {
      assert SavedRight(s.live[tag], saved[tag], s.forward, tag.group, mapping);
      if tag.group == g && saved[tag].OnHost? {
        var key := saved[tag].key;
        assert Copied(s.live, g, key, mapping[g][key]);
        var src :| src in s.live && src.group == g && KeyOf(s.live[src]) == key && CopyToHost(s.live[src]) == mapping[g][key];
        assert SameBytes(s.live[src], s.live[tag]);
      }
    }
    forall h, key | h in mapping' && key in mapping'[h] ensures Copied(s.live, h, key, mapping'[h][key]) {
      assert Copied(s.live, h, key, mapping[h][key]);
    }
  }

  // ---- extra device references ----

  lemma PushBuf(n: int, layers: int, s: Store, saved: map<Tag, Saved>, buf: map<Tag, Option<Tensor>>, mapping: Mapping,
                offloaded: int, hosted: int, t: Tensor)
    requires ScheduleInv(n, layers, s, offloaded, hosted, mapping) && StorageInv(n, layers, s, saved, mapping)
    requires BufInv(n, s, buf, offloaded) && s.forward && s.group < layers
    ensures BufInv(n, StorePush(s, t),
                   if s.group < n then buf[Tag(s.group, s.count) := Some(t)] else buf, offloaded)
  {
    hide Window, StorageInv;
    if offloaded > 0 && s.group < n {
      CountBehindGroup(n, layers, s, offloaded, hosted, mapping);
    }
  }

  /** The counter of closed windows never overtakes the current group. */
  lemma CountBehindGroup(n: int, layers: int, s: Store, offloaded: int, hosted: int, mapping: Mapping)
    requires ScheduleInv(n, layers, s, offloaded, hosted, mapping) && s.forward
    ensures offloaded <= s.group
  {
    if offloaded > 0 {
      WindowsInOrder(n, layers, offloaded - 1, offloaded - 1);
    }
  }

  lemma PopBuf(n: int, s: Store, buf: map<Tag, Option<Tensor>>, offloaded: int, tag: Tag)
    requires BufInv(n, s, buf, offloaded) && !s.forward
    ensures BufInv(n, StorePop(s, tag), buf - {tag}, offloaded)
  {
  }

  lemma FreeBuf(n: int, s: Store, buf: map<Tag, Option<Tensor>>, offloaded: int)
    requires BufInv(n, s, buf, offloaded) && s.forward
    ensures BufInv(n, StoreCommitForward(s), buf, offloaded)
    ensures BufInv(n, StoreCommitForward(s), Freed(buf, offloaded), offloaded + 1)
  {
  }

  // ---- commits ----

  ghost predicate FirstGroups(mapping: Mapping, count: int) {
    forall g :: g in mapping <==> 0 <= g < count
  }

  /** What the forward counters say before a commit. */
  lemma ForwardCounters(n: int, layers: int, s: Store, offloaded: int, hosted: int, mapping: Mapping)
    requires ScheduleInv(n, layers, s, offloaded, hosted, mapping) && s.forward
    ensures 0 <= offloaded <= n && 0 <= s.group <= layers
    ensures s.group == layers <==> offloaded == n
    ensures s.group == 0 ==> offloaded == 0
    ensures FirstGroups(mapping, if s.group == 0 then 0 else Min(offloaded + 1, n))
  {
    hide Window;
    ForwardEnds(n, layers, s, offloaded, hosted, mapping);
    if s.group == 0 {
      NothingHostedAtStart(n, layers, s, offloaded, hosted, mapping);
    }
  }

  /** The schedule after a forward commit, with or without a window closing. */
  lemma ForwardSchedule(n: int, layers: int, s: Store, offloaded: int, hosted: int, mapping: Mapping, mapping': Mapping)
    requires ScheduleInv(n, layers, s, offloaded, hosted, mapping) && s.forward && s.group < layers
    ensures 0 <= offloaded < n
    ensures Window(n, layers, offloaded) != s.group && FirstGroups(mapping', Min(offloaded + 1, n)) ==>
              ScheduleInv(n, layers, StoreCommitForward(s), offloaded, Min(offloaded + 1, n), mapping')
    ensures Window(n, layers, offloaded) == s.group && FirstGroups(mapping', Min(offloaded + 2, n)) ==>
              ScheduleInv(n, layers, StoreCommitForward(s), offloaded + 1, Min(offloaded + 2, n), mapping')
  {
    hide Window;
    ForwardEnds(n, layers, s, offloaded, hosted, mapping);
    if offloaded + 1 < n {
      WindowsInOrder(n, layers, offloaded, offloaded + 1);
    }
  }

  lemma ForwardStorage(n: int, layers: int, s: Store, saved: map<Tag, Saved>, mapping: Mapping)
    requires StorageInv(n, layers, s, saved, mapping) && s.forward && s.group < layers
    ensures StorageInv(n, layers, StoreCommitForward(s), saved, mapping)
  {
    hide CopiesInv, GroupsCoherent;
  }

  /** The group offloaded at a commit is complete, or, with every layer offloaded, not begun. */
  lemma NextGroupReady(n: int, layers: int, s: Store, saved: map<Tag, Saved>, mapping: Mapping, mapping': Mapping,
                       offloaded: int, hosted: int)
    requires ScheduleInv(n, layers, s, offloaded, hosted, mapping') && s.forward
    requires StorageInv(n, layers, s, saved, mapping)
    requires offloaded < n - 1 && Window(n, layers, offloaded) == s.group
    ensures n < layers ==> offloaded + 1 <= s.group
    ensures n == layers ==> forall tag :: tag in saved ==> tag.group != offloaded + 1
  {
    WindowsInOrder(n, layers, offloaded, offloaded);
    if n == layers {
      OneLayerWindows(n, offloaded);
      hide Window, ScheduleInv, CopiesInv, GroupsCoherent, HostedInv, SavedRight;
    }
  }

  lemma OneLayerWindows(n: int, i: int)
    requires 0 <= i < n
    ensures Window(n, n, i) == i
  {
    Quotient(n, n, 1, 0);
  }

  /** A reload that fails does so because two tensors of the group share a key but not a size. */
  ghost predicate ReloadFine(n: int, layers: int, s: Store) {
    forall g :: 0 <= g < n <= layers && Window(n, layers, g) == s.group - 1 && (n < layers || g == 0) ==>
      CountsAgree(s.live, g)
  }

  /** What the backward counters say before a commit, in either pass. */
  lemma BackwardCounters(n: int, layers: int, s: Store, offloaded: int, hosted: int, mapping: Mapping)
    requires ScheduleInv(n, layers, s, offloaded, hosted, mapping)
    requires s.group > 0 && (s.forward ==> s.group == layers)
    ensures FirstGroups(mapping, hosted)
    ensures 1 <= offloaded <= n && offloaded == if hosted == 0 then 1 else hosted
    ensures hosted == 0 ==> Window(n, layers, 0) >= s.group
    ensures hosted > 0 ==> Window(n, layers, hosted - 1) < s.group
    ensures hosted < n ==> Window(n, layers, hosted) >= s.group
  {
    hide Window;
    WindowEnds(n, layers);
    if s.forward {
      ForwardEnds(n, layers, s, offloaded, hosted, mapping);
    }
  }

  lemma BackwardSchedule(n: int, layers: int, s: Store, offloaded: int, hosted: int, mapping: Mapping, mapping': Mapping)
    requires ScheduleInv(n, layers, s, offloaded, hosted, mapping)
    requires s.group > 0 && (s.forward ==> s.group == layers && s.count == 0)
    ensures 1 <= offloaded <= n
    ensures Window(n, layers, offloaded - 1) == s.group - 1 && FirstGroups(mapping', hosted - 1) ==>
              hosted > 0
              && ScheduleInv(n, layers, s.(group := s.group - 1, forward := false),
                             if s.group == 1 then 0 else if offloaded > 1 then offloaded - 1 else offloaded,
                             hosted - 1, mapping')
    ensures Window(n, layers, offloaded - 1) != s.group - 1 ==>
              ScheduleInv(n, layers, s.(group := s.group - 1, forward := false),
                          if s.group == 1 then 0 else offloaded, hosted, mapping)
  {
    hide Window;
    BackwardCounters(n, layers, s, offloaded, hosted, mapping);
    if hosted > 0 {
      WindowsInOrder(n, layers, hosted - 1, hosted - 1);
    }
    if hosted > 1 {
      WindowsInOrder(n, layers, hosted - 2, hosted - 1);
    }
  }

  /** The group whose window closes at the layer being left is the last one on the host. */
  lemma ReloadFineIff(n: int, layers: int, s: Store, saved: map<Tag, Saved>, mapping: Mapping, offloaded: int, hosted: int)
    requires ScheduleInv(n, layers, s, offloaded, hosted, mapping) && StorageInv(n, layers, s, saved, mapping)
    requires s.group > 0 && (s.forward ==> s.group == layers)
    ensures 1 <= offloaded <= n
    ensures Window(n, layers, offloaded - 1) == s.group - 1 ==>
              offloaded - 1 in mapping && (Reloadable(saved, offloaded - 1, mapping[offloaded - 1]) <==> ReloadFine(n, layers, s))
    ensures Window(n, layers, offloaded - 1) != s.group - 1 ==> ReloadFine(n, layers, s)
  {
    hide Window, StorageInv, CountsAgree;
    BackwardCounters(n, layers, s, offloaded, hosted, mapping);
    var g := offloaded - 1;
    forall h | 0 <= h < n && Window(n, layers, h) == s.group - 1 ensures h == g {
      if h < g {
        WindowsInOrder(n, layers, h, g);
      } else if h > g {
        WindowsInOrder(n, layers, g, h);
        if hosted < n && hosted <= h {
          WindowsInOrder(n, layers, hosted, h);
        }
      }
    }
    if Window(n, layers, g) == s.group - 1 {
      ReloadableIff(n, layers, s, saved, mapping, g);
    }
  }

  /** Turning round: a complete forward pass is the start of the backward pass. */
  lemma TurnStorage(n: int, layers: int, s: Store, saved: map<Tag, Saved>, mapping: Mapping, group: int)
    requires StorageInv(n, layers, s, saved, mapping)
    ensures StorageInv(n, layers, s.(group := group, forward := false), saved, mapping)
  {
    hide CopiesInv, GroupsCoherent;
    var s' := s.(group := group, forward := false);
    forall tag | tag in saved ensures SavedRight(s'.live[tag], saved[tag], s'.forward, tag.group, mapping) {
      assert SavedRight(s.live[tag], saved[tag], s.forward, tag.group, mapping);
    }
  }

  lemma TurnBuf(n: int, layers: int, s: Store, buf: map<Tag, Option<Tensor>>, mapping: Mapping, offloaded: int, hosted: int, offloaded': int)
    requires ScheduleInv(n, layers, s, offloaded, hosted, mapping) && BufInv(n, s, buf, offloaded)
    requires s.group > 0 && (s.forward ==> s.group == layers)
    ensures BufInv(n, StoreCommitBackward(s), buf, offloaded')
  {
    hide Window;
    if s.forward {
      ForwardEnds(n, layers, s, offloaded, hosted, mapping);
    }
  }

  lemma TurnCount(n: int, layers: int, s: Store, offloaded: int, hosted: int, mapping: Mapping, saved: map<Tag, Saved>)
    requires ScheduleInv(n, layers, s, offloaded, hosted, mapping) && StorageInv(n, layers, s, saved, mapping)
    requires s.forward ==> s.group == layers
    ensures s.count == 0
  {
    hide Window, CopiesInv, SavedInv, GroupsCoherent, HostedInv;
  }

  lemma HostKeysKnown(n: int, layers: int, s: Store, saved: map<Tag, Saved>, mapping: Mapping, g: int)
    requires StorageInv(n, layers, s, saved, mapping) && g in mapping
    ensures forall tag :: tag in saved && tag.group == g && saved[tag].OnHost? ==> saved[tag].key in mapping[g]
  {
    forall tag | tag in saved && tag.group == g && saved[tag].OnHost? ensures saved[tag].key in mapping[g] {
      assert SavedRight(s.live[tag], saved[tag], s.forward, tag.group, mapping);
    }
  }
}
