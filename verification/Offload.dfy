/** The asynchronous activation offload handler: tensors saved in the forward pass are moved to
    the host group by group and brought back in the backward pass, by the window map. It is
    proved against a store that keeps every tensor under its tag. */
module Offload {
  import opened Basics
  import opened Packing
  import opened OffloadMemory
  import opened OffloadWindow
  import opened OffloadInvariant

  class AsyncHandler {
    const n: int
    const layers: int
    const windows: map<int, int>
    var currentGroup: int
    var countInGroup: nat
    var tagToState: map<Tag, Saved>
    var tagToBuf: map<Tag, Option<Tensor>>
    var offloadedCount: int
    var groupMapping: Mapping
    ghost var store: Store   // the simple handler this one must agree with
    ghost var hosted: int

    ghost predicate Valid()
      reads this
    {
      && 1 <= n <= layers
      && (forall i :: i in windows <==> 0 <= i < n)
      && (forall i :: 0 <= i < n ==> windows[i] == Window(n, layers, i))
      && store.group == currentGroup && store.count == countInGroup
      && ScheduleInv(n, layers, store, offloadedCount, hosted, groupMapping)
      && StorageInv(n, layers, store, tagToState, groupMapping)
      && BufInv(n, store, tagToBuf, offloadedCount)
    }

    constructor (n: int, layers: int)
      requires 1 <= n <= layers
      ensures Valid() && store == EMPTY_STORE && this.n == n && this.layers == layers
    {
      var w := BuildWindowMap(n, layers);
      this.n, this.layers, windows := n, layers, w;
      currentGroup, countInGroup, offloadedCount := 0, 0, 0;
      tagToState, tagToBuf, groupMapping := map[], map[], map[];
      store, hosted := EMPTY_STORE, 0;
      new;
      WindowsInOrder(n, layers, 0, 0);
    }

    /** A push puts the tensor under the next tag of the group; its assertion fails exactly when that
        tag is taken, which in a forward pass it never is. */
    method TensorPush(t: Tensor, needOffload: bool) returns (ok: bool, handle: Handle)
      requires Valid()
      modifies this`countInGroup, this`tagToState, this`tagToBuf, this`store
      ensures ok <==> !needOffload || Tag(old(currentGroup), old(countInGroup)) !in old(tagToState)
      ensures !needOffload ==>
                && handle == Stray(t) && Valid() && store == old(store) && countInGroup == old(countInGroup)
                && tagToState == old(tagToState) && tagToBuf == old(tagToBuf)
      ensures needOffload && ok ==>
                && handle == Tagged(Tag(old(currentGroup), old(countInGroup)))
                && countInGroup == old(countInGroup) + 1
                && tagToState == old(tagToState)[handle.tag := OnDevice(t)]
                && tagToBuf == if currentGroup < n then old(tagToBuf)[handle.tag := Some(t)] else old(tagToBuf)
      ensures needOffload && old(store).forward && old(store).group < layers
              && GroupsCoherent(StorePush(old(store), t).live) ==>
                ok && Valid() && handle.tag !in old(store).live && store == StorePush(old(store), t)
    {
      hide ScheduleInv, StorageInv, BufInv, GroupsCoherent, Window;
      if needOffload {
        ghost var inTurn := store.forward && store.group < layers && GroupsCoherent(StorePush(store, t).live);
        if inTurn {
          PushKeeps(n, layers, store, tagToState, groupMapping, offloadedCount, hosted, t);
          PushBuf(n, layers, store, tagToState, tagToBuf, groupMapping, offloadedCount, hosted, t);
          SavedAt(n, layers, store, tagToState, groupMapping, Tag(currentGroup, countInGroup));
        }
        var tag := Tag(currentGroup, countInGroup);
        countInGroup := countInGroup + 1;
        if tag in tagToState {
          return false, Stray(t);
        }
        tagToState := tagToState[tag := OnDevice(t)];
        if currentGroup < n {
          tagToBuf := tagToBuf[tag := Some(t)];
        }
        ok, handle := true, Tagged(tag);
        if inTurn {
          store := StorePush(store, t);
        }
      } else {
        ok, handle := true, Stray(t);
      }
    }

    /** A pop returns a tensor exactly when the tag is stored as one, which it is once the
        backward pass has reached its group; and then it is the value that was pushed. */
    method TensorPop(handle: Handle) returns (ok: bool, t: Tensor)
      requires Valid()
      modifies this`tagToState, this`tagToBuf, this`store
      ensures handle.Tagged? && ok ==>
                tagToState == old(tagToState) - {handle.tag} && tagToBuf == old(tagToBuf) - {handle.tag}
      ensures handle.Stray? ==> ok && t == handle.tensor && store == old(store) && Valid()
      ensures handle.Tagged? ==>
                (ok <==> handle.tag in old(tagToState) && old(tagToState)[handle.tag].OnDevice?)
      ensures handle.Tagged? && handle.tag in old(store).live && !old(store).forward
              && handle.tag.group >= old(store).group ==>
                ok && Valid() && store == StorePop(old(store), handle.tag)
      ensures handle.Tagged? && ok ==>
                handle.tag in old(store).live && ValueOf(t) == ValueOf(old(store).live[handle.tag])
    {
      hide ScheduleInv, StorageInv, BufInv, ValueOf, StorePop, Window;
      match handle
      case Stray(tensor) =>
        return true, tensor;
      case Tagged(tag) =>
        t := Tensor(0, 0, UInt8, [0], []);
        SavedAt(n, layers, store, tagToState, groupMapping, tag);
        ghost var inTurn := tag in store.live && !store.forward && tag.group >= store.group;
        if inTurn {
          PopFinds(n, layers, store, tagToState, groupMapping, offloadedCount, hosted, tag);
          PopKeeps(n, layers, store, tagToState, groupMapping, offloadedCount, hosted, tag);
          PopBuf(n, store, tagToBuf, offloadedCount, tag);
        }
        if tag !in tagToState || tagToState[tag].OnHost? {
          return false, t;
        }
        t := tagToState[tag].tensor;
        tagToState, tagToBuf := tagToState - {tag}, tagToBuf - {tag};
        ok := true;
        if inTurn {
          store := StorePop(store, tag);
        }
    }

    /** Moves the tensors of a group to the host, one copy for each key. */
    method BulkOffloadGroup(g: int)
      requires OnDeviceGroup(tagToState, g)
      modifies this`tagToState, this`groupMapping
      ensures tagToState == OffloadedState(old(tagToState), g)
      ensures g in groupMapping && groupMapping == old(groupMapping)[g := groupMapping[g]]
      ensures CopiesOf(old(tagToState), g, groupMapping[g])
    {
      ghost var was := tagToState;
      var offloading: map<Key, Tensor> := map[];
      var todo := tagToState.Keys;
      while todo != {}
        invariant todo <= was.Keys
        invariant tagToState.Keys == was.Keys && groupMapping == old(groupMapping)
        invariant forall tag :: tag in was ==>
                    tagToState[tag] == if tag in todo then was[tag] else OffloadedEntry(tag, was[tag], g)
        invariant forall tag :: tag in was && tag !in todo && tag.group == g ==> KeyOf(was[tag].tensor) in offloading
        invariant forall key :: key in offloading ==>
                    exists tag :: tag in was && tag.group == g && KeyOf(was[tag].tensor) == key
                                  && offloading[key] == was[tag].tensor
        decreases todo
      {
        var tag :| tag in todo;
        todo := todo - {tag};
        if tag.group == g {
          var tensor := tagToState[tag].tensor;
          var key := KeyOf(tensor);
          if key !in offloading {
            offloading := offloading[key := tensor];
          }
          tagToState := tagToState[tag := OnHost(key, tensor.shape)];
        }
      }
      groupMapping := groupMapping[g := map key | key in offloading :: CopyToHost(offloading[key])];
      assert tagToState == OffloadedState(was, g);
    }

    /** Brings a group back. `view` fails on a copy with the wrong number of elements. */
    method BulkReloadGroup(g: int) returns (ok: bool)
      requires g < n && g in groupMapping
      requires forall tag :: tag in tagToState && tag.group == g && tagToState[tag].OnHost? ==>
                 tagToState[tag].key in groupMapping[g]
      modifies this`tagToState, this`groupMapping
      ensures ok <==> Reloadable(old(tagToState), g, old(groupMapping)[g])
      ensures ok ==> ReloadedFrom(old(tagToState), g, old(groupMapping)[g], tagToState)
      ensures ok ==> groupMapping == old(groupMapping) - {g}
    {
      ghost var was, copies := tagToState, groupMapping[g];
      var mapping := groupMapping[g];
      groupMapping := groupMapping - {g};
      var todo := tagToState.Keys;
      while todo != {}
        invariant todo <= was.Keys && tagToState.Keys == was.Keys && groupMapping == old(groupMapping) - {g}
        invariant forall tag :: tag in todo ==> tagToState[tag] == was[tag]
        invariant forall tag :: tag in was && tag !in todo ==>
                    if tag.group == g && was[tag].OnHost? then
                      && was[tag].key in copies && |copies[was[tag].key].data| == Numel(was[tag].shape)
                      && tagToState[tag].OnDevice?
                      && ValueOf(tagToState[tag].tensor)
                         == Value(copies[was[tag].key].dtype, was[tag].shape, copies[was[tag].key].data)
                    else tagToState[tag] == was[tag]
        decreases todo
      {
        var tag :| tag in todo;
        todo := todo - {tag};
        if tag.group == g && tagToState[tag].OnHost? {
          var copy, shape := mapping[tagToState[tag].key], tagToState[tag].shape;
          if |copy.data| != Numel(shape) {
            assert was[tag].OnHost? && was[tag].key in copies && |copies[was[tag].key].data| != Numel(was[tag].shape);
            return false;
          }
          var ptr: nat := *;
          tagToState := tagToState[tag := OnDevice(Reload(copy, ptr, shape))];
        }
      }
      ok := true;
    }

    /** Offloading the next group keeps what is known of tensors and copies. */
    method OffloadNext(g: int)
      requires StorageInv(n, layers, store, tagToState, groupMapping) && store.forward && g !in groupMapping
      requires n < layers || g == 0 || forall tag :: tag in tagToState ==> tag.group != g
      modifies this`tagToState, this`groupMapping
      ensures StorageInv(n, layers, store, tagToState, groupMapping)
      ensures forall h :: h in groupMapping <==> h in old(groupMapping) || h == g
    {
      ghost var saved, mapping := tagToState, groupMapping;
      DeviceOutsideMapping(n, layers, store, saved, mapping, g);
      BulkOffloadGroup(g);
      OffloadKeeps(n, layers, store, saved, mapping, g, groupMapping[g]);
    }

    /** Frees and offloads what is due at the end of a layer. The window lookup fails only beyond
        the last layer. */
    method SynchronizeForward() returns (ok: bool)
      requires Valid() && store.forward
      modifies this`tagToState, this`groupMapping, this`tagToBuf, this`offloadedCount
      ensures ok <==> store.group < layers
      ensures ok ==> StorageInv(n, layers, store, tagToState, groupMapping)
      ensures ok ==> BufInv(n, StoreCommitForward(store), tagToBuf, offloadedCount)
      ensures ok ==> ScheduleInv(n, layers, StoreCommitForward(store), offloadedCount,
                                 Min(offloadedCount + 1, n), groupMapping)
    {
      ghost var k, h, mapping := offloadedCount, hosted, groupMapping;
      hide StorageInv, BufInv, Window, ScheduleInv, Freed, StoreCommitForward;
      ForwardCounters(n, layers, store, k, h, mapping);
      if currentGroup == 0 {
        OffloadNext(0);
      }
      if offloadedCount !in windows {
        return false;
      }
      FreeBuf(n, store, tagToBuf, k);
      if windows[offloadedCount] == currentGroup {
        tagToBuf := Freed(tagToBuf, offloadedCount);
        if offloadedCount < n - 1 {
          NextGroupReady(n, layers, store, tagToState, groupMapping, mapping, k, h);
          OffloadNext(offloadedCount + 1);
        }
        offloadedCount := offloadedCount + 1;
      }
      ForwardSchedule(n, layers, store, k, h, mapping, groupMapping);
      ok := true;
    }

    /** The end of a layer's forward pass. */
    method OnGroupCommitForward() returns (ok: bool)
      requires Valid() && store.forward
      modifies this
      ensures ok <==> old(store).group < layers
      ensures ok ==> Valid() && store == StoreCommitForward(old(store))
    {
      hide StorageInv, BufInv, Window, ScheduleInv, StoreCommitForward;
      ok := SynchronizeForward();
      if !ok {
        return;
      }
      ForwardStorage(n, layers, store, tagToState, groupMapping);
      currentGroup, countInGroup := currentGroup + 1, 0;
      hosted := Min(offloadedCount + 1, n);
      store := StoreCommitForward(store);
    }

    /** The start of a layer's backward pass. The counter's assertion fails only below the first
        layer; the reload due at this layer fails exactly when two tensors of the group share a
        key but not a size. */
    method OnGroupCommitBackward() returns (ok: bool)
      requires Valid() && (store.forward ==> store.group == layers)
      modifies this
      ensures ok <==> old(store).group > 0 && ReloadFine(n, layers, old(store))
      ensures ok ==> Valid() && store == StoreCommitBackward(old(store))
    {
      hide StorageInv, BufInv, Window, ScheduleInv, ReloadFine, Reloadable, ReloadedFrom;
      currentGroup := currentGroup - 1;
      if currentGroup < 0 {
        return false;
      }
      ghost var k, h, mapping, saved := offloadedCount, hosted, groupMapping, tagToState;
      TurnCount(n, layers, store, k, h, mapping, saved);
      BackwardCounters(n, layers, store, k, h, mapping);
      BackwardSchedule(n, layers, store, k, h, mapping, mapping - {k - 1});
      ReloadFineIff(n, layers, store, saved, mapping, k, h);
      TurnStorage(n, layers, store, saved, mapping, currentGroup);
      ghost var turned := store.(group := currentGroup, forward := false);
      if windows[offloadedCount - 1] == currentGroup {
        HostKeysKnown(n, layers, store, saved, mapping, k - 1);
        ok := BulkReloadGroup(offloadedCount - 1);
        if !ok {
          return;
        }
        ReloadKeeps(n, layers, turned, saved, mapping, k - 1, tagToState);
        offloadedCount := offloadedCount - (if offloadedCount > 1 then 1 else 0);
        hosted := h - 1;
      }
      if currentGroup == 0 {
        offloadedCount := 0;
      }
      TurnBuf(n, layers, store, tagToBuf, mapping, k, h, offloadedCount);
      SettleKeeps(n, layers, turned, tagToState, groupMapping, offloadedCount, hosted);
      store := StoreCommitBackward(store);
      ok := true;
    }
  }
}
