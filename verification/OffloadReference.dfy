/** The synchronized handler: it offloads in the push, reloads in the pop, and is the behaviour
    the asynchronous handler is measured by. */
module OffloadReference {
  import opened Packing
  import opened OffloadMemory
  import opened OffloadInvariant

  datatype SyncSaved = Kept(tensor: Tensor) | Backup(copy: HostCopy)

  class SynchronizedHandler {
    const numOffloadGroup: int
    var currentGroup: int
    var countInGroup: nat
    var tagToState: map<Tag, SyncSaved>
    ghost var store: Store

    ghost predicate Valid()
      reads this
    {
      && store.group == currentGroup && store.count == countInGroup && 0 <= currentGroup
      && tagToState.Keys == store.live.Keys
      && (forall tag :: tag in tagToState ==>
            match tagToState[tag]
            case Kept(t) => t == store.live[tag]
            case Backup(copy) => copy == CopyToHost(store.live[tag]))
      && (store.forward ==> forall tag :: tag in store.live ==>
            tag.group <= currentGroup && (tag.group == currentGroup ==> tag.index < countInGroup))
    }

    constructor (numOffloadGroup: int)
      ensures Valid() && store == EMPTY_STORE
    {
      this.numOffloadGroup := numOffloadGroup;
      currentGroup, countInGroup, tagToState, store := 0, 0, map[], EMPTY_STORE;
    }

    /** Its assertion fails exactly when the tag is taken, which in a forward pass it never is. */
    method TensorPush(t: Tensor, needOffload: bool) returns (ok: bool, tag: Tag)
      requires Valid()
      modifies this
      ensures tag == Tag(old(store).group, old(store).count) && (ok <==> tag !in old(store).live)
      ensures old(store).forward ==> ok
      ensures ok ==> Valid() && store == StorePush(old(store), t)
      ensures ok ==> tag in tagToState
                     && (tagToState[tag].Backup? <==> old(currentGroup) < numOffloadGroup && needOffload)
    {
      tag := Tag(currentGroup, countInGroup);
      countInGroup := countInGroup + 1;
      ok := tag !in tagToState;
      if !ok {
        return;
      }
      if currentGroup < numOffloadGroup && needOffload {
        tagToState := tagToState[tag := Backup(CopyToHost(t))];
      } else {
        tagToState := tagToState[tag := Kept(t)];
      }
      store := StorePush(store, t);
    }

    method TensorPop(tag: Tag) returns (ok: bool, t: Tensor)
      requires Valid()
      modifies this
      ensures Valid() && (ok <==> tag in old(store).live)
      ensures ok ==> ValueOf(t) == ValueOf(old(store).live[tag]) && store == StorePop(old(store), tag)
      ensures !ok ==> store == old(store)
    {
      t := Tensor(0, 0, UInt8, [0], []);
      ok := tag in tagToState;
      if ok {
        var state := tagToState[tag];
        tagToState := tagToState - {tag};
        store := StorePop(store, tag);
        match state
        case Kept(tensor) => t := tensor;
        case Backup(copy) =>
          var ptr: nat := *;
          t := Reload(copy, ptr, copy.shape);
      }
    }

    method OnGroupCommitForward()
      requires Valid()
      modifies this
      ensures Valid() && store == StoreCommitForward(old(store))
    {
      currentGroup, countInGroup := currentGroup + 1, 0;
      store := StoreCommitForward(store);
    }

    method OnGroupCommitBackward() returns (ok: bool)
      requires Valid()
      modifies this
      ensures ok <==> old(store).group > 0
      ensures ok ==> Valid() && store == StoreCommitBackward(old(store))
    {
      currentGroup := currentGroup - 1;
      ok := currentGroup >= 0;
      if ok {
        store := StoreCommitBackward(store);
      }
    }
  }
}
