/** Whole runs of the offload handler: it answers every pop like the simple store, ends where it
    began, and as it is used keeps at most two groups on the device. */
module OffloadRun {
  import opened Basics
  import opened Packing
  import opened OffloadMemory
  import opened OffloadWindow
  import opened OffloadInvariant
  import opened Offload

  datatype Event =
    | Push(t: Tensor, needOffload: bool)
    | Pop(handle: Handle)
    | CommitForward
    | CommitBackward

  function Next(s: Store, e: Event): Store {
    match e
    case Push(t, needOffload) => if needOffload then StorePush(s, t) else s
    case Pop(handle) => if handle.Tagged? then StorePop(s, handle.tag) else s
    case CommitForward => StoreCommitForward(s)
    case CommitBackward => StoreCommitBackward(s)
  }

  /** The order autograd keeps: pushes and commits of `layers` layers, then as many commits back,
      each tag popped once, after the commit of its group; and then the next such pass. */
  ghost predicate Legal(n: int, layers: int, s: Store, e: Event) {
    match e
    case Push(t, needOffload) =>
      s.forward && s.group < layers && (needOffload ==> GroupsCoherent(StorePush(s, t).live))
    case Pop(handle) => handle.Tagged? ==> handle.tag in s.live && !s.forward && handle.tag.group >= s.group
    case CommitForward => s.forward && s.group < layers
    case CommitBackward => s.group > 0 && (s.forward ==> s.group == layers) && ReloadFine(n, layers, s)
  }

  ghost predicate LegalRun(n: int, layers: int, s: Store, events: seq<Event>)
    decreases |events|
  {
    events != [] ==> Legal(n, layers, s, events[0]) && LegalRun(n, layers, Next(s, events[0]), events[1..])
  }

  function After(s: Store, events: seq<Event>): Store
    decreases |events|
  {
    if events == [] then s else After(Next(s, events[0]), events[1..])
  }

  /** What the simple store answers: the value pushed under the popped tag. */
  ghost function Answer(s: Store, e: Event): seq<Value> {
    match e
    case Pop(Tagged(tag)) => if tag in s.live then [ValueOf(s.live[tag])] else []
    case Pop(Stray(t)) => [ValueOf(t)]
    case _ => []
  }

  ghost function Answers(s: Store, events: seq<Event>): seq<Value>
    decreases |events|
  {
    if events == [] then [] else Answer(s, events[0]) + Answers(Next(s, events[0]), events[1..])
  }

  method Step(h: AsyncHandler, e: Event) returns (ok: bool, answer: seq<Value>)
    requires h.Valid() && Legal(h.n, h.layers, h.store, e)
    modifies h
    ensures ok && h.Valid() && h.store == Next(old(h.store), e) && answer == Answer(old(h.store), e)
  {
    hide ScheduleInv, StorageInv, BufInv, Window, GroupsCoherent;
    match e
    case Push(t, needOffload) =>
      var handle;
      ok, handle := h.TensorPush(t, needOffload);
      answer := [];
    case Pop(handle) =>
      var t;
      ok, t := h.TensorPop(handle);
      answer := [ValueOf(t)];
    case CommitForward =>
      ok := h.OnGroupCommitForward();
      answer := [];
    case CommitBackward =>
      ok := h.OnGroupCommitBackward();
      answer := [];
  }

  /** On every legal run no assertion, lookup or view of the handler fails, and its pops return,
      one by one, the values the simple store returns. */
  method Replay(h: AsyncHandler, events: seq<Event>) returns (ok: bool, answers: seq<Value>)
    requires h.Valid() && LegalRun(h.n, h.layers, h.store, events)
    modifies h
    ensures ok && h.Valid() && answers == Answers(old(h.store), events)
    ensures h.store == After(old(h.store), events)
  {
    ok, answers := true, [];
    var i := 0;
    assert events[0..] == events;
    while i < |events|
      invariant 0 <= i <= |events| && ok
      invariant h.Valid() && LegalRun(h.n, h.layers, h.store, events[i..])
      invariant answers + Answers(h.store, events[i..]) == Answers(old(h.store), events)
      invariant After(h.store, events[i..]) == After(old(h.store), events)
    {
      hide Legal, Next, Answer, ScheduleInv, StorageInv, BufInv;
      assert events[i..][0] == events[i] && events[i..][1..] == events[i + 1..];
      var answer;
      ok, answer := Step(h, events[i]);
      answers := answers + answer;
      i := i + 1;
    }
  }

  /** When the simple store is back at its start, so is every field of the handler. */
  lemma EndsWhereItBegan(h: AsyncHandler)
    requires h.Valid() && h.store == EMPTY_STORE
    ensures h.currentGroup == 0 && h.countInGroup == 0 && h.offloadedCount == 0
    ensures h.tagToState == map[] && h.tagToBuf == map[] && h.groupMapping == map[]
  {
    hide Window, CopiesInv, GroupsCoherent, HostedInv, TagsInv;
    NothingHostedAtStart(h.n, h.layers, h.store, h.offloadedCount, h.hosted, h.groupMapping);
    assert h.tagToState.Keys == {};
    assert forall tag :: tag !in h.tagToBuf;
  }

  /** Between the steps of a legal run: going forward no tag of the current group has been popped,
      and after the last layer nothing has been pushed; going back nothing is pushed, and the pass
      is over as soon as the first group is reached and every tag is popped. */
  ghost predicate BetweenSteps(layers: int, s: Store) {
    && 0 <= s.group <= layers
    && (s.forward ==> forall i: nat :: i < s.count ==> Tag(s.group, i) in s.live)
    && (s.forward && s.group == layers ==> s.count == 0)
    && (!s.forward ==> s.count == 0 && s.group < layers && !(s.group == 0 && s.live == map[]))
  }

  lemma StaysBetweenSteps(n: int, layers: int, s: Store, e: Event)
    requires BetweenSteps(layers, s) && Legal(n, layers, s, e)
    ensures BetweenSteps(layers, Next(s, e))
  {
    hide GroupsCoherent, ReloadFine;
    if e.Push? && e.needOffload {
      forall i: nat | i < s.count + 1 ensures Tag(s.group, i) in Next(s, e).live {
        assert i < s.count ==> Tag(s.group, i) in s.live;
      }
    }
  }

  lemma {:induction false} RunStaysBetweenSteps(n: int, layers: int, s: Store, events: seq<Event>)
    requires BetweenSteps(layers, s) && LegalRun(n, layers, s, events)
    ensures BetweenSteps(layers, After(s, events))
    decreases |events|
  {
    hide Legal, Next, BetweenSteps;
    if events != [] {
      StaysBetweenSteps(n, layers, s, events[0]);
      RunStaysBetweenSteps(n, layers, Next(s, events[0]), events[1..]);
    }
  }

  /** A legal run that has committed back to the first group and popped every tag has brought the
      store back to its start, whatever it pushed in between and in however many passes. */
  lemma CompleteRunIsReset(n: int, layers: int, events: seq<Event>)
    requires 0 <= layers && LegalRun(n, layers, EMPTY_STORE, events)
    requires After(EMPTY_STORE, events).group == 0 && After(EMPTY_STORE, events).live == map[]
    ensures After(EMPTY_STORE, events) == EMPTY_STORE
  {
    hide LegalRun, After;
    RunStaysBetweenSteps(n, layers, EMPTY_STORE, events);
    var s := After(EMPTY_STORE, events);
    assert Tag(s.group, 0) !in s.live;
  }

  /** A complete iteration: every pop is answered as the simple store does, nothing fails, and the
      handler is as it was before, ready for the next iteration. */
  method Iterate(h: AsyncHandler, events: seq<Event>) returns (ok: bool, answers: seq<Value>)
    requires h.Valid() && h.store == EMPTY_STORE && LegalRun(h.n, h.layers, EMPTY_STORE, events)
    requires After(EMPTY_STORE, events).group == 0 && After(EMPTY_STORE, events).live == map[]
    modifies h
    ensures ok && h.Valid() && h.store == EMPTY_STORE && answers == Answers(EMPTY_STORE, events)
    ensures h.currentGroup == 0 && h.countInGroup == 0 && h.offloadedCount == 0
    ensures h.tagToState == map[] && h.tagToBuf == map[] && h.groupMapping == map[]
  {
    hide ScheduleInv, StorageInv, BufInv, LegalRun, After, Answers;
    LayersNotNegative(h);
    ok, answers := Replay(h, events);
    CompleteRunIsReset(h.n, h.layers, events);
    EndsWhereItBegan(h);
  }

  lemma LayersNotNegative(h: AsyncHandler)
    requires h.Valid()
    ensures 0 <= h.layers
  {
  }

  // ---- residency ----

  /** The handler keeps some device tensor of group g alive. */
  ghost predicate HoldsDevice(h: AsyncHandler, g: int)
    reads h
  {
    exists tag: Tag :: tag.group == g
                       && ((tag in h.tagToState && h.tagToState[tag].OnDevice?)
                           || (tag in h.tagToBuf && h.tagToBuf[tag].Some?))
  }

  /** With all layers but the last offloaded, the handler holds device tensors only of the
      current group and the one before it; in the backward pass also of later groups whose tags
      have not been popped yet. */
  lemma GroupsOnDevice(h: AsyncHandler, g: int)
    requires h.Valid() && 2 <= h.n == h.layers - 1 && HoldsDevice(h, g)
    ensures h.store.group - 1 <= g
    ensures h.store.forward ==> g <= h.store.group
    ensures g > h.store.group ==> !h.store.forward && exists tag :: tag in h.store.live && tag.group == g
  {
    var tag: Tag :| tag.group == g
                    && ((tag in h.tagToState && h.tagToState[tag].OnDevice?)
                        || (tag in h.tagToBuf && h.tagToBuf[tag].Some?));
    HostedUpToPrevious(h);
    hide ScheduleInv, CopiesInv, GroupsCoherent, SavedRight;
    assert tag in h.store.live;
  }

  /** Every tag of a group is popped before the commit that leaves the group behind. */
  ghost predicate PoppedInTurn(s: Store, events: seq<Event>)
    decreases |events|
  {
    events != [] ==>
      && (events[0].CommitBackward? ==> forall tag :: tag in s.live ==> tag.group < s.group)
      && PoppedInTurn(Next(s, events[0]), events[1..])
  }

  ghost predicate NoLaterGroups(s: Store) {
    forall tag :: tag in s.live ==> tag.group <= s.group
  }

  lemma {:induction false} NoLaterGroupsAfter(s: Store, events: seq<Event>)
    requires NoLaterGroups(s) && PoppedInTurn(s, events)
    ensures NoLaterGroups(After(s, events))
    decreases |events|
  {
    if events != [] {
      assert NoLaterGroups(Next(s, events[0]));
      NoLaterGroupsAfter(Next(s, events[0]), events[1..]);
    }
  }

  /** So if tags are popped in turn, device tensors of two groups at most are held, at any point of
      any run: those of the current group and of the one before it. */
  lemma AtMostTwoGroupsOnDevice(h: AsyncHandler, events: seq<Event>, g: int)
    requires h.Valid() && 2 <= h.n == h.layers - 1 && HoldsDevice(h, g)
    requires PoppedInTurn(EMPTY_STORE, events) && h.store == After(EMPTY_STORE, events)
    ensures h.store.group - 1 <= g <= h.store.group
  {
    hide HoldsDevice, PoppedInTurn, After;
    GroupsOnDevice(h, g);
    NoLaterGroupsAfter(EMPTY_STORE, events);
  }

  /** The groups on the host, and the groups whose extra references are gone, are those before
      the previous group. */
  lemma HostedUpToPrevious(h: AsyncHandler)
    requires h.Valid() && 2 <= h.n == h.layers - 1
    ensures forall g :: 0 <= g < h.store.group - 1 && g < h.n ==> g in h.groupMapping
    ensures h.store.forward ==> h.offloadedCount >= Min(h.store.group - 1, h.n)
  {
    hide StorageInv, BufInv, Window;
    var n, layers := h.n, h.layers;
    if h.store.forward {
      if h.offloadedCount < n {
        WindowAllButLast(n, layers, h.offloadedCount);
      }
    } else if h.hosted < n {
      WindowAllButLast(n, layers, h.hosted);
    }
  }

  // ---- arguments through a checkpointed call ----

  /** `_pack_kwargs`: positional arguments, then the keyword values; and the keywords. */
  function PackKwargs<V>(args: seq<V>, kwargs: seq<(string, V)>): (seq<V>, seq<string>) {
    (args + seq(|kwargs|, i requires 0 <= i < |kwargs| => kwargs[i].1),
     seq(|kwargs|, i requires 0 <= i < |kwargs| => kwargs[i].0))
  }

  /** `_unpack_kwargs`; the slice `flat[:-0]` would be empty, hence the separate case. */
  function UnpackKwargs<V>(flat: seq<V>, keys: seq<string>): Option<(seq<V>, seq<(string, V)>)> {
    if |keys| > |flat| then None
    else if |keys| == 0 then Some((flat, []))
    else
      var split := |flat| - |keys|;
      Some((flat[..split], seq(|keys|, i requires 0 <= i < |keys| => (keys[i], flat[split + i]))))
  }

  lemma KwargsRoundTrip<V>(args: seq<V>, kwargs: seq<(string, V)>)
    ensures var packed := PackKwargs(args, kwargs);
            UnpackKwargs(packed.0, packed.1) == Some((args, kwargs))
  {
    var packed := PackKwargs(args, kwargs);
    if kwargs == [] {
      assert packed.0 == args;
    } else {
      assert packed.0[..|args|] == args;
      assert UnpackKwargs(packed.0, packed.1).value.1 == kwargs;
    }
  }
}
