/** What every run of the NIXL chain guarantees: buffer safety, delivery, progress, and an end. */
module NixlRuns {
  import opened Basics
  import opened Packing
  import opened Buckets
  import opened Filling
  import opened Handing
  import opened Nixl
  import opened NixlInvariant

  lemma {:induction false} RunInv(cfg: Config, states: seq<State>, steps: seq<Step>, t: nat)
    requires cfg.Valid() && Run(cfg, states, steps) && t <= |steps|
    ensures Inv(cfg, states[t]) && WellShaped(cfg, states[t])
  {
    hide Inv, Enabled, Apply, WellShaped, Init;
    if t == 0 {
      InitInv(cfg, states[0]);
    } else {
      RunInv(cfg, states, steps, t - 1);
      StepInv(cfg, states[t - 1], steps[t - 1]);
    }
    InvWellShaped(cfg, states[t]);
  }

  // ---- what runs there are ----

  /** The bytes of a READ land in any order, and the order makes no difference. */
  lemma BytesLandInAnyOrder(cfg: Config, s: State, i: nat, k: nat, l: nat)
    requires WellShaped(cfg, s) && cfg.last >= 1 && k != l
    requires 1 <= i <= cfg.last && s[i].reading.InFlight? && k in s[i].reading.left && l in s[i].reading.left
    requires k < cfg.size && l < cfg.size && s[i].reading.rank <= cfg.last && s[i].reading.buf < 2
    requires s[i].reading.rank != i
    ensures Enabled(cfg, s, CopyByte(i, k)) && Enabled(cfg, s, CopyByte(i, l))
    ensures var a, b := Apply(cfg, s, CopyByte(i, k)), Apply(cfg, s, CopyByte(i, l));
            && WellShaped(cfg, a) && Enabled(cfg, a, CopyByte(i, l))
            && WellShaped(cfg, b) && Enabled(cfg, b, CopyByte(i, k))
            && Apply(cfg, a, CopyByte(i, l)) == Apply(cfg, b, CopyByte(i, k))
  {
    hide Overwrite, DoFill, DoSenderPost, DoReceive, DoSwap, AfterForward, DoYield, DoAwaitNext, TakeNotification;
    hide PostMessage, BucketDict, NextFits, IsBucketDict;
    var n := s[i];
    var bytes := s[n.reading.rank].bufs[n.reading.buf];
    CopiesCommute(n, k, l, bytes[k], bytes[l]);
    var a, b := Apply(cfg, s, CopyByte(i, k)), Apply(cfg, s, CopyByte(i, l));
    assert a[n.reading.rank] == s[n.reading.rank] == b[n.reading.rank];
    hide DoCopy;
    assert Apply(cfg, a, CopyByte(i, l)) == s[i := DoCopy(a[i], l, bytes[l])];
    assert Apply(cfg, b, CopyByte(i, k)) == s[i := DoCopy(b[i], k, bytes[k])];
  }

  lemma CopiesCommute(n: Node, k: nat, l: nat, b: Byte, c: Byte)
    requires n.reading.InFlight? && |n.bufs| == 2 && n.send < 2 && k != l
    requires k < |n.bufs[1 - n.send]| && l < |n.bufs[1 - n.send]|
    ensures DoCopy(DoCopy(n, k, b), l, c) == DoCopy(DoCopy(n, l, c), k, b)
    ensures |DoCopy(n, k, b).bufs| == 2 && DoCopy(n, k, b).bufs[n.send] == n.bufs[n.send]
    ensures DoCopy(n, k, b).send == n.send && |DoCopy(n, k, b).bufs[1 - n.send]| == |n.bufs[1 - n.send]|
    ensures DoCopy(n, k, b).reading == n.reading.(left := n.reading.left - {k})
    ensures |DoCopy(n, l, c).bufs| == 2 && DoCopy(n, l, c).bufs[n.send] == n.bufs[n.send]
    ensures DoCopy(n, l, c).send == n.send && |DoCopy(n, l, c).bufs[1 - n.send]| == |n.bufs[1 - n.send]|
    ensures DoCopy(n, l, c).reading == n.reading.(left := n.reading.left - {l})
  {
    var buf := n.bufs[1 - n.send];
    assert Overwrite(Overwrite(buf, k, [b]), l, [c]) == Overwrite(Overwrite(buf, l, [c]), k, [b]);
    assert n.reading.left - {k} - {l} == n.reading.left - {l} - {k};
  }

  /** Rank 0 has filled in only weights that fit a buffer, and ends only when it has filled in all;
      and once it has posted a bucket it does not begin another for a weight that fits none. */
  ghost predicate FilledFits(cfg: Config, n: Node) {
    && n.next <= |cfg.ws| && (forall k :: 0 <= k < n.next ==> |cfg.ws[k].bytes| <= cfg.size)
    && (n.pc.AwaitLast? || n.pc.Finished? ==> n.next == |cfg.ws|)
    && (n.pc.Filling? && n.posted > 0 && n.filled == [] ==> n.next < |cfg.ws| && |cfg.ws[n.next].bytes| <= cfg.size)
  }

  lemma FilledStillFits(cfg: Config, s: State, step: Step)
    requires WellShaped(cfg, s) && cfg.last >= 1 && Enabled(cfg, s, step) && FilledFits(cfg, s[0])
    ensures |Apply(cfg, s, step)| > 0 && FilledFits(cfg, Apply(cfg, s, step)[0])
  {
    hide PostMessage, BucketDict, Overwrite, Put, DoReceive, DoCopy, DoSwap, DoYield, DoAwaitNext, AfterForward;
  }

  /** Rank 0 gets to the end only when every weight fits a buffer. */
  lemma {:induction false} FinishedFits(cfg: Config, states: seq<State>, steps: seq<Step>, t: nat)
    requires cfg.last >= 1 && Run(cfg, states, steps) && t <= |steps|
    ensures |states[t]| > 0 && FilledFits(cfg, states[t][0])
    ensures states[t][0].pc.Finished? ==> AllFit(cfg.ws, cfg.size)
  {
    hide Enabled, Apply;
    if t > 0 {
      FinishedFits(cfg, states, steps, t - 1);
      FilledStillFits(cfg, states[t - 1], steps[t - 1]);
    }
  }

  // ---- buffer safety ----

  /** The buffers, as (rank, index), that a step writes. */
  function Writes(cfg: Config, s: State, step: Step): set<(nat, nat)>
    requires WellShaped(cfg, s) && cfg.last >= 1 && Enabled(cfg, s, step)
  {
    match step
    case Fill => {(0, s[0].send)}
    case CopyByte(i, _) => {(i, 1 - s[i].send)}
    case _ => {}
  }

  /** What a rank does without filling or copying leaves its buffers alone. */
  lemma BufsKept(cfg: Config, n: Node, key: Key, message: Dict)
    requires |n.bufs| == 2 && n.send < 2
    ensures n.outstanding.Some? && n.notifs != [] ==> TakeNotification(n).bufs == n.bufs
    ensures DoSenderPost(cfg, n, key).bufs == n.bufs && Deliver(n, message).bufs == n.bufs
    ensures n.inbox != [] ==> DoReceive(cfg, n).bufs == n.bufs
    ensures DoSwap(n).bufs == n.bufs && AfterForward(n).bufs == n.bufs && AfterForward(Post(n, key)).bufs == n.bufs
    ensures IsBucketDict(n.metadata) && n.next < |MetaIn(n.metadata)| ==> DoYield(n).bufs == n.bufs
    ensures IsBucketDict(n.metadata) && (n.outstanding.Some? ==> n.notifs != []) ==> DoAwaitNext(n).bufs == n.bufs
  {
    hide IsBucketDict, IsMessage, View, Offsets, Strip;
  }

  /** Filling writes the send buffer and copying the receive buffer, and only that. */
  lemma OneBufWritten(cfg: Config, n: Node, k: nat, byte: Byte)
    requires |n.bufs| == 2 && n.send < 2 && |n.bufs[0]| == |n.bufs[1]| == cfg.size
    ensures NextFits(cfg, n) ==> |DoFill(cfg, n).bufs| == 2 && DoFill(cfg, n).bufs[1 - n.send] == n.bufs[1 - n.send]
    ensures n.reading.InFlight? && k < cfg.size ==>
              |DoCopy(n, k, byte).bufs| == 2 && DoCopy(n, k, byte).bufs[n.send] == n.bufs[n.send]
  {
    hide Overwrite, NBytes, MetaAt;
  }

  lemma SenderWrites(cfg: Config, s: State, step: Step, r: nat, b: nat)
    requires WellShaped(cfg, s) && cfg.last >= 1 && Enabled(cfg, s, step)
    requires r <= cfg.last && b < 2 && (r, b) !in Writes(cfg, s, step)
    requires step.Fill? || step.SenderAwait? || step.SenderPost? || step.FinalAwait?
    ensures |Apply(cfg, s, step)| == |s| && |Apply(cfg, s, step)[r].bufs| == 2
    ensures Apply(cfg, s, step)[r].bufs[b] == s[r].bufs[b]
  {
    hide TakeNotification, DoSenderPost, Deliver, DoReceive, DoSwap, AfterForward, DoYield, DoAwaitNext, DoFill, DoCopy;
    hide PostMessage, BucketDict, NextFits, IsBucketDict, MetaIn;
    if step.Fill? {
      OneBufWritten(cfg, s[0], 0, 0);
    } else if step.SenderPost? {
      var message := PostMessage(step.key, 0, s[0].send, BucketDict(s[0].meta, s[0].next >= |cfg.ws|));
      BufsKept(cfg, s[0], step.key, map[]);
      BufsKept(cfg, s[1], step.key, message);
    } else {
      BufsKept(cfg, s[0], 0, map[]);
    }
  }

  lemma PairWrites(cfg: Config, s: State, step: Step, r: nat, b: nat)
    requires WellShaped(cfg, s) && cfg.last >= 1 && Enabled(cfg, s, step)
    requires r <= cfg.last && b < 2 && (r, b) !in Writes(cfg, s, step)
    requires step.Relay? || step.Land?
    ensures |Apply(cfg, s, step)| == |s| && |Apply(cfg, s, step)[r].bufs| == 2
    ensures Apply(cfg, s, step)[r].bufs[b] == s[r].bufs[b]
  {
    hide TakeNotification, DoSenderPost, Deliver, DoReceive, DoSwap, AfterForward, DoYield, DoAwaitNext, DoFill, DoCopy;
    hide PostMessage, BucketDict, NextFits, IsBucketDict, MetaIn;
    var i := step.i;
    if step.Relay? {
      BufsKept(cfg, s[i], step.key, map[]);
      if i < cfg.last {
        BufsKept(cfg, s[i + 1], step.key, PostMessage(step.key, i, s[i].send, s[i].metadata));
      }
    }
  }

  lemma ReceiverWrites(cfg: Config, s: State, step: Step, r: nat, b: nat)
    requires WellShaped(cfg, s) && cfg.last >= 1 && Enabled(cfg, s, step)
    requires r <= cfg.last && b < 2 && (r, b) !in Writes(cfg, s, step)
    requires step.Receive? || step.CopyByte? || step.Swap? || step.Yield? || step.AwaitNext?
    ensures |Apply(cfg, s, step)| == |s| && |Apply(cfg, s, step)[r].bufs| == 2
    ensures Apply(cfg, s, step)[r].bufs[b] == s[r].bufs[b]
  {
    hide TakeNotification, DoSenderPost, Deliver, DoReceive, DoSwap, AfterForward, DoYield, DoAwaitNext, DoFill, DoCopy;
    hide PostMessage, BucketDict, NextFits, IsBucketDict, MetaIn;
    var n := s[step.i];
    if step.CopyByte? {
      OneBufWritten(cfg, n, step.k, s[n.reading.rank].bufs[n.reading.buf][step.k]);
    } else {
      BufsKept(cfg, n, 0, map[]);
    }
  }

  /** `Writes` misses nothing. */
  lemma WritesAreAll(cfg: Config, s: State, step: Step, r: nat, b: nat)
    requires WellShaped(cfg, s) && cfg.last >= 1 && Enabled(cfg, s, step)
    requires r <= cfg.last && b < 2 && (r, b) !in Writes(cfg, s, step)
    ensures |Apply(cfg, s, step)| == |s| && |Apply(cfg, s, step)[r].bufs| == 2
    ensures Apply(cfg, s, step)[r].bufs[b] == s[r].bufs[b]
  {
    hide Apply, Writes, Enabled, WellShaped;
    match step
    case Fill => SenderWrites(cfg, s, step, r, b);
    case SenderAwait => SenderWrites(cfg, s, step, r, b);
    case SenderPost(_) => SenderWrites(cfg, s, step, r, b);
    case FinalAwait => SenderWrites(cfg, s, step, r, b);
    case Relay(_, _) => PairWrites(cfg, s, step, r, b);
    case Land(_) => PairWrites(cfg, s, step, r, b);
    case _ => ReceiverWrites(cfg, s, step, r, b);
  }

  /** The next rank has been told to read buffer b of rank r, or is reading it. */
  ghost predicate MayBeRead(s: State, r: nat, b: nat)
    requires r < |s|
  {
    && r + 1 < |s|
    && ((exists m :: m in s[r + 1].inbox && "remote_descs" in m && m["remote_descs"] == DescField(r, b))
        || (s[r + 1].reading.InFlight? && s[r + 1].reading.rank == r && s[r + 1].reading.buf == b))
  }

  /** Rank r has posted buffer b and has not yet waited for it to be read. */
  ghost predicate AwaitsReader(s: State, r: nat, b: nat)
    requires r < |s|
  {
    s[r].outstanding.Some? && s[r].posted > 0 && b == BufOf(r, s[r].posted - 1)
  }

  /** Rank r is relaying and handing out tensors that are views of its buffer b. */
  ghost predicate BeingYielded(s: State, r: nat, b: nat)
    requires r < |s|
  {
    r >= 1 && (s[r].pc.Forward? || s[r].pc.NextMeta? || s[r].pc.Yielding?) && b == s[r].send
  }

  lemma WriteTargetFree(cfg: Config, i: nat, n: Node)
    requires NodeInv(cfg, i, n)
    ensures i == 0 && n.pc.Filling? && n.outstanding.Some? ==> BufOf(0, n.posted - 1) != n.send
    ensures i >= 1 && n.outstanding.Some? ==> BufOf(i, n.posted - 1) == n.send
    ensures n.outstanding.Some? ==> n.posted > 0
    ensures Shaped(cfg, n)
  {
    hide Holds, Handed, Start, DictOf, MetaOf, Pack, FillingInv;
  }

  lemma ReadsArePosted(cfg: Config, i: nat, a: Node, b: Node, m: Dict)
    requires LinkInv(cfg, i, a, b) && NodeInv(cfg, i + 1, b)
    ensures m in b.inbox ==> a.outstanding.Some? && a.posted > 0
                             && "remote_descs" in m && m["remote_descs"] == DescField(i, BufOf(i, a.posted - 1))
    ensures b.reading.InFlight? ==> a.outstanding.Some? && a.posted > 0
                                    && b.reading.rank == i && b.reading.buf == BufOf(i, a.posted - 1)
  {
    hide Holds, Handed, Start, MetaOf, Pack, CurrentInv, StartingInv;
    if a.posted > 0 && a.outstanding.Some? && a.posted <= |cfg.Buckets()| {
      RelayDesc(cfg, i, a);
    }
  }

  lemma RelayDesc(cfg: Config, i: nat, a: Node)
    requires 0 < a.posted <= |cfg.Buckets()| && a.outstanding.Some?
    ensures var m := PostMessage(a.outstanding.value, i, BufOf(i, a.posted - 1), DictOf(cfg, a.posted - 1));
            "remote_descs" in m && m["remote_descs"] == DescField(i, BufOf(i, a.posted - 1))
            && "notify_key" in m && m["notify_key"] == KeyField(a.outstanding.value)
  {
  }

  /** What the next rank may read is what this rank is waiting for it to read. */
  lemma MayBeReadIsAwaited(cfg: Config, s: State, r: nat, b: nat)
    requires Inv(cfg, s) && r <= cfg.last && MayBeRead(s, r, b)
    ensures AwaitsReader(s, r, b)
  {
    hide NodeInv, LinkInv, Inv;
    assert |s| == cfg.last + 1 by {
      InvWellShaped(cfg, s);
    }
    At(cfg, s, r);
    At(cfg, s, r + 1);
    if m :| m in s[r + 1].inbox && "remote_descs" in m && m["remote_descs"] == DescField(r, b) {
      ReadsArePosted(cfg, r, s[r], s[r + 1], m);
    } else {
      ReadsArePosted(cfg, r, s[r], s[r + 1], map[]);
    }
  }

  lemma StepIsSafe(cfg: Config, s: State, step: Step, r: nat, b: nat)
    requires cfg.Valid() && Inv(cfg, s) && WellShaped(cfg, s) && Enabled(cfg, s, step)
    requires (r, b) in Writes(cfg, s, step)
    ensures r <= cfg.last
    ensures !MayBeRead(s, r, b) && !AwaitsReader(s, r, b) && !BeingYielded(s, r, b)
  {
    hide NodeInv, LinkInv, Inv, MayBeRead;
    At(cfg, s, r);
    WriteTargetFree(cfg, r, s[r]);
    if MayBeRead(s, r, b) {
      MayBeReadIsAwaited(cfg, s, r, b);
    }
  }

  /** No step of any run writes a buffer that the next rank may still be reading, that is
      posted and not yet known to be read, or that tensors are being handed out from. */
  lemma BufferSafety(cfg: Config, states: seq<State>, steps: seq<Step>, t: nat, r: nat, b: nat)
    requires cfg.Valid() && Run(cfg, states, steps) && t < |steps|
    requires WellShaped(cfg, states[t]) && Enabled(cfg, states[t], steps[t])
    requires (r, b) in Writes(cfg, states[t], steps[t])
    ensures r < |states[t]|
    ensures !MayBeRead(states[t], r, b)
    ensures !AwaitsReader(states[t], r, b)
    ensures !BeingYielded(states[t], r, b)
  {
    hide Inv, Writes, MayBeRead, AwaitsReader, BeingYielded, Enabled, Init, Apply;
    RunInv(cfg, states, steps, t);
    StepIsSafe(cfg, states[t], steps[t], r, b);
  }

  lemma FinishedAwaitsNothing(cfg: Config, i: nat, n: Node)
    requires NodeInv(cfg, i, n) && n.pc.Finished?
    ensures n.outstanding.None? && n.reading.Idle?
  {
    hide Holds, Handed, DictOf, MetaOf, Pack, FillingInv;
  }

  /** A rank that is done is not being read from any more, and reads nothing itself: its buffers
      can be freed. */
  lemma FinishedIsNotRead(cfg: Config, states: seq<State>, steps: seq<Step>, t: nat, i: nat, b: nat)
    requires cfg.Valid() && Run(cfg, states, steps) && t <= |steps| && i <= cfg.last
    requires |states[t]| == cfg.last + 1 && states[t][i].pc.Finished?
    ensures !MayBeRead(states[t], i, b) && states[t][i].reading.Idle?
  {
    hide Inv, NodeInv, LinkInv, MayBeRead, Enabled, Init, Apply;
    RunInv(cfg, states, steps, t);
    At(cfg, states[t], i);
    FinishedAwaitsNothing(cfg, i, states[t][i]);
    if MayBeRead(states[t], i, b) {
      MayBeReadIsAwaited(cfg, states[t], i, b);
      assert false;
    }
  }

  // ---- delivery ----

  lemma NodeDelivers(cfg: Config, i: nat, n: Node)
    requires i >= 1 && NodeInv(cfg, i, n)
    ensures n.yielded <= Delivered(cfg.Buckets())
    ensures n.pc.Finished? ==> n.yielded == Delivered(cfg.Buckets()) && EntriesAligned(cfg.Buckets())
    ensures n.pc.Raised? ==> !EntriesAligned(cfg.Buckets())
  {
    if n.pc.Finished? {
      HandedBucket(cfg.Buckets(), n.yielded, n.cur);
      HandedAll(cfg.Buckets(), n.yielded);
    }
    hide Holds, DictOf, Delivered, Start, MetaOf, Pack;
    if n.pc.Raised? {
      assert !CanView(cfg.Buckets(), n.cur, n.next);
    }
  }

  /** In every state of every run no assertion has failed, and every receiver has handed out a
      prefix of what is to be delivered. A receiver that is done has handed out all of it and could
      view every entry, and that is rank 0's weight sequence exactly when no bucket holds two
      weights of one name; one that raised met an entry it could not view. */
  lemma Delivery(cfg: Config, states: seq<State>, steps: seq<Step>, t: nat, i: nat)
    requires cfg.Valid() && Run(cfg, states, steps) && t <= |steps| && i <= cfg.last
    ensures |states[t]| == cfg.last + 1 && !states[t][i].pc.Failed?
    ensures i >= 1 ==> states[t][i].yielded <= Delivered(cfg.Buckets())
    ensures i >= 1 && states[t][i].pc.Finished? ==>
              && EntriesAligned(cfg.Buckets())
              && states[t][i].yielded == Delivered(cfg.Buckets())
              && (states[t][i].yielded == cfg.ws <==> NamesDistinctWithinBuckets(cfg.Buckets()))
    ensures states[t][i].pc.Raised? ==> i >= 1 && !EntriesAligned(cfg.Buckets())
  {
    RunInv(cfg, states, steps, t);
    hide NodeInv, LinkInv, Inv, Run;
    At(cfg, states[t], i);
    NotFailed(cfg, i, states[t][i]);
    if i >= 1 {
      NodeDelivers(cfg, i, states[t][i]);
      DeliveredRestores(cfg.ws, cfg.size);
    } else {
      SenderFacts(cfg, states[t][0]);
    }
  }

  /** No rank has met an entry that it could not view. */
  predicate NoneRaised(s: State) {
    forall k :: 0 <= k < |s| ==> !s[k].pc.Raised?
  }

  /** None ever does when every entry can be viewed. */
  lemma AlignedNeverRaises(cfg: Config, states: seq<State>, steps: seq<Step>, t: nat)
    requires cfg.Valid() && Run(cfg, states, steps) && t <= |steps| && EntriesAligned(cfg.Buckets())
    ensures NoneRaised(states[t])
  {
    hide Inv, EntriesAligned, Init, Enabled, Apply;
    Delivery(cfg, states, steps, t, 0);
    forall k | 0 <= k < |states[t]| ensures !states[t][k].pc.Raised? {
      Delivery(cfg, states, steps, t, k);
    }
  }

  /** A message waiting at rank i + 1 carries rank i's own key and a buffer of rank i that holds
      the posted bucket, never those of a rank further up. */
  lemma MessagesAreTheForwarders(cfg: Config, states: seq<State>, steps: seq<Step>, t: nat, i: nat, m: Dict)
    requires cfg.Valid() && Run(cfg, states, steps) && t <= |steps| && i < cfg.last
    requires |states[t]| == cfg.last + 1 && m in states[t][i + 1].inbox
    ensures var a := states[t][i];
            a.outstanding.Some? && a.posted > 0 && a.posted <= |cfg.Buckets()| && |a.bufs| == 2
            && m == PostMessage(a.outstanding.value, i, BufOf(i, a.posted - 1), DictOf(cfg, a.posted - 1))
            && m["notify_key"] == KeyField(a.outstanding.value)
            && m["remote_descs"] == DescField(i, BufOf(i, a.posted - 1))
            && Holds(a.bufs[BufOf(i, a.posted - 1)], cfg.Buckets()[a.posted - 1])
  {
    hide NodeInv, LinkInv, Inv, Init, Enabled, Apply, Holds, DictOf, PostMessage;
    RunInv(cfg, states, steps, t);
    At(cfg, states[t], i);
    At(cfg, states[t], i + 1);
    InboxMessage(cfg, i, states[t][i], states[t][i + 1], m);
  }

  lemma InboxMessage(cfg: Config, i: nat, a: Node, b: Node, m: Dict)
    requires NodeInv(cfg, i, a) && LinkInv(cfg, i, a, b) && m in b.inbox
    ensures a.outstanding.Some? && a.posted > 0 && a.posted <= |cfg.Buckets()| && |a.bufs| == 2
    ensures m == PostMessage(a.outstanding.value, i, BufOf(i, a.posted - 1), DictOf(cfg, a.posted - 1))
    ensures m["notify_key"] == KeyField(a.outstanding.value)
    ensures m["remote_descs"] == DescField(i, BufOf(i, a.posted - 1))
    ensures Holds(a.bufs[BufOf(i, a.posted - 1)], cfg.Buckets()[a.posted - 1])
  {
    hide CurrentInv, StartingInv, ReadInv, SenderInv, Holds, PostMessage, DictOf;
    RelayDesc(cfg, i, a);
  }

  // ---- progress ----

  /** A rank that is not done and is not waiting for a message can move, or some rank after it
      can. */
  lemma StepFrom(cfg: Config, s: State, i: nat) returns (step: Step)
    requires cfg.Valid() && Inv(cfg, s) && WellShaped(cfg, s) && 1 <= i <= cfg.last && !s[i].pc.Finished?
    requires NoneRaised(s)
    requires (s[i].pc.First? || s[i].pc.NextMeta?) && s[i].inbox == [] ==> s[i].reading.InFlight?
    ensures Enabled(cfg, s, step)
    decreases cfg.last - i, 1
  {
    hide Inv, NodeInv, LinkInv;
    At(cfg, s, i);
    var n := s[i];
    ReceiverFacts(cfg, i, n);
    if n.reading.InFlight? {
      step := StepOfRead(cfg, s, i);
    } else {
      match n.pc
      case First => step := Receive(i);
      case NextMeta => step := Receive(i);
      case AwaitFirst => step := Swap(i);
      case AwaitRead => step := Swap(i);
      case Forward => step := Relay(i, 0);
      case Yielding =>
        if n.next < |MetaIn(n.metadata)| {
          step := Yield(i);
        } else if n.outstanding.None? || n.notifs != [] {
          step := AwaitNext(i);
        } else {
          step := StepAfter(cfg, s, i);
        }
    }
  }

  lemma ReceiverFacts(cfg: Config, i: nat, n: Node)
    requires 1 <= i <= cfg.last && NodeInv(cfg, i, n)
    ensures !n.pc.Failed? && !n.pc.Filling? && !n.pc.AwaitLast?
    ensures n.pc.AwaitFirst? || n.pc.AwaitRead? ==> !n.reading.Idle?
    ensures n.pc.Yielding? ==> IsBucketDict(n.metadata)
    ensures n.outstanding.Some? ==> i < cfg.last
    ensures n.pc.First? || n.pc.NextMeta? ==> n.begun < |cfg.Buckets()|
    ensures n.pc.Finished? ==> n.begun == n.landed == |cfg.Buckets()|
    ensures n.pc.Finished? && i < cfg.last ==> n.posted == |cfg.Buckets()|
    ensures n.reading.InFlight? ==>
              n.reading.rank == i - 1 && n.reading.buf < 2 && forall k :: k in n.reading.left ==> k < cfg.size
  {
    hide Holds, Handed, Start, MetaOf, Pack;
  }

  lemma StepOfRead(cfg: Config, s: State, i: nat) returns (step: Step)
    requires cfg.Valid() && Inv(cfg, s) && WellShaped(cfg, s) && 1 <= i <= cfg.last && s[i].reading.InFlight?
    ensures Enabled(cfg, s, step)
  {
    hide Inv, NodeInv, LinkInv;
    At(cfg, s, i);
    ReceiverFacts(cfg, i, s[i]);
    if s[i].reading.left == {} {
      step := Land(i);
    } else {
      var k :| k in s[i].reading.left;
      step := CopyByte(i, k);
    }
  }

  /** A rank that waits in vain for the next rank's notification: some rank after it can move. */
  lemma StepAfter(cfg: Config, s: State, i: nat) returns (step: Step)
    requires cfg.Valid() && Inv(cfg, s) && WellShaped(cfg, s) && i < cfg.last
    requires NoneRaised(s) && s[i].outstanding.Some? && s[i].notifs == []
    ensures Enabled(cfg, s, step)
    decreases cfg.last - i, 0
  {
    hide Inv, NodeInv, LinkInv;
    At(cfg, s, i);
    At(cfg, s, i + 1);
    WaitingLink(cfg, i, s[i], s[i + 1]);
    ReadingWhenAhead(cfg, i + 1, s[i + 1]);
    ReceiverFacts(cfg, i + 1, s[i + 1]);
    if s[i + 1].reading.InFlight? {
      step := StepOfRead(cfg, s, i + 1);
    } else {
      step := StepFrom(cfg, s, i + 1);
    }
  }

  lemma WaitingLink(cfg: Config, i: nat, a: Node, b: Node)
    requires LinkInv(cfg, i, a, b) && a.outstanding.Some? && a.notifs == []
    ensures b.landed < |cfg.Buckets()|
    ensures b.inbox != [] || b.begun > b.landed
  {
  }

  lemma ReadingWhenAhead(cfg: Config, i: nat, n: Node)
    requires 1 <= i && NodeInv(cfg, i, n)
    ensures n.begun > n.landed ==> n.reading.InFlight?
  {
    hide Holds, Handed, Start, MetaOf, Pack, CurrentInv, StartingInv;
  }

  lemma SenderFacts(cfg: Config, n: Node)
    requires NodeInv(cfg, 0, n)
    ensures n.pc.Filling? || n.pc.AwaitLast? || n.pc.Finished?
    ensures n.pc.AwaitLast? ==> n.outstanding.Some?
    ensures !n.pc.Filling? ==> n.posted == |cfg.Buckets()|
  {
    hide Holds, MetaOf, Pack, FillingInv;
  }

  lemma SenderStep(cfg: Config, s: State) returns (step: Step)
    requires cfg.Valid() && Inv(cfg, s) && WellShaped(cfg, s) && !s[0].pc.Finished? && NoneRaised(s)
    ensures Enabled(cfg, s, step)
  {
    hide Inv, NodeInv, LinkInv;
    At(cfg, s, 0);
    var n := s[0];
    SenderFacts(cfg, n);
    if n.outstanding.Some? && n.notifs == [] && !(n.pc.Filling? && NextFits(cfg, n)) {
      step := StepAfter(cfg, s, 0);
    } else if n.pc.AwaitLast? {
      step := FinalAwait;
    } else if NextFits(cfg, n) {
      step := Fill;
    } else if n.outstanding.Some? {
      step := SenderAwait;
    } else {
      step := SenderPost(0);
    }
  }

  /** A rank waiting for a message that is not there: some rank before it, or after one of
      those, can move. */
  lemma {:induction false} StepBefore(cfg: Config, s: State, i: nat) returns (step: Step)
    requires cfg.Valid() && Inv(cfg, s) && WellShaped(cfg, s) && 1 <= i <= cfg.last
    requires NoneRaised(s) && (s[i].pc.First? || s[i].pc.NextMeta?) && s[i].inbox == []
    ensures Enabled(cfg, s, step)
    decreases i
  {
    hide Inv, NodeInv, LinkInv;
    At(cfg, s, i);
    At(cfg, s, i - 1);
    ReceiverFacts(cfg, i, s[i]);
    EmptyInbox(cfg, i - 1, s[i - 1], s[i]);
    if i == 1 {
      SenderFacts(cfg, s[0]);
      step := SenderStep(cfg, s);
    } else {
      ReceiverFacts(cfg, i - 1, s[i - 1]);
      if (s[i - 1].pc.First? || s[i - 1].pc.NextMeta?) && s[i - 1].inbox == [] {
        step := StepBefore(cfg, s, i - 1);
      } else {
        step := StepFrom(cfg, s, i - 1);
      }
    }
  }

  lemma EmptyInbox(cfg: Config, i: nat, a: Node, b: Node)
    requires LinkInv(cfg, i, a, b) && b.inbox == []
    ensures b.begun == a.posted
  {
  }

  /** No state of a run is stuck before every rank is done, unless some rank has raised. */
  lemma Progress(cfg: Config, states: seq<State>, steps: seq<Step>, t: nat) returns (step: Step)
    requires cfg.Valid() && Run(cfg, states, steps) && t <= |steps|
    requires !AllFinished(states[t]) && NoneRaised(states[t])
    ensures WellShaped(cfg, states[t]) && Enabled(cfg, states[t], step)
  {
    RunInv(cfg, states, steps, t);
    hide Inv, NodeInv, LinkInv, Run;
    var s := states[t];
    var i :| 0 <= i < |s| && !s[i].pc.Finished?;
    if i == 0 {
      step := SenderStep(cfg, s);
    } else if (s[i].pc.First? || s[i].pc.NextMeta?) && s[i].inbox == [] {
      step := StepBefore(cfg, s, i);
    } else {
      step := StepFrom(cfg, s, i);
    }
  }
}
