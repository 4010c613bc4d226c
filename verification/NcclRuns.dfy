/** What every run of the NCCL transfer guarantees: lock-step, buffer safety, delivery, progress,
    and an end. */
module NcclRuns {
  import opened Arith
  import opened Packing
  import opened Buckets
  import opened Filling
  import opened Handing
  import opened NcclLockstep

  lemma {:induction false} RunInv(cfg: Config, states: seq<State>, steps: seq<Step>, t: nat)
    requires cfg.Valid() && Run(cfg, states, steps) && t <= |steps|
    ensures Inv(cfg, states[t]) && WellShaped(cfg, states[t])
  {
    hide Inv, Enabled, Apply, WellShaped, Init;
    if t == 0 {
      InitInv(cfg, states[0]);
    } else {
      RunInv(cfg, states, steps, t - 1);
      StepInv(cfg, states[t - 1], steps[t - 1]);
    }
    InvWellShaped(cfg, states[t]);
  }

  // ---- lock-step ----

  /** In every state of every run each rank has issued as many broadcasts as were completed or
      one more; a rank that is done has issued one for each bucket; and when broadcast number k
      completes all ranks are in it, rank 0's buffer holds bucket k of the packing, and every
      rank has that bucket's metadata. */
  lemma Lockstep(cfg: Config, states: seq<State>, steps: seq<Step>, t: nat, i: nat)
    requires cfg.Valid() && Run(cfg, states, steps) && t <= |steps| && i < |states[t].receivers|
    ensures var s := states[t];
            && s.fired <= s.sender.launched <= s.fired + 1 && s.fired <= s.receivers[i].launched <= s.fired + 1
            && (s.sender.pc.SenderDone? ==> s.sender.launched == s.fired == |cfg.Buckets()|)
            && (s.receivers[i].pc.ReceiverDone? ==> s.receivers[i].launched == s.fired == |cfg.Buckets()|)
    ensures t < |steps| && steps[t].Fire? ==>
              var s := states[t];
              && s.fired < |cfg.Buckets()| && |s.sender.bufs| == 2 && s.sender.opBuf < 2
              && s.sender.launched == s.receivers[i].launched == s.fired + 1
              && s.sender.opNotice == s.receivers[i].opNotice == NoticeOf(cfg, s.fired)
              && Holds(s.sender.bufs[s.sender.opBuf], cfg.Buckets()[s.fired])
  {
    hide Inv, WellShaped, Init, Enabled, Apply, Holds, NoticeOf;
    RunInv(cfg, states, steps, t);
    Counts(cfg, states[t], i);
    if t < |steps| && steps[t].Fire? {
      FireCarriesBucket(cfg, states[t], i);
    }
  }

  lemma Counts(cfg: Config, s: State, i: nat)
    requires Inv(cfg, s) && i < |s.receivers|
    ensures s.fired <= s.sender.launched <= s.fired + 1 && s.fired <= s.receivers[i].launched <= s.fired + 1
    ensures s.sender.pc.SenderDone? ==> s.sender.launched == s.fired == |cfg.Buckets()|
    ensures s.receivers[i].pc.ReceiverDone? ==> s.receivers[i].launched == s.fired == |cfg.Buckets()|
    ensures |s.sender.bufs| == 2 && s.sender.opBuf < 2
  {
    hide FillingInv, Holds, Handed, Start, MetaOf, Pack;
    assert ReceiverInv(cfg, s.fired, s.receivers[i]);
  }

  // ---- buffer safety ----

  /** The buffer of rank 0 that a step fills. */
  predicate FillsBuffer(s: State, step: Step, b: nat) {
    step.Fill? && b == s.sender.send
  }

  /** No other step writes a buffer of rank 0. */
  lemma FillsAreAll(cfg: Config, s: State, step: Step, b: nat)
    requires WellShaped(cfg, s) && Enabled(cfg, s, step) && b < 2 && !FillsBuffer(s, step, b)
    ensures |Apply(cfg, s, step).sender.bufs| == 2
    ensures Apply(cfg, s, step).sender.bufs[b] == s.sender.bufs[b]
  {
    hide Put, MetaAt, Overwrite, View, NBytes;
  }

  /** No step of any run fills the buffer that rank 0's pending broadcast reads; what that buffer
      held when the broadcast was launched it holds until the broadcast is waited for. A receiver
      never hands out tensors from the buffer its pending broadcast writes, and while it hands
      out tensors no step changes the buffer they are views of. */
  lemma BufferSafety(cfg: Config, states: seq<State>, steps: seq<Step>, t: nat, i: nat)
    requires cfg.Valid() && Run(cfg, states, steps) && t < |steps| && i < |states[t].receivers|
    ensures WellShaped(cfg, states[t]) && WellShaped(cfg, states[t + 1])
    ensures |states[t + 1].receivers| == |states[t].receivers|
    ensures var s, s' := states[t].sender, states[t + 1].sender;
            !s.op.NoOp? ==> !FillsBuffer(states[t], steps[t], s.opBuf) && s'.bufs[s.opBuf] == s.bufs[s.opBuf]
    ensures var r, r' := states[t].receivers[i], states[t + 1].receivers[i];
            HandsOut(r) ==> r'.bufs[r.send] == r.bufs[r.send]
  {
    hide Inv, Init, Enabled, Apply, FillsBuffer;
    RunInv(cfg, states, steps, t);
    RunInv(cfg, states, steps, t + 1);
    if !states[t].sender.op.NoOp? {
      SourceUntouched(cfg, states[t], steps[t]);
    }
    ViewUntouched(cfg, states[t], steps[t], i);
  }

  lemma SourceUntouched(cfg: Config, s: State, step: Step)
    requires Inv(cfg, s) && WellShaped(cfg, s) && Enabled(cfg, s, step) && !s.sender.op.NoOp?
    ensures s.sender.opBuf < 2 == |Apply(cfg, s, step).sender.bufs| == |s.sender.bufs|
    ensures !FillsBuffer(s, step, s.sender.opBuf)
    ensures Apply(cfg, s, step).sender.bufs[s.sender.opBuf] == s.sender.bufs[s.sender.opBuf]
  {
    hide FillingInv, Holds, NoticeOf, Config.Buckets, ReceiverInv, LinkInv, Apply;
    FillsAreAll(cfg, s, step, s.sender.opBuf);
  }

  lemma ViewUntouched(cfg: Config, s: State, step: Step, i: nat)
    requires WellShaped(cfg, s) && Enabled(cfg, s, step) && i < |s.receivers|
    ensures |Apply(cfg, s, step).receivers| == |s.receivers|
    ensures var r, r' := s.receivers[i], Apply(cfg, s, step).receivers[i];
            |r'.bufs| == 2 && (HandsOut(r) ==> r'.bufs[r.send] == r.bufs[r.send])
  {
    hide Put, MetaAt, Overwrite, View, NBytes;
  }

  // ---- what runs there are ----

  /** From the launch of a broadcast on, the buffer it writes may hold anything. */
  lemma LaunchedBufferHoldsAnything(cfg: Config, s: State, i: nat, junk: seq<Byte>, other: seq<Byte>)
    requires WellShaped(cfg, s) && Enabled(cfg, s, Launch(i, junk)) && |other| == cfg.size
    ensures Enabled(cfg, s, Launch(i, other))
    ensures var n := Apply(cfg, s, Launch(i, other)).receivers[i];
            && |n.bufs| == 2 && n.bufs[1 - s.receivers[i].send] == other
            && n.bufs[s.receivers[i].send] == s.receivers[i].bufs[s.receivers[i].send]
  {
  }

  /** The sender has filled in only weights that fit a buffer, and ends only when it has filled in all;
      and once it has launched a broadcast it does not begin another for a weight that fits none. */
  ghost predicate FilledFits(cfg: Config, n: Sender) {
    && n.next <= |cfg.ws| && (forall k :: 0 <= k < n.next ==> |cfg.ws[k].bytes| <= cfg.size)
    && (n.pc.AwaitLast? || n.pc.SenderDone? ==> n.next == |cfg.ws|)
    && (n.pc.Filling? && n.launched > 0 && n.filled == [] ==> n.next < |cfg.ws| && |cfg.ws[n.next].bytes| <= cfg.size)
  }

  lemma FilledStillFits(cfg: Config, s: State, step: Step)
    requires WellShaped(cfg, s) && Enabled(cfg, s, step) && FilledFits(cfg, s.sender)
    ensures FilledFits(cfg, Apply(cfg, s, step).sender)
  {
    hide Overwrite, Put, DoPublish, DoFire, DoLaunch, DoTakeNotice, DoAwait, DoYield, DoYieldEnd;
  }

  /** The sender gets to the end only when every weight fits a buffer. */
  lemma {:induction false} FinishedFits(cfg: Config, states: seq<State>, steps: seq<Step>, t: nat)
    requires Run(cfg, states, steps) && t <= |steps|
    ensures FilledFits(cfg, states[t].sender)
    ensures states[t].sender.pc.SenderDone? ==> AllFit(cfg.ws, cfg.size)
  {
    hide Enabled, Apply;
    if t > 0 {
      FinishedFits(cfg, states, steps, t - 1);
      FilledStillFits(cfg, states[t - 1], steps[t - 1]);
    }
  }

  // ---- delivery ----

  lemma ReceiverDelivers(cfg: Config, fired: nat, n: Receiver)
    requires ReceiverInv(cfg, fired, n)
    ensures !n.pc.ReceiverFailed? && n.yielded <= Delivered(cfg.Buckets())
    ensures n.pc.ReceiverDone? ==> n.yielded == Delivered(cfg.Buckets()) && EntriesAligned(cfg.Buckets())
    ensures n.pc.ReceiverRaised? ==> !EntriesAligned(cfg.Buckets())
  {
    if n.pc.ReceiverDone? {
      HandedBucket(cfg.Buckets(), n.yielded, |cfg.Buckets()| - 1);
      HandedAll(cfg.Buckets(), n.yielded);
    }
    hide Holds, Delivered, Start, MetaOf, Pack;
    if n.pc.ReceiverRaised? {
      assert !CanView(cfg.Buckets(), Current(n), n.next);
    }
  }

  /** In every state of every run no assertion has failed, and every receiver has handed out a
      prefix of what is to be delivered. One that is done has handed out all of it and could view
      every entry, and that is the weight sequence exactly when no bucket holds two weights of one
      name; one that raised met an entry it could not view. */
  lemma Delivery(cfg: Config, states: seq<State>, steps: seq<Step>, t: nat, i: nat)
    requires cfg.Valid() && Run(cfg, states, steps) && t <= |steps| && i < |states[t].receivers|
    ensures !states[t].sender.pc.SenderFailed? && !states[t].receivers[i].pc.ReceiverFailed?
    ensures states[t].receivers[i].yielded <= Delivered(cfg.Buckets())
    ensures states[t].receivers[i].pc.ReceiverDone? ==>
              && EntriesAligned(cfg.Buckets())
              && states[t].receivers[i].yielded == Delivered(cfg.Buckets())
              && (states[t].receivers[i].yielded == cfg.ws <==> NamesDistinctWithinBuckets(cfg.Buckets()))
    ensures states[t].receivers[i].pc.ReceiverRaised? ==> !EntriesAligned(cfg.Buckets())
  {
    RunInv(cfg, states, steps, t);
    hide Run;
    assert SenderInv(cfg, states[t].fired, states[t].sender) && ReceiverInv(cfg, states[t].fired, states[t].receivers[i]);
    hide ReceiverInv, FillingInv, Holds, NoticeOf, LinkInv;
    ReceiverDelivers(cfg, states[t].fired, states[t].receivers[i]);
    DeliveredRestores(cfg.ws, cfg.size);
  }

  /** No receiver has met an entry that it could not view. */
  predicate NoneRaised(s: State) {
    forall i :: 0 <= i < |s.receivers| ==> !s.receivers[i].pc.ReceiverRaised?
  }

  /** None ever does when every entry can be viewed. */
  lemma AlignedNeverRaises(cfg: Config, states: seq<State>, steps: seq<Step>, t: nat)
    requires cfg.Valid() && Run(cfg, states, steps) && t <= |steps| && EntriesAligned(cfg.Buckets())
    ensures NoneRaised(states[t])
  {
    hide Inv, Init, Enabled, Apply, EntriesAligned;
    forall i | 0 <= i < |states[t].receivers| ensures !states[t].receivers[i].pc.ReceiverRaised? {
      Delivery(cfg, states, steps, t, i);
    }
  }

  // ---- progress ----

  predicate Finished(s: State) {
    s.sender.pc.SenderDone? && forall i :: 0 <= i < |s.receivers| ==> s.receivers[i].pc.ReceiverDone?
  }

  /** What a receiver that is neither done nor in the collective does next. */
  function NextStep(n: Receiver, i: nat, junk: seq<Byte>): Step {
    if HandsOut(n) then (if n.next < |n.metadata.meta| then Yield(i) else YieldEnd(i))
    else if n.op.NoOp? then Launch(i, junk)
    else if n.op.Launched? then TakeNotice(i)
    else Await(i)
  }

  predicate CanMove(n: Receiver) {
    HandsOut(n) || (if n.op.NoOp? then n.pc.First? || n.pc.LoopTop?
                    else if n.op.Launched? then n.inbox != []
                    else n.op.Fired? && (n.pc.AwaitFirst? || n.pc.AwaitNext?))
  }

  lemma NextStepEnabled(cfg: Config, s: State, i: nat)
    requires WellShaped(cfg, s) && i < |s.receivers| && CanMove(s.receivers[i])
    ensures |s.receivers[i].bufs| == 2
    ensures Enabled(cfg, s, NextStep(s.receivers[i], i, s.receivers[i].bufs[0]))
  {
  }

  /** It can do so, unless it waits for metadata that is not published. */
  lemma ReceiverMoves(cfg: Config, s: State, i: nat) returns (step: Step)
    requires Inv(cfg, s) && WellShaped(cfg, s) && i < |s.receivers|
    requires !s.receivers[i].pc.ReceiverDone? && !s.receivers[i].pc.ReceiverRaised? && !s.receivers[i].op.Entered?
    requires s.receivers[i].op.Launched? ==> HandsOut(s.receivers[i]) || s.sender.op.Entered?
    ensures Enabled(cfg, s, step)
  {
    var n := s.receivers[i];
    hide SenderInv, ReceiverInv, LinkInv, CanMove, Enabled, NextStep, WellShaped;
    NextEnabled(cfg, s.fired, s.sender.op, s.sender.opNotice, n);
    NextStepEnabled(cfg, s, i);
    step := NextStep(n, i, n.bufs[0]);
  }

  lemma NextEnabled(cfg: Config, fired: nat, op: Op, opNotice: Notice, n: Receiver)
    requires ReceiverInv(cfg, fired, n) && LinkInv(cfg, fired, op, opNotice, n)
    requires !n.pc.ReceiverDone? && !n.pc.ReceiverRaised? && !n.op.Entered? && (n.op.Launched? ==> HandsOut(n) || op.Entered?)
    ensures CanMove(n)
  {
    hide CurrentInv, NoticeOf, Holds, Config.Buckets;
  }

  /** A receiver that is done has nothing to wait for, and neither has the sender. */
  lemma DoneTogether(cfg: Config, s: State, i: nat)
    requires Inv(cfg, s) && i < |s.receivers|
    ensures s.receivers[i].pc.ReceiverDone? ==> s.fired == |cfg.Buckets()|
    ensures s.sender.op.Entered? ==> s.fired < |cfg.Buckets()|
    ensures s.sender.pc.SenderDone? ==> s.fired == |cfg.Buckets()| && s.sender.op.NoOp?
    ensures s.receivers[i].op.Launched? || s.receivers[i].op.Entered? ==> s.fired < |cfg.Buckets()|
  {
    hide FillingInv, Holds, Handed, Start, MetaOf, Pack;
    assert ReceiverInv(cfg, s.fired, s.receivers[i]);
  }

  lemma SenderMoves(cfg: Config, s: State) returns (step: Step)
    requires Inv(cfg, s) && WellShaped(cfg, s) && !s.sender.pc.SenderDone? && !s.sender.op.Entered?
    ensures Enabled(cfg, s, step)
  {
    hide FillingInv, Holds, NoticeOf, Config.Buckets, ReceiverInv, LinkInv;
    if s.sender.op.Launched? {
      step := Publish;
    } else if s.sender.pc.AwaitLast? {
      step := SenderFinish;
    } else if NextFits(cfg, s.sender) {
      step := Fill;
    } else if s.sender.op.Fired? {
      step := SenderAwait;
    } else {
      step := SenderLaunch;
    }
  }

  lemma SomeStep(cfg: Config, s: State) returns (step: Step)
    requires Inv(cfg, s) && WellShaped(cfg, s) && !Finished(s) && NoneRaised(s)
    ensures Enabled(cfg, s, step)
  {
    hide Inv;
    if !s.sender.pc.SenderDone? && !s.sender.op.Entered? {
      step := SenderMoves(cfg, s);
    } else if s.sender.pc.SenderDone? {
      var i :| 0 <= i < |s.receivers| && !s.receivers[i].pc.ReceiverDone?;
      DoneTogether(cfg, s, i);
      step := ReceiverMoves(cfg, s, i);
    } else if i :| 0 <= i < |s.receivers| && !s.receivers[i].op.Entered? {
      DoneTogether(cfg, s, i);
      step := ReceiverMoves(cfg, s, i);
    } else {
      step := Fire;
    }
  }

  /** No state of a run is stuck before every rank is done, unless some receiver has raised. */
  lemma Progress(cfg: Config, states: seq<State>, steps: seq<Step>, t: nat) returns (step: Step)
    requires cfg.Valid() && Run(cfg, states, steps) && t <= |steps|
    requires !Finished(states[t]) && NoneRaised(states[t])
    ensures WellShaped(cfg, states[t]) && Enabled(cfg, states[t], step)
  {
    hide Inv, Init, Enabled, Apply, WellShaped, Finished;
    RunInv(cfg, states, steps, t);
    step := SomeStep(cfg, states[t]);
  }

  // ---- every run ends ----

  function OpCost(op: Op): nat {
    match op
    case NoOp => 0
    case Launched => 8
    case Entered => 7
    case Fired => 6
  }

  ghost function SenderBudget(cfg: Config, n: Sender): nat {
    Minus(|cfg.ws|, n.next) + 9 * Minus(|cfg.Buckets()|, n.launched) + OpCost(n.op)
  }

  function Phase(pc: ReceiverPc): nat {
    match pc
    case First => 2
    case LoopTop => 2
    case Yielding => 2
    case YieldLast => 2
    case AwaitFirst => 1
    case AwaitNext => 1
    case _ => 0
  }

  ghost function ReceiverBudget(cfg: Config, n: Receiver): nat {
    Minus(|Delivered(cfg.Buckets())|, |n.yielded|) + 9 * Minus(|cfg.Buckets()|, n.launched) + OpCost(n.op) + Phase(n.pc)
  }

  ghost function ReceiverBudgets(cfg: Config, rs: seq<Receiver>): nat {
    if rs == [] then 0 else ReceiverBudget(cfg, rs[0]) + ReceiverBudgets(cfg, rs[1..])
  }

  ghost function Budget(cfg: Config, s: State): nat {
    SenderBudget(cfg, s.sender) + ReceiverBudgets(cfg, s.receivers)
  }

  lemma {:induction false} BudgetUpdate(cfg: Config, rs: seq<Receiver>, i: nat, n: Receiver)
    requires i < |rs| && ReceiverBudget(cfg, n) < ReceiverBudget(cfg, rs[i])
    ensures ReceiverBudgets(cfg, rs[i := n]) < ReceiverBudgets(cfg, rs)
  {
    hide ReceiverBudget;
    if i > 0 {
      BudgetUpdate(cfg, rs[1..], i - 1, n);
      assert rs[i := n][1..] == rs[1..][i - 1 := n];
    } else {
      assert rs[i := n][1..] == rs[1..];
    }
  }

  lemma {:induction false} BudgetsAtMost(cfg: Config, rs: seq<Receiver>, rs': seq<Receiver>)
    requires |rs| == |rs'| && forall i :: 0 <= i < |rs| ==> ReceiverBudget(cfg, rs'[i]) <= ReceiverBudget(cfg, rs[i])
    ensures ReceiverBudgets(cfg, rs') <= ReceiverBudgets(cfg, rs)
  {
    hide ReceiverBudget;
    if rs != [] {
      BudgetsAtMost(cfg, rs[1..], rs'[1..]);
    }
  }

  lemma SenderCheaper(cfg: Config, s: State, step: Step)
    requires Inv(cfg, s) && WellShaped(cfg, s) && Enabled(cfg, s, step)
    requires step.Fill? || step.SenderAwait? || step.SenderLaunch? || step.SenderFinish? || step.Publish? || step.Fire?
    ensures SenderBudget(cfg, Apply(cfg, s, step).sender) < SenderBudget(cfg, s.sender)
  {
    hide Holds, NoticeOf, ReceiverInv, LinkInv, MetaOf, Put, MetaAt, Overwrite, Pack;
  }

  lemma ReceiverCheaper(cfg: Config, fired: nat, n: Receiver)
    requires ReceiverInv(cfg, fired, n)
    ensures n.pc.First? || n.pc.LoopTop? ==>
              forall junk {:trigger DoLaunch(n, junk)} :: ReceiverBudget(cfg, DoLaunch(n, junk)) < ReceiverBudget(cfg, n)
    ensures n.op.Launched? && n.inbox != [] ==> ReceiverBudget(cfg, DoTakeNotice(n)) < ReceiverBudget(cfg, n)
    ensures n.op.Fired? && !HandsOut(n) ==> ReceiverBudget(cfg, DoAwait(n)) < ReceiverBudget(cfg, n)
    ensures HandsOut(n) ==> ReceiverBudget(cfg, DoYieldEnd(n)) < ReceiverBudget(cfg, n)
  {
    hide Holds, Handed, Start, MetaOf, Pack, Delivered;
  }

  lemma YieldCheaper(cfg: Config, fired: nat, n: Receiver)
    requires ReceiverInv(cfg, fired, n) && HandsOut(n) && n.next < |n.metadata.meta|
    ensures ReceiverBudget(cfg, DoYield(n)) < ReceiverBudget(cfg, n)
  {
    hide ReceiverInv, Delivered, View, EntriesAligned, Pack;
    BufsShaped(cfg, fired, n);
    YieldKeeps(cfg, fired, n);
    ReceiverDelivers(cfg, fired, DoYield(n));
  }

  lemma BufsShaped(cfg: Config, fired: nat, n: Receiver)
    requires ReceiverInv(cfg, fired, n)
    ensures ShapedBufs(cfg.size, n.bufs, n.send)
  {
  }

  /** Every step costs. */
  lemma StepCheaper(cfg: Config, s: State, step: Step)
    requires Inv(cfg, s) && WellShaped(cfg, s) && Enabled(cfg, s, step)
    ensures Budget(cfg, Apply(cfg, s, step)) < Budget(cfg, s)
  {
    hide SenderInv, ReceiverInv, LinkInv, SenderBudget;
    var t := Apply(cfg, s, step);
    if step.Launch? || step.TakeNotice? || step.Await? || step.Yield? || step.YieldEnd? {
      var n := s.receivers[step.i];
      ReceiverCheaper(cfg, s.fired, n);
      if step.Yield? {
        YieldCheaper(cfg, s.fired, n);
      }
      NotHandingOut(cfg, s.fired, n);
      hide ReceiverBudget;
      BudgetUpdate(cfg, s.receivers, step.i, t.receivers[step.i]);
    } else {
      SenderCheaper(cfg, s, step);
      hide SenderBudget;
      BudgetsAtMost(cfg, s.receivers, t.receivers);
    }
  }

  lemma NotHandingOut(cfg: Config, fired: nat, n: Receiver)
    requires ReceiverInv(cfg, fired, n)
    ensures n.pc.AwaitFirst? || n.pc.AwaitNext? ==> !HandsOut(n)
  {
  }

  /** The steps taken and the budget left never exceed the budget at the start, whatever the
      interleaving. */
  lemma {:induction false} RunsEnd(cfg: Config, states: seq<State>, steps: seq<Step>, t: nat)
    requires cfg.Valid() && Run(cfg, states, steps) && t <= |steps|
    ensures t + Budget(cfg, states[t]) <= Budget(cfg, states[0])
  {
    hide Inv, Budget, Enabled, Apply, Init;
    if t > 0 {
      RunsEnd(cfg, states, steps, t - 1);
      RunInv(cfg, states, steps, t - 1);
      StepCheaper(cfg, states[t - 1], steps[t - 1]);
    }
  }

  ghost predicate Stuck(cfg: Config, s: State) {
    WellShaped(cfg, s) ==> forall step :: !Enabled(cfg, s, step)
  }

  /** Every rank is done, and every receiver has handed out the weights. */
  ghost predicate Delivers(cfg: Config, s: State) {
    Finished(s) && forall i :: 0 <= i < |s.receivers| ==> s.receivers[i].yielded == cfg.ws
  }

  /** A state with every rank done, and some receiver: every entry could be viewed, and the weights
      arrived exactly when no bucket holds two of one name. */
  lemma FinishedDelivers(cfg: Config, states: seq<State>, steps: seq<Step>, t: nat)
    requires cfg.Valid() && Run(cfg, states, steps) && t <= |steps| && Finished(states[t])
    requires states[t].receivers != []
    ensures EntriesAligned(cfg.Buckets())
    ensures Delivers(cfg, states[t]) <==> NamesDistinctWithinBuckets(cfg.Buckets())
  {
    hide EntriesAligned, NamesDistinctWithinBuckets, Init, Enabled, Apply;
    Delivery(cfg, states, steps, t, 0);
    forall i | 0 <= i < |states[t].receivers|
      ensures states[t].receivers[i].yielded == cfg.ws <==> NamesDistinctWithinBuckets(cfg.Buckets())
    {
      Delivery(cfg, states, steps, t, i);
    }
  }

  /** A run that cannot be extended has ended within the budget. With at least one receiver it has
      ended with every rank done exactly when every entry can be viewed; and with the weights handed
      out by every receiver exactly when no bucket holds two weights of one name and every weight
      starts at a multiple of its item size. */
  lemma MaximalRunsDeliver(cfg: Config, states: seq<State>, steps: seq<Step>)
    requires cfg.Valid() && Run(cfg, states, steps) && Stuck(cfg, states[|steps|])
    ensures |steps| <= Budget(cfg, states[0])
    ensures states[|steps|].receivers != [] ==> (Finished(states[|steps|]) <==> EntriesAligned(cfg.Buckets()))
    ensures states[|steps|].receivers != [] ==>
              (Delivers(cfg, states[|steps|])
               <==> NamesDistinctWithinBuckets(cfg.Buckets()) && AlignedBuckets(cfg.Buckets()))
    ensures Finished(states[|steps|]) && states[|steps|].receivers != [] ==> states[|steps|].fired == |cfg.Buckets()|
  {
    hide Inv, Budget, Enabled, Apply, Init, EntriesAligned, NamesDistinctWithinBuckets, AlignedBuckets, NoneRaised;
    RunsEnd(cfg, states, steps, |steps|);
    AlignedWhenDistinct(cfg.Buckets());
    var s := states[|steps|];
    if Finished(s) {
      if s.receivers != [] {
        FinishedDelivers(cfg, states, steps, |steps|);
        Lockstep(cfg, states, steps, |steps|, 0);
      }
    } else if EntriesAligned(cfg.Buckets()) {
      AlignedNeverRaises(cfg, states, steps, |steps|);
      var step := Progress(cfg, states, steps, |steps|);
      assert false;
    }
  }

  lemma RunExtends(cfg: Config, states: seq<State>, steps: seq<Step>, step: Step)
    requires Run(cfg, states, steps)
    requires WellShaped(cfg, states[|steps|]) && Enabled(cfg, states[|steps|], step)
    ensures Run(cfg, states + [Apply(cfg, states[|steps|], step)], steps + [step])
  {
    hide Init, Enabled, Apply, WellShaped;
    var states', steps' := states + [Apply(cfg, states[|steps|], step)], steps + [step];
    forall t | 0 <= t < |steps'|
      ensures WellShaped(cfg, states'[t]) && Enabled(cfg, states'[t], steps'[t])
      ensures states'[t + 1] == Apply(cfg, states'[t], steps'[t])
    {
      assert states'[t] == states[t];
      if t < |steps| {
        assert states'[t + 1] == states[t + 1];
      }
    }
  }

  /** Every run, wherever it has got to, can be continued until every rank is done, or some
      receiver has raised; none raises when every entry can be viewed, and none is ever done
      otherwise. */
  lemma {:induction false} EveryRunCanFinish(cfg: Config, states: seq<State>, steps: seq<Step>)
    returns (moreStates: seq<State>, moreSteps: seq<Step>)
    requires cfg.Valid() && Run(cfg, states, steps)
    ensures Run(cfg, states + moreStates, steps + moreSteps)
    ensures var s := (states + moreStates)[|steps + moreSteps|];
            if EntriesAligned(cfg.Buckets()) || s.receivers == [] then Finished(s) else !Finished(s) && !NoneRaised(s)
    decreases Budget(cfg, states[|steps|])
  {
    hide Inv, Budget, Enabled, Apply, Init, Run, EntriesAligned, NoneRaised;
    assert |states| == |steps| + 1 by {
      RunLength(cfg, states, steps);
    }
    var s := states[|steps|];
    if EntriesAligned(cfg.Buckets()) {
      AlignedNeverRaises(cfg, states, steps, |steps|);
    }
    NoReceiversNoneRaised(s);
    if Finished(s) && s.receivers != [] {
      FinishedDelivers(cfg, states, steps, |steps|);
    }
    if Finished(s) || !NoneRaised(s) {
      moreStates, moreSteps := [], [];
      assert states + [] == states && steps + [] == steps;
    } else {
      var step := Progress(cfg, states, steps, |steps|);
      RunInv(cfg, states, steps, |steps|);
      StepCheaper(cfg, s, step);
      var next := Apply(cfg, s, step);
      RunExtends(cfg, states, steps, step);
      var ss, ts := EveryRunCanFinish(cfg, states + [next], steps + [step]);
      moreStates, moreSteps := [next] + ss, [step] + ts;
      assert states + moreStates == states + [next] + ss && steps + moreSteps == steps + [step] + ts;
    }
  }

  lemma NoReceiversNoneRaised(s: State)
    ensures s.receivers == [] ==> NoneRaised(s)
  {
  }

  lemma RunLength(cfg: Config, states: seq<State>, steps: seq<Step>)
    requires Run(cfg, states, steps)
    ensures |states| == |steps| + 1
  {
  }
}
