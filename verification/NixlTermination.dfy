/** Every step of the NIXL chain uses up part of a budget fixed by the weights, the bucket size
    and the number of ranks; so every run ends, and one that cannot go on has delivered. */
module NixlTermination {
  import opened Arith
  import opened Basics
  import opened Packing
  import opened Buckets
  import opened Filling
  import opened Handing
  import opened Nixl
  import opened NixlInvariant
  import opened NixlRuns

  function Phase(pc: Pc): nat {
    match pc
    case First => 7
    case AwaitFirst => 6
    case Forward => 5
    case NextMeta => 4
    case Yielding => 3
    case AwaitRead => 1
    case AwaitLast => 1
    case Filling => 2
    case _ => 0
  }

  function ReadCost(reading: Reading): nat {
    if reading.InFlight? then |reading.left| + 1 else 0
  }

  /** What is left for rank 0: weights to fill in, buckets to post and to wait for. */
  ghost function SenderBudget(cfg: Config, n: Node): nat {
    Minus(|cfg.ws|, n.next) + 2 * Minus(|cfg.Buckets()|, n.posted) + (if n.outstanding.Some? then 1 else 0)
    + Phase(n.pc)
  }

  /** What `buckets` READs still use up. */
  function ReadsLeft(buckets: nat, size: nat): nat {
    MulLe(0, buckets, size + 2);
    buckets * (size + 2)
  }

  /** What is left for a receiver: READs to begin, bytes to land, tensors to hand out, and six
      phases a bucket. */
  ghost function ReceiverBudget(cfg: Config, n: Node): nat {
    ReadsLeft(Minus(|cfg.Buckets()|, n.begun), cfg.size) + ReadCost(n.reading)
    + Minus(|Delivered(cfg.Buckets())|, |n.yielded|)
    + 6 * Minus(|cfg.Buckets()|, n.cur) + Phase(n.pc)
  }

  ghost function NodeBudget(cfg: Config, i: nat, n: Node): nat {
    if i == 0 then SenderBudget(cfg, n) else ReceiverBudget(cfg, n)
  }

  ghost function Budget(cfg: Config, s: State): nat {
    if s == [] then 0 else Budget(cfg, s[..|s| - 1]) + NodeBudget(cfg, |s| - 1, s[|s| - 1])
  }

  lemma {:induction false} BudgetUpdate(cfg: Config, s: State, i: nat, n: Node)
    requires i < |s|
    ensures Budget(cfg, s[i := n]) == Budget(cfg, s) - NodeBudget(cfg, i, s[i]) + NodeBudget(cfg, i, n)
  {
    hide NodeBudget;
    var t := s[i := n];
    if i == |s| - 1 {
      assert t[..|t| - 1] == s[..|s| - 1];
    } else {
      assert t[..|t| - 1] == s[..|s| - 1][i := n];
      BudgetUpdate(cfg, s[..|s| - 1], i, n);
    }
  }

  // ---- one rank ----

  lemma FillCheaper(cfg: Config, n: Node)
    requires Shaped(cfg, n) && NextFits(cfg, n)
    ensures SenderBudget(cfg, DoFill(cfg, n)) < SenderBudget(cfg, n)
  {
  }

  lemma SenderTakesCheaper(cfg: Config, n: Node)
    requires n.outstanding.Some? && n.notifs != [] && n.notifs[0] == n.outstanding.value
    ensures SenderBudget(cfg, TakeNotification(n)) < SenderBudget(cfg, n)
    ensures n.pc.AwaitLast? ==> SenderBudget(cfg, TakeNotification(n).(pc := Finished)) < SenderBudget(cfg, n)
  {
  }

  lemma SenderPostCheaper(cfg: Config, n: Node, key: Key)
    requires n.pc.Filling? && n.outstanding.None? && n.posted < |cfg.Buckets()|
    ensures SenderBudget(cfg, DoSenderPost(cfg, n, key)) < SenderBudget(cfg, n)
  {
  }

  lemma OneFewer(a: nat, b: nat, size: nat)
    requires b < a
    ensures ReadsLeft(Minus(a, b), size) == ReadsLeft(Minus(a, b + 1), size) + size + 2
  {
    MulPlus(size + 2, Minus(a, b + 1), 1);
    assert Minus(a, b) * (size + 2) == (size + 2) * (Minus(a, b + 1) + 1);
  }

  lemma ReceiveCheaper(cfg: Config, n: Node)
    requires n.inbox != [] && IsMessage(n.inbox[0]) && n.begun < |cfg.Buckets()| && n.reading.Idle?
    requires n.pc.First? || n.pc.NextMeta?
    ensures ReceiverBudget(cfg, DoReceive(cfg, n)) < ReceiverBudget(cfg, n)
  {
    hide Delivered, Pack, Strip;
    var m := DoReceive(cfg, n);
    OneFewer(|cfg.Buckets()|, n.begun, cfg.size);
    hide ReadsLeft;
    assert ReadCost(m.reading) == cfg.size + 1 && ReadCost(n.reading) == 0;
    hide ReadCost, IsMessage;
  }

  lemma CopyCheaper(cfg: Config, n: Node, k: nat, b: Byte)
    requires Shaped(cfg, n) && n.reading.InFlight? && k in n.reading.left && k < cfg.size
    ensures ReceiverBudget(cfg, DoCopy(n, k, b)) < ReceiverBudget(cfg, n)
  {
    hide Delivered;
  }

  lemma LandCheaper(cfg: Config, n: Node)
    requires n.reading.InFlight?
    ensures ReceiverBudget(cfg, n.(reading := Landed, landed := n.landed + 1)) < ReceiverBudget(cfg, n)
  {
    hide Delivered;
  }

  lemma SwapCheaper(cfg: Config, n: Node)
    requires n.reading.Landed? && (n.pc.AwaitFirst? || (n.pc.AwaitRead? && n.cur < |cfg.Buckets()|))
    requires n.pc.AwaitFirst? ==> n.cur == 0
    ensures ReceiverBudget(cfg, DoSwap(n)) < ReceiverBudget(cfg, n)
  {
    hide Delivered;
  }

  lemma RelayCheaper(cfg: Config, n: Node, key: Key)
    requires n.pc.Forward?
    ensures ReceiverBudget(cfg, AfterForward(Post(n, key))) < ReceiverBudget(cfg, n)
    ensures ReceiverBudget(cfg, AfterForward(n)) < ReceiverBudget(cfg, n)
  {
    hide Delivered;
  }

  lemma YieldCheaper(cfg: Config, n: Node)
    requires n.pc.Yielding? && IsBucketDict(n.metadata) && n.next < |MetaIn(n.metadata)| && Shaped(cfg, n)
    requires !DoYield(n).pc.Failed? && DoYield(n).yielded <= Delivered(cfg.Buckets())
    ensures ReceiverBudget(cfg, DoYield(n)) < ReceiverBudget(cfg, n)
  {
    hide Delivered, View;
  }

  lemma AwaitNextCheaper(cfg: Config, n: Node)
    requires n.pc.Yielding? && IsBucketDict(n.metadata) && (n.outstanding.Some? ==> n.notifs != [])
    ensures ReceiverBudget(cfg, DoAwaitNext(n)) < ReceiverBudget(cfg, n)
  {
    hide Delivered;
  }

  // ---- the whole chain ----

  /** What the invariant says that the budgets need. */
  lemma ReceiverBounds(cfg: Config, i: nat, n: Node)
    requires 1 <= i <= cfg.last && NodeInv(cfg, i, n)
    ensures Shaped(cfg, n)
    ensures n.pc.First? || n.pc.NextMeta? ==> n.begun < |cfg.Buckets()| && n.reading.Idle? && n.begun == n.landed
    ensures n.pc.AwaitRead? ==> n.cur < |cfg.Buckets()|
  {
    hide Holds, Handed, Start, MetaOf, Pack;
  }

  lemma SenderBounds(cfg: Config, n: Node)
    requires NodeInv(cfg, 0, n)
    ensures Shaped(cfg, n) && (n.pc.Filling? ==> n.posted < |cfg.Buckets()|)
  {
    hide FillingInv;
  }

  /** Before its first bucket a receiver's bucket counter is zero. */
  ghost predicate StartInv(i: nat, n: Node) {
    i >= 1 && (n.pc.First? || n.pc.AwaitFirst?) ==> n.cur == 0
  }

  ghost predicate StartsInv(s: State) {
    forall i: nat :: i < |s| ==> StartInv(i, s[i])
  }

  lemma StartsKept(cfg: Config, s: State, step: Step)
    requires WellShaped(cfg, s) && cfg.last >= 1 && |s| == cfg.last + 1 && Enabled(cfg, s, step) && StartsInv(s)
    ensures StartsInv(Apply(cfg, s, step))
  {
    hide PostMessage, Put, View, Strip, Overwrite, BucketDict, Offsets;
    var t := Apply(cfg, s, step);
    forall i: nat | i < |t| ensures StartInv(i, t[i]) {
      assert StartInv(i, s[i]);
    }
  }

  lemma SenderStepCheaper(cfg: Config, s: State, step: Step)
    requires cfg.Valid() && Inv(cfg, s) && WellShaped(cfg, s) && Enabled(cfg, s, step)
    requires step.Fill? || step.SenderAwait? || step.FinalAwait? || step.SenderPost?
    ensures Budget(cfg, Apply(cfg, s, step)) < Budget(cfg, s)
  {
    hide Inv, NodeInv, LinkInv, Budget, SenderBudget, ReceiverBudget;
    At(cfg, s, 0);
    SenderBounds(cfg, s[0]);
    var n := s[0];
    match step
    case Fill =>
      FillCheaper(cfg, n);
      BudgetUpdate(cfg, s, 0, DoFill(cfg, n));
    case SenderAwait =>
      TakeNotificationLink(cfg, 0, n, s[1]);
      SenderTakesCheaper(cfg, n);
      BudgetUpdate(cfg, s, 0, TakeNotification(n));
    case FinalAwait =>
      TakeNotificationLink(cfg, 0, n, s[1]);
      SenderTakesCheaper(cfg, n);
      BudgetUpdate(cfg, s, 0, TakeNotification(n).(pc := Finished));
    case SenderPost(key) =>
      SenderPostCheaper(cfg, n, key);
      var message := PostMessage(key, 0, n.send, BucketDict(n.meta, n.next >= |cfg.ws|));
      DeliverCostsNothing(cfg, s[1], message);
      BudgetUpdate(cfg, s, 0, DoSenderPost(cfg, n, key));
      BudgetUpdate(cfg, s[0 := DoSenderPost(cfg, n, key)], 1, Deliver(s[1], message));
  }

  lemma DeliverCostsNothing(cfg: Config, n: Node, message: Dict)
    ensures ReceiverBudget(cfg, Deliver(n, message)) == ReceiverBudget(cfg, n)
  {
    hide Delivered;
  }

  lemma NotifyCostsNothing(cfg: Config, i: nat, n: Node, notifs: seq<Key>)
    ensures NodeBudget(cfg, i, n.(notifs := notifs)) == NodeBudget(cfg, i, n)
  {
    hide Delivered;
  }

  lemma YieldStepCheaper(cfg: Config, i: nat, n: Node)
    requires cfg.Valid() && 1 <= i <= cfg.last && NodeInv(cfg, i, n)
    requires n.pc.Yielding? && IsBucketDict(n.metadata) && n.next < |MetaIn(n.metadata)| && Shaped(cfg, n)
    ensures ReceiverBudget(cfg, DoYield(n)) < ReceiverBudget(cfg, n)
  {
    hide NodeInv, ReceiverBudget, Delivered, DoYield;
    YieldNode(cfg, i, n);
    NotFailed(cfg, i, DoYield(n));
    NodeDelivers(cfg, i, DoYield(n));
    YieldCheaper(cfg, n);
  }

  lemma ReceiverStepCheaper(cfg: Config, s: State, step: Step)
    requires cfg.Valid() && Inv(cfg, s) && WellShaped(cfg, s) && Enabled(cfg, s, step) && StartsInv(s)
    requires step.Receive? || step.CopyByte? || step.Swap? || step.Yield? || step.AwaitNext?
    ensures Budget(cfg, Apply(cfg, s, step)) < Budget(cfg, s)
  {
    hide Inv, NodeInv, LinkInv, Budget, SenderBudget, ReceiverBudget, IsBucketDict, IsMessage, MetaIn;
    hide DoReceive, DoCopy, DoSwap, DoYield, DoAwaitNext;
    At(cfg, s, step.i);
    var i, n := step.i, s[step.i];
    ReceiverBounds(cfg, i, n);
    match step
    case Receive(_) =>
      ReceiveMessage(cfg, i, s[i - 1], n);
      ReceiveCheaper(cfg, n);
      BudgetUpdate(cfg, s, i, DoReceive(cfg, n));
    case CopyByte(_, k) =>
      var b := s[n.reading.rank].bufs[n.reading.buf][k];
      CopyCheaper(cfg, n, k, b);
      BudgetUpdate(cfg, s, i, DoCopy(n, k, b));
    case Swap(_) =>
      assert StartInv(i, n);
      SwapCheaper(cfg, n);
      BudgetUpdate(cfg, s, i, DoSwap(n));
    case Yield(_) =>
      YieldStepCheaper(cfg, i, n);
      BudgetUpdate(cfg, s, i, DoYield(n));
    case AwaitNext(_) =>
      AwaitNextCheaper(cfg, n);
      BudgetUpdate(cfg, s, i, DoAwaitNext(n));
  }

  lemma PairStepCheaper(cfg: Config, s: State, step: Step)
    requires cfg.Valid() && Inv(cfg, s) && WellShaped(cfg, s) && Enabled(cfg, s, step)
    requires step.Land? || step.Relay?
    ensures Budget(cfg, Apply(cfg, s, step)) < Budget(cfg, s)
  {
    hide Inv, NodeInv, LinkInv, Budget, SenderBudget, ReceiverBudget, PostMessage;
    var i, n := step.i, s[step.i];
    match step
    case Land(_) =>
      var notifs := s[i - 1].notifs + [n.reading.key];
      LandCheaper(cfg, n);
      NotifyCostsNothing(cfg, i - 1, s[i - 1], notifs);
      BudgetUpdate(cfg, s, i - 1, s[i - 1].(notifs := notifs));
      BudgetUpdate(cfg, s[i - 1 := s[i - 1].(notifs := notifs)], i, n.(reading := Landed, landed := n.landed + 1));
    case Relay(_, key) =>
      RelayCheaper(cfg, n, key);
      if i < cfg.last {
        var message := PostMessage(key, i, n.send, n.metadata);
        DeliverCostsNothing(cfg, s[i + 1], message);
        BudgetUpdate(cfg, s, i, AfterForward(Post(n, key)));
        BudgetUpdate(cfg, s[i := AfterForward(Post(n, key))], i + 1, Deliver(s[i + 1], message));
      } else {
        BudgetUpdate(cfg, s, i, AfterForward(n));
      }
  }

  /** Every step costs. */
  lemma StepCheaper(cfg: Config, s: State, step: Step)
    requires cfg.Valid() && Inv(cfg, s) && WellShaped(cfg, s) && Enabled(cfg, s, step) && StartsInv(s)
    ensures Budget(cfg, Apply(cfg, s, step)) < Budget(cfg, s)
  {
    hide Inv, Budget, Enabled, Apply, StartsInv;
    if step.Land? || step.Relay? {
      PairStepCheaper(cfg, s, step);
    } else if step.Fill? || step.SenderAwait? || step.FinalAwait? || step.SenderPost? {
      SenderStepCheaper(cfg, s, step);
    } else {
      ReceiverStepCheaper(cfg, s, step);
    }
  }

  lemma {:induction false} RunStarts(cfg: Config, states: seq<State>, steps: seq<Step>, t: nat)
    requires cfg.Valid() && Run(cfg, states, steps) && t <= |steps|
    ensures StartsInv(states[t])
  {
    hide Inv, Enabled, Apply;
    if t > 0 {
      RunStarts(cfg, states, steps, t - 1);
      StartsKept(cfg, states[t - 1], steps[t - 1]);
    }
  }

  /** The steps taken and the budget left never exceed the budget at the start: no run is
      longer than that, whatever the interleaving. */
  lemma {:induction false} RunsEnd(cfg: Config, states: seq<State>, steps: seq<Step>, t: nat)
    requires cfg.Valid() && Run(cfg, states, steps) && t <= |steps|
    ensures t + Budget(cfg, states[t]) <= Budget(cfg, states[0])
  {
    hide Inv, Budget, Enabled, Apply, Init, StartsInv;
    if t > 0 {
      RunsEnd(cfg, states, steps, t - 1);
      RunInv(cfg, states, steps, t - 1);
      RunStarts(cfg, states, steps, t - 1);
      StepCheaper(cfg, states[t - 1], steps[t - 1]);
    }
  }

  ghost predicate Stuck(cfg: Config, s: State)
    requires cfg.last >= 1
  {
    WellShaped(cfg, s) ==> forall step :: !Enabled(cfg, s, step)
  }

  /** Every rank is done, and every receiver has handed out rank 0's weights. */
  ghost predicate Delivers(cfg: Config, s: State) {
    && AllFinished(s) && |s| == cfg.last + 1
    && forall i :: 1 <= i <= cfg.last ==> s[i].yielded == cfg.ws
  }

  /** A state in which every rank is done: every entry could be viewed, and the weights arrived
      exactly when no bucket holds two of one name. */
  lemma FinishedDelivers(cfg: Config, states: seq<State>, steps: seq<Step>, t: nat)
    requires cfg.Valid() && Run(cfg, states, steps) && t <= |steps| && AllFinished(states[t])
    ensures EntriesAligned(cfg.Buckets())
    ensures Delivers(cfg, states[t]) <==> NamesDistinctWithinBuckets(cfg.Buckets())
  {
    hide EntriesAligned, NamesDistinctWithinBuckets, Init, Enabled, Apply;
    Delivery(cfg, states, steps, t, 1);
    forall i | 1 <= i <= cfg.last
      ensures states[t][i].yielded == cfg.ws <==> NamesDistinctWithinBuckets(cfg.Buckets())
    {
      Delivery(cfg, states, steps, t, i);
    }
  }

  /** A run that cannot be extended has ended within the budget. It has ended with every rank done
      exactly when every entry can be viewed; and with rank 0's weights handed out on every rank
      exactly when no bucket holds two weights of one name and every weight starts at a multiple of
      its item size. */
  lemma MaximalRunsDeliver(cfg: Config, states: seq<State>, steps: seq<Step>)
    requires cfg.Valid() && Run(cfg, states, steps) && Stuck(cfg, states[|steps|])
    ensures |steps| <= Budget(cfg, states[0])
    ensures AllFinished(states[|steps|]) <==> EntriesAligned(cfg.Buckets())
    ensures Delivers(cfg, states[|steps|])
            <==> NamesDistinctWithinBuckets(cfg.Buckets()) && AlignedBuckets(cfg.Buckets())
  {
    hide Inv, Budget, Enabled, Apply, Init, EntriesAligned, NamesDistinctWithinBuckets, AlignedBuckets, NoneRaised;
    RunsEnd(cfg, states, steps, |steps|);
    AlignedWhenDistinct(cfg.Buckets());
    if AllFinished(states[|steps|]) {
      FinishedDelivers(cfg, states, steps, |steps|);
    } else if EntriesAligned(cfg.Buckets()) {
      AlignedNeverRaises(cfg, states, steps, |steps|);
      var step := Progress(cfg, states, steps, |steps|);
      assert false;
    }
  }

  lemma RunExtends(cfg: Config, states: seq<State>, steps: seq<Step>, step: Step)
    requires cfg.last >= 1 && Run(cfg, states, steps)
    requires WellShaped(cfg, states[|steps|]) && Enabled(cfg, states[|steps|], step)
    ensures Run(cfg, states + [Apply(cfg, states[|steps|], step)], steps + [step])
  {
    hide Init, Enabled, Apply, WellShaped;
    var states', steps' := states + [Apply(cfg, states[|steps|], step)], steps + [step];
    forall t | 0 <= t < |steps'|
      ensures WellShaped(cfg, states'[t]) && Enabled(cfg, states'[t], steps'[t])
      ensures states'[t + 1] == Apply(cfg, states'[t], steps'[t])
    {
      assert states'[t] == states[t];
      if t < |steps| {
        assert states'[t + 1] == states[t + 1];
      }
    }
  }

  /** Every run, wherever it has got to, can be continued until every rank is done, or some rank
      has raised; none raises when every entry can be viewed, and none is ever done otherwise. */
  lemma {:induction false} EveryRunCanFinish(cfg: Config, states: seq<State>, steps: seq<Step>)
    returns (moreStates: seq<State>, moreSteps: seq<Step>)
    requires cfg.Valid() && Run(cfg, states, steps)
    ensures Run(cfg, states + moreStates, steps + moreSteps)
    ensures var s := (states + moreStates)[|steps + moreSteps|];
            if EntriesAligned(cfg.Buckets()) then AllFinished(s) else !AllFinished(s) && !NoneRaised(s)
    decreases Budget(cfg, states[|steps|])
  {
    hide Inv, Budget, Enabled, Apply, Init, Run, StartsInv, EntriesAligned, NoneRaised;
    assert |states| == |steps| + 1 by {
      RunLength(cfg, states, steps);
    }
    var s := states[|steps|];
    if EntriesAligned(cfg.Buckets()) {
      AlignedNeverRaises(cfg, states, steps, |steps|);
    }
    if AllFinished(s) {
      FinishedDelivers(cfg, states, steps, |steps|);
    }
    if AllFinished(s) || !NoneRaised(s) {
      moreStates, moreSteps := [], [];
      assert states + [] == states && steps + [] == steps;
    } else {
      var step := Progress(cfg, states, steps, |steps|);
      RunInv(cfg, states, steps, |steps|);
      RunStarts(cfg, states, steps, |steps|);
      StepCheaper(cfg, s, step);
      var next := Apply(cfg, s, step);
      RunExtends(cfg, states, steps, step);
      var ss, ts := EveryRunCanFinish(cfg, states + [next], steps + [step]);
      moreStates, moreSteps := [next] + ss, [step] + ts;
      assert states + moreStates == states + [next] + ss && steps + moreSteps == steps + [step] + ts;
    }
  }

  lemma RunLength(cfg: Config, states: seq<State>, steps: seq<Step>)
    requires cfg.last >= 1 && Run(cfg, states, steps)
    ensures |states| == |steps| + 1
  {
  }
}
