/** The NCCL weight transfer as a state machine. Every rank works through its own loop over two
    buffers; a broadcast operation runs in a thread of its own, first passing the metadata over
    PUB/SUB and then entering the collective, which completes for all ranks together once the
    last has entered. */
module NcclLockstep {
  import opened Packing
  import opened Buckets
  import opened Filling
  import opened Handing

  /** `{"bucket_meta": ..., "is_last": ...}` */
  datatype Notice = Notice(meta: BucketMeta, isLast: bool)

  datatype Op =
    | NoOp      // none pending
    | Launched  // metadata not yet sent, or not yet received
    | Entered   // in the collective
    | Fired     // the collective is complete, not yet waited for

  datatype SenderPc = Filling | AwaitLast | SenderDone | SenderFailed

  datatype Sender = Sender(
    pc: SenderPc,
    bufs: seq<seq<Byte>>,
    send: nat,
    op: Op,
    opBuf: nat,        // the buffer the pending broadcast reads
    opNotice: Notice,
    next: nat,
    offset: nat,
    meta: BucketMeta,
    // history
    filled: Bucket,
    launched: nat)

  datatype ReceiverPc =
    | First      // before the first broadcast
    | AwaitFirst
    | LoopTop    // `while not metadata["is_last"]`
    | Yielding   // next broadcast launched, handing out the current bucket
    | AwaitNext
    | YieldLast  // handing out the last bucket
    | ReceiverDone
    | ReceiverRaised  // `view(dtype)` raised on an entry that does not start at a multiple of its item size
    | ReceiverFailed

  datatype Receiver = Receiver(
    pc: ReceiverPc,
    bufs: seq<seq<Byte>>,
    send: nat,           // the pending broadcast writes the other buffer
    op: Op,
    opNotice: Notice,    // the metadata the pending broadcast has received
    metadata: Notice,
    next: nat,
    inbox: seq<Notice>,  // metadata published and not yet received
    yielded: seq<Weight>,
    launched: nat)       // history

  /** `fired` counts the collectives completed. */
  datatype State = State(sender: Sender, receivers: seq<Receiver>, fired: nat)

  datatype Config = Config(ws: seq<Weight>, size: nat) {
    ghost predicate Valid() {
      AllFit(ws, size)
    }

    function Buckets(): (r: seq<Bucket>)
      ensures r != []
    {
      Pack(ws, size, [])
    }
  }

  datatype Step =
    | Fill
    | SenderAwait
    | SenderLaunch
    | Publish
    | SenderFinish
    | Fire
    | Launch(i: nat, junk: seq<Byte>)
    | TakeNotice(i: nat)
    | Await(i: nat)
    | Yield(i: nat)
    | YieldEnd(i: nat)

  predicate ShapedBufs(size: nat, bufs: seq<seq<Byte>>, send: nat) {
    |bufs| == 2 && send < 2 && |bufs[0]| == size && |bufs[1]| == size
  }

  predicate WellShaped(cfg: Config, s: State) {
    && ShapedBufs(cfg.size, s.sender.bufs, s.sender.send) && s.sender.opBuf < 2
    && forall i :: 0 <= i < |s.receivers| ==> ShapedBufs(cfg.size, s.receivers[i].bufs, s.receivers[i].send)
  }

  const NO_NOTICE := Notice([], false)

  ghost predicate Init(cfg: Config, s: State) {
    && WellShaped(cfg, s) && s.fired == 0
    && s.sender == Sender(Filling, s.sender.bufs, 0, NoOp, 0, NO_NOTICE, 0, 0, [], [], 0)
    && forall i :: 0 <= i < |s.receivers| ==>
         s.receivers[i] == Receiver(First, s.receivers[i].bufs, 0, NoOp, NO_NOTICE, NO_NOTICE, 0, [], [], 0)
  }

  predicate NextFits(cfg: Config, n: Sender) {
    n.next < |cfg.ws| && n.offset + |cfg.ws[n.next].bytes| <= cfg.size
  }

  /** The sender has nothing more to put in the open bucket. */
  predicate Closing(cfg: Config, n: Sender) {
    n.pc.Filling? && !NextFits(cfg, n)
  }

  predicate AllEntered(rs: seq<Receiver>) {
    forall i :: 0 <= i < |rs| ==> rs[i].op.Entered?
  }

  predicate Enabled(cfg: Config, s: State, step: Step)
    requires WellShaped(cfg, s)
  {
    match step
    case Fill => s.sender.pc.Filling? && NextFits(cfg, s.sender)
    case SenderAwait => Closing(cfg, s.sender) && s.sender.op.Fired?
    case SenderLaunch => Closing(cfg, s.sender) && s.sender.op.NoOp?
    case Publish => s.sender.op.Launched?
    case SenderFinish => s.sender.pc.AwaitLast? && s.sender.op.Fired?
    case Fire => s.sender.op.Entered? && AllEntered(s.receivers)
    case Launch(i, junk) =>
      i < |s.receivers| && (s.receivers[i].pc.First? || s.receivers[i].pc.LoopTop?) && |junk| == cfg.size
    case TakeNotice(i) => i < |s.receivers| && s.receivers[i].op.Launched? && s.receivers[i].inbox != []
    case Await(i) =>
      i < |s.receivers| && (s.receivers[i].pc.AwaitFirst? || s.receivers[i].pc.AwaitNext?) && s.receivers[i].op.Fired?
    case Yield(i) => i < |s.receivers| && HandsOut(s.receivers[i]) && s.receivers[i].next < |s.receivers[i].metadata.meta|
    case YieldEnd(i) => i < |s.receivers| && HandsOut(s.receivers[i]) && s.receivers[i].next >= |s.receivers[i].metadata.meta|
  }

  predicate HandsOut(n: Receiver) {
    n.pc.Yielding? || n.pc.YieldLast?
  }

  function DoFill(cfg: Config, n: Sender): Sender
    requires NextFits(cfg, n) && ShapedBufs(cfg.size, n.bufs, n.send)
  {
    var w := cfg.ws[n.next];
    n.(bufs := n.bufs[n.send := Overwrite(n.bufs[n.send], n.offset, w.bytes)],
       meta := Put(n.meta, MetaAt(w, n.offset)),
       offset := n.offset + |w.bytes|,
       next := n.next + 1,
       filled := n.filled + [w])
  }

  /** The last bucket is launched without a swap; after any other the buffers swap, and then the
      weight that did not fit must fit in the empty one. */
  function DoSenderLaunch(cfg: Config, n: Sender): Sender {
    var m := n.(op := Launched, opBuf := n.send, opNotice := Notice(n.meta, n.next >= |cfg.ws|), launched := n.launched + 1);
    if n.next >= |cfg.ws| then m.(pc := AwaitLast)
    else
      m.(pc := if |cfg.ws[n.next].bytes| > cfg.size then SenderFailed else Filling,
         send := if n.send == 0 then 1 else 0, meta := [], offset := 0, filled := [])
  }

  function DoPublish(rs: seq<Receiver>, notice: Notice): (r: seq<Receiver>)
    ensures |r| == |rs|
  {
    seq(|rs|, i requires 0 <= i < |rs| => rs[i].(inbox := rs[i].inbox + [notice]))
  }

  function Receive(n: Receiver, bytes: seq<Byte>): Receiver
    requires |n.bufs| == 2 && n.send < 2
  {
    n.(op := Fired, bufs := n.bufs[1 - n.send := bytes])
  }

  function DoFire(cfg: Config, rs: seq<Receiver>, bytes: seq<Byte>): (r: seq<Receiver>)
    requires forall i :: 0 <= i < |rs| ==> ShapedBufs(cfg.size, rs[i].bufs, rs[i].send)
    ensures |r| == |rs|
  {
    seq(|rs|, i requires 0 <= i < |rs| && ShapedBufs(cfg.size, rs[i].bufs, rs[i].send) => Receive(rs[i], bytes))
  }

  /** From the launch on the destination buffer may hold anything. */
  function DoLaunch(n: Receiver, junk: seq<Byte>): Receiver
    requires |n.bufs| == 2 && n.send < 2
  {
    n.(pc := if n.pc.First? then AwaitFirst else Yielding, op := Launched, launched := n.launched + 1, next := 0,
       bufs := n.bufs[1 - n.send := junk])
  }

  function DoTakeNotice(n: Receiver): Receiver
    requires n.inbox != []
  {
    n.(op := Entered, opNotice := n.inbox[0], inbox := n.inbox[1..])
  }

  function DoAwait(n: Receiver): Receiver {
    n.(pc := if n.opNotice.isLast then YieldLast else LoopTop, op := NoOp, metadata := n.opNotice, next := 0,
       send := if n.send == 0 then 1 else 0)
  }

  function DoYield(n: Receiver): Receiver
    requires n.next < |n.metadata.meta| && |n.bufs| == 2 && n.send < 2
  {
    var m := n.metadata.meta[n.next];
    if m.End() > |n.bufs[n.send]| then n.(pc := ReceiverFailed)
    else if !m.Aligned() then n.(pc := ReceiverRaised)
    else n.(yielded := n.yielded + [View(m, n.bufs[n.send])], next := n.next + 1)
  }

  function DoYieldEnd(n: Receiver): Receiver {
    n.(pc := if n.pc.Yielding? then AwaitNext else ReceiverDone)
  }

  function Apply(cfg: Config, s: State, step: Step): State
    requires WellShaped(cfg, s) && Enabled(cfg, s, step)
  {
    var n, rs := s.sender, s.receivers;
    match step
    case Fill => s.(sender := DoFill(cfg, n))
    case SenderAwait => s.(sender := n.(op := NoOp))
    case SenderLaunch => s.(sender := DoSenderLaunch(cfg, n))
    case Publish => s.(sender := n.(op := Entered), receivers := DoPublish(rs, n.opNotice))
    case SenderFinish => s.(sender := n.(pc := SenderDone, op := NoOp))
    case Fire => State(n.(op := Fired), DoFire(cfg, rs, n.bufs[n.opBuf]), s.fired + 1)
    case Launch(i, junk) => s.(receivers := rs[i := DoLaunch(rs[i], junk)])
    case TakeNotice(i) => s.(receivers := rs[i := DoTakeNotice(rs[i])])
    case Await(i) => s.(receivers := rs[i := DoAwait(rs[i])])
    case Yield(i) => s.(receivers := rs[i := DoYield(rs[i])])
    case YieldEnd(i) => s.(receivers := rs[i := DoYieldEnd(rs[i])])
  }

  /** A run: every state follows from the one before by an enabled step. */
  ghost predicate Run(cfg: Config, states: seq<State>, steps: seq<Step>) {
    && |states| == |steps| + 1
    && Init(cfg, states[0])
    && forall t :: 0 <= t < |steps| ==>
         WellShaped(cfg, states[t]) && Enabled(cfg, states[t], steps[t])
         && states[t + 1] == Apply(cfg, states[t], steps[t])
  }

  // ---- the invariant ----

  ghost function NoticeOf(cfg: Config, b: nat): Notice
    requires b < |cfg.Buckets()|
  {
    Notice(MetaOf(cfg.Buckets()[b]), b == |cfg.Buckets()| - 1)
  }

  ghost predicate Pending(op: Op) {
    op.Launched? || op.Entered?
  }

  /** Every rank has launched as many broadcasts as were completed, or one more. */
  ghost predicate InStep(fired: nat, op: Op, launched: nat) {
    launched == if Pending(op) then fired + 1 else fired
  }

  ghost predicate SenderInv(cfg: Config, fired: nat, n: Sender) {
    var bs := cfg.Buckets();
    && ShapedBufs(cfg.size, n.bufs, n.send) && n.opBuf < 2
    && InStep(fired, n.op, n.launched) && n.launched <= |bs|
    && (n.pc.Filling? || n.pc.AwaitLast? || n.pc.SenderDone?)
    && (!n.op.NoOp? ==>
          n.launched > 0 && n.opBuf == (n.launched - 1) % 2 && n.opNotice == NoticeOf(cfg, n.launched - 1)
          && Holds(n.bufs[n.opBuf], bs[n.launched - 1]))
    && (n.pc.Filling? ==>
          n.send == n.launched % 2
          && FillingInv(cfg.ws, cfg.size, n.launched, n.next, n.filled, n.offset, n.meta, n.bufs[n.send]))
    && (!n.pc.Filling? ==> n.launched == |bs| && (n.op.NoOp? <==> n.pc.SenderDone?))
  }

  /** The bucket a receiver holds, once it has one. */
  function Current(n: Receiver): int {
    if n.op.NoOp? then n.launched - 1 else n.launched - 2
  }

  /** How many of the `entries` tensors of the current bucket have been handed out. */
  function HandedOut(n: Receiver, entries: nat): nat {
    if n.pc.LoopTop? then 0 else if HandsOut(n) || n.pc.ReceiverRaised? then n.next else entries
  }

  ghost predicate CurrentInv(cfg: Config, n: Receiver)
    requires |n.bufs| == 2 && n.send < 2
  {
    var bs, c := cfg.Buckets(), Current(n);
    && 0 <= c < |bs| && n.send == (c + 1) % 2 && Holds(n.bufs[n.send], bs[c]) && n.metadata == NoticeOf(cfg, c)
    && (n.op.NoOp? && !n.pc.LoopTop? <==> c == |bs| - 1)
    && HandedOut(n, |MetaOf(bs[c])|) <= |MetaOf(bs[c])|
    && Handed(bs, n.yielded, c, HandedOut(n, |MetaOf(bs[c])|))
    && (n.pc.ReceiverRaised? ==> n.next < |MetaOf(bs[c])| && !CanView(bs, c, n.next))
  }

  ghost predicate ReceiverInv(cfg: Config, fired: nat, n: Receiver) {
    var bs := cfg.Buckets();
    && ShapedBufs(cfg.size, n.bufs, n.send) && !n.pc.ReceiverFailed?
    && InStep(fired, n.op, n.launched) && n.launched <= |bs|
    && (n.pc.ReceiverRaised?
        || (n.op.NoOp? <==> n.pc.First? || n.pc.LoopTop? || n.pc.YieldLast? || n.pc.ReceiverDone?))
    && (n.op.Entered? || n.op.Fired? ==> n.launched > 0 && n.opNotice == NoticeOf(cfg, n.launched - 1))
    && (n.op.Fired? ==> n.launched > 0 && Holds(n.bufs[1 - n.send], bs[n.launched - 1]))
    && if n.pc.First? || n.pc.AwaitFirst? then
         n.launched == (if n.pc.First? then 0 else 1) && n.send == 0 && n.yielded == []
       else CurrentInv(cfg, n)
  }

  /** What the sender and a receiver agree on: the one notice under way is of the broadcast that
      the sender is in and the receiver is not. */
  ghost predicate LinkInv(cfg: Config, fired: nat, op: Op, opNotice: Notice, n: Receiver) {
    && (n.op.Entered? ==> op.Entered?)
    && n.inbox == if op.Entered? && !n.op.Entered? then [opNotice] else []
  }

  ghost predicate Inv(cfg: Config, s: State) {
    && SenderInv(cfg, s.fired, s.sender)
    && (forall i :: 0 <= i < |s.receivers| ==> ReceiverInv(cfg, s.fired, s.receivers[i]))
    && (forall i :: 0 <= i < |s.receivers| ==>
          LinkInv(cfg, s.fired, s.sender.op, s.sender.opNotice, s.receivers[i]))
  }

  lemma InvWellShaped(cfg: Config, s: State)
    requires Inv(cfg, s)
    ensures WellShaped(cfg, s)
  {
    hide LinkInv, CurrentInv, FillingInv, Holds;
    forall i | 0 <= i < |s.receivers| ensures ShapedBufs(cfg.size, s.receivers[i].bufs, s.receivers[i].send) {
      assert ReceiverInv(cfg, s.fired, s.receivers[i]);
    }
  }

  lemma InitInv(cfg: Config, s: State)
    requires Init(cfg, s)
    ensures Inv(cfg, s)
  {
    hide Handed, Start, MetaOf;
    FillingStarts(cfg.ws, cfg.size, s.sender.bufs[0]);
  }

  // ---- the sender's steps ----

  lemma FillKeepsSender(cfg: Config, fired: nat, n: Sender)
    requires SenderInv(cfg, fired, n) && n.pc.Filling? && NextFits(cfg, n)
    ensures SenderInv(cfg, fired, DoFill(cfg, n))
  {
    hide FillingInv, Holds, Put, Overwrite, MetaAt, NBytes, Config.Buckets, NoticeOf;
    FillKeeps(cfg.ws, cfg.size, n.launched, n.next, n.filled, n.offset, n.meta, n.bufs[n.send]);
    var m := DoFill(cfg, n);
    if !n.op.NoOp? {
      assert n.opBuf == 1 - n.send && m.bufs[n.opBuf] == n.bufs[n.opBuf];
    }
  }

  lemma LaunchKeepsSender(cfg: Config, fired: nat, n: Sender)
    requires cfg.Valid() && SenderInv(cfg, fired, n) && Closing(cfg, n) && n.op.NoOp?
    ensures SenderInv(cfg, fired, DoSenderLaunch(cfg, n))
  {
    hide Holds, Pack, MetaOf, NBytes;
    assert n.meta == MetaOf(n.filled) && Holds(n.bufs[n.send], n.filled) && n.next <= |cfg.ws|;
    ClosesBucket(cfg.ws, cfg.size, n.launched, n.next, n.filled, n.offset, n.meta, n.bufs[n.send], n.bufs[1 - n.send]);
    hide FillingInv;
  }

  /** Waiting for a broadcast, or a broadcast moving on, leaves the buffers alone. */
  lemma OpKeepsSender(cfg: Config, fired: nat, n: Sender)
    requires SenderInv(cfg, fired, n)
    ensures n.op.Fired? && n.pc.Filling? ==> SenderInv(cfg, fired, n.(op := NoOp))
    ensures n.op.Launched? ==> SenderInv(cfg, fired, n.(op := Entered))
    ensures n.op.Fired? && n.pc.AwaitLast? ==> SenderInv(cfg, fired, n.(pc := SenderDone, op := NoOp))
    ensures n.op.Entered? ==> SenderInv(cfg, fired + 1, n.(op := Fired))
  {
    hide FillingInv, Holds, NoticeOf, Config.Buckets;
  }

  // ---- a receiver's steps ----

  lemma LaunchKeeps(cfg: Config, fired: nat, n: Receiver, junk: seq<Byte>)
    requires ReceiverInv(cfg, fired, n) && (n.pc.First? || n.pc.LoopTop?) && |junk| == cfg.size
    ensures ReceiverInv(cfg, fired, DoLaunch(n, junk))
  {
    hide Holds, Handed, Start, MetaOf, Pack;
  }

  lemma TakeNoticeKeeps(cfg: Config, fired: nat, op: Op, opNotice: Notice, n: Receiver)
    requires ReceiverInv(cfg, fired, n) && LinkInv(cfg, fired, op, opNotice, n) && n.op.Launched? && n.inbox != []
    requires fired < |cfg.Buckets()| && opNotice == NoticeOf(cfg, fired)
    ensures ReceiverInv(cfg, fired, DoTakeNotice(n))
    ensures LinkInv(cfg, fired, op, opNotice, DoTakeNotice(n))
  {
    hide Holds, Handed, Start, NoticeOf, Config.Buckets;
  }

  lemma FireKeeps(cfg: Config, fired: nat, n: Receiver, bytes: seq<Byte>)
    requires ReceiverInv(cfg, fired, n) && n.op.Entered?
    requires |bytes| == cfg.size && fired < |cfg.Buckets()| && Holds(bytes, cfg.Buckets()[fired])
    ensures ReceiverInv(cfg, fired + 1, Receive(n, bytes))
  {
    hide Holds, Handed, Start, NoticeOf, Config.Buckets;
  }

  lemma AwaitKeeps(cfg: Config, fired: nat, n: Receiver)
    requires ReceiverInv(cfg, fired, n) && (n.pc.AwaitFirst? || n.pc.AwaitNext?) && n.op.Fired?
    ensures ReceiverInv(cfg, fired, DoAwait(n))
  {
    hide Holds, Handed, Start, MetaOf, Pack;
    var bs, m := cfg.Buckets(), DoAwait(n);
    if n.pc.AwaitFirst? {
      HandedNothing(bs);
    } else {
      HandedBucket(bs, n.yielded, n.launched - 2);
    }
    assert Current(m) == n.launched - 1 && m.send == 1 - n.send;
  }

  lemma YieldKeeps(cfg: Config, fired: nat, n: Receiver)
    requires ReceiverInv(cfg, fired, n) && HandsOut(n) && n.next < |n.metadata.meta|
    ensures ReceiverInv(cfg, fired, DoYield(n))
  {
    hide Holds, Handed, Start, MetaOf, Received, Delivered, Pack;
    YieldsNext(cfg.Buckets(), Current(n), n.next, n.yielded, n.bufs[n.send]);
  }

  lemma YieldEndKeeps(cfg: Config, fired: nat, n: Receiver)
    requires ReceiverInv(cfg, fired, n) && HandsOut(n) && n.next >= |n.metadata.meta|
    ensures ReceiverInv(cfg, fired, DoYieldEnd(n))
  {
    hide Holds, Handed, Start, MetaOf, Pack;
  }

  // ---- all ranks ----

  lemma SenderStepInv(cfg: Config, s: State, step: Step)
    requires cfg.Valid() && Inv(cfg, s) && WellShaped(cfg, s) && Enabled(cfg, s, step)
    requires step.Fill? || step.SenderAwait? || step.SenderLaunch? || step.SenderFinish?
    ensures Inv(cfg, Apply(cfg, s, step))
  {
    hide SenderInv, ReceiverInv;
    match step
    case Fill => FillKeepsSender(cfg, s.fired, s.sender);
    case SenderAwait => OpKeepsSender(cfg, s.fired, s.sender);
    case SenderLaunch => LaunchKeepsSender(cfg, s.fired, s.sender);
    case SenderFinish => OpKeepsSender(cfg, s.fired, s.sender);
  }

  lemma PublishInv(cfg: Config, s: State)
    requires Inv(cfg, s) && WellShaped(cfg, s) && Enabled(cfg, s, Publish)
    ensures Inv(cfg, Apply(cfg, s, Publish))
  {
    hide SenderInv, ReceiverInv;
    OpKeepsSender(cfg, s.fired, s.sender);
    var t := Apply(cfg, s, Publish);
    forall i | 0 <= i < |t.receivers|
      ensures ReceiverInv(cfg, t.fired, t.receivers[i])
      ensures LinkInv(cfg, t.fired, t.sender.op, t.sender.opNotice, t.receivers[i])
    {
      assert LinkInv(cfg, s.fired, s.sender.op, s.sender.opNotice, s.receivers[i]);
      InboxIrrelevant(cfg, s.fired, s.receivers[i], s.receivers[i].inbox + [s.sender.opNotice]);
    }
  }

  lemma InboxIrrelevant(cfg: Config, fired: nat, n: Receiver, inbox: seq<Notice>)
    requires ReceiverInv(cfg, fired, n)
    ensures ReceiverInv(cfg, fired, n.(inbox := inbox))
  {
    hide Holds, Handed, Start, MetaOf, Pack;
  }

  /** When the collective completes every rank is in its broadcast number `fired`, the sender's
      buffer holds bucket `fired` of the packing, and every receiver has that bucket's metadata. */
  lemma FireCarriesBucket(cfg: Config, s: State, i: nat)
    requires Inv(cfg, s) && WellShaped(cfg, s) && Enabled(cfg, s, Fire) && i < |s.receivers|
    ensures s.fired < |cfg.Buckets()|
    ensures s.sender.launched == s.receivers[i].launched == s.fired + 1
    ensures s.sender.opNotice == s.receivers[i].opNotice == NoticeOf(cfg, s.fired)
    ensures Holds(s.sender.bufs[s.sender.opBuf], cfg.Buckets()[s.fired])
  {
    hide FillingInv, Holds, NoticeOf, Config.Buckets, CurrentInv;
    assert ReceiverInv(cfg, s.fired, s.receivers[i]);
  }

  lemma SourceHolds(cfg: Config, fired: nat, n: Sender)
    requires SenderInv(cfg, fired, n) && n.op.Entered?
    ensures fired < |cfg.Buckets()| && n.opNotice == NoticeOf(cfg, fired)
    ensures n.opBuf < 2 && |n.bufs| == 2 && |n.bufs[n.opBuf]| == cfg.size
    ensures Holds(n.bufs[n.opBuf], cfg.Buckets()[fired])
  {
    hide FillingInv, Holds, NoticeOf, Config.Buckets;
  }

  lemma FireInv(cfg: Config, s: State)
    requires Inv(cfg, s) && WellShaped(cfg, s) && Enabled(cfg, s, Fire)
    ensures Inv(cfg, Apply(cfg, s, Fire))
  {
    hide SenderInv, ReceiverInv, Holds;
    OpKeepsSender(cfg, s.fired, s.sender);
    SourceHolds(cfg, s.fired, s.sender);
    var t := Apply(cfg, s, Fire);
    forall i | 0 <= i < |t.receivers|
      ensures ReceiverInv(cfg, t.fired, t.receivers[i])
      ensures LinkInv(cfg, t.fired, t.sender.op, t.sender.opNotice, t.receivers[i])
    {
      assert LinkInv(cfg, s.fired, s.sender.op, s.sender.opNotice, s.receivers[i]);
      FireKeeps(cfg, s.fired, s.receivers[i], s.sender.bufs[s.sender.opBuf]);
    }
  }

  lemma ReceiverStepInv(cfg: Config, s: State, step: Step)
    requires Inv(cfg, s) && WellShaped(cfg, s) && Enabled(cfg, s, step)
    requires step.Launch? || step.TakeNotice? || step.Await? || step.Yield? || step.YieldEnd?
    ensures Inv(cfg, Apply(cfg, s, step))
  {
    hide SenderInv, ReceiverInv;
    var i, n := step.i, s.receivers[step.i];
    assert ReceiverInv(cfg, s.fired, n) && LinkInv(cfg, s.fired, s.sender.op, s.sender.opNotice, n);
    OpOfPc(cfg, s.fired, n);
    match step
    case Launch(_, junk) => LaunchKeeps(cfg, s.fired, n, junk);
    case TakeNotice(_) =>
      SourceHolds(cfg, s.fired, s.sender);
      TakeNoticeKeeps(cfg, s.fired, s.sender.op, s.sender.opNotice, n);
    case Await(_) => AwaitKeeps(cfg, s.fired, n);
    case Yield(_) => YieldKeeps(cfg, s.fired, n);
    case YieldEnd(_) => YieldEndKeeps(cfg, s.fired, n);
  }

  lemma OpOfPc(cfg: Config, fired: nat, n: Receiver)
    requires ReceiverInv(cfg, fired, n)
    ensures n.pc.ReceiverRaised?
            || (n.op.NoOp? <==> n.pc.First? || n.pc.LoopTop? || n.pc.YieldLast? || n.pc.ReceiverDone?)
    ensures !n.pc.ReceiverFailed?
  {
  }

  /** Every step keeps the invariant. */
  lemma StepInv(cfg: Config, s: State, step: Step)
    requires cfg.Valid() && Inv(cfg, s) && WellShaped(cfg, s) && Enabled(cfg, s, step)
    ensures Inv(cfg, Apply(cfg, s, step))
  {
    hide Inv, Enabled, Apply;
    if step.Fill? || step.SenderAwait? || step.SenderLaunch? || step.SenderFinish? {
      SenderStepInv(cfg, s, step);
    } else if step.Publish? {
      PublishInv(cfg, s);
    } else if step.Fire? {
      FireInv(cfg, s);
    } else {
      ReceiverStepInv(cfg, s, step);
    }
  }
}
