/** The NIXL weight transfer as a state machine. Rank 0 sends; ranks 1..last form a chain, each
    reading buckets out of the previous rank's memory while the next rank reads out of its own.
    A step is one piece of work between two `await`s, or one event of the transport: a byte of a
    remote READ landing, or a READ completing and notifying the agent it read from. */
module Nixl {
  import opened Basics
  import opened Packing
  import opened Buckets
  import opened Filling

  /** The notification key of a message (16 random bytes in the program). Nothing below
      assumes that keys are distinct. */
  type Key = nat

  datatype Field =
    | KeyField(key: Key)
    | DescField(rank: nat, buf: nat)
    | MetaField(meta: BucketMeta)
    | FlagField(flag: bool)

  /** The dictionaries sent between agents. */
  type Dict = map<string, Field>

  /** `{"notify_key": key, "remote_descs": descs, **metadata}` */
  function PostMessage(key: Key, rank: nat, buf: nat, metadata: Dict): Dict {
    map["notify_key" := KeyField(key), "remote_descs" := DescField(rank, buf)] + metadata
  }

  /** What is left of a message once `read_metadata` has popped its two own entries. */
  function Strip(message: Dict): Dict {
    message - {"remote_descs", "notify_key"}
  }

  function BucketDict(meta: BucketMeta, isLast: bool): Dict {
    map["bucket_meta" := MetaField(meta), "is_last" := FlagField(isLast)]
  }

  predicate IsBucketDict(d: Dict) {
    && "bucket_meta" in d && d["bucket_meta"].MetaField?
    && "is_last" in d && d["is_last"].FlagField?
  }

  predicate IsMessage(d: Dict) {
    && "notify_key" in d && d["notify_key"].KeyField?
    && "remote_descs" in d && d["remote_descs"].DescField?
    && IsBucketDict(d)
  }

  function MetaIn(d: Dict): BucketMeta
    requires IsBucketDict(d)
  {
    d["bucket_meta"].meta
  }

  function LastIn(d: Dict): bool
    requires IsBucketDict(d)
  {
    d["is_last"].flag
  }

  /** A relayed message carries the relaying rank's own key and buffer, whatever the message it
      relays carried; without the two pops it would carry those of the rank before. */
  lemma RelayCarriesOwnKey(key: Key, rank: nat, buf: nat, message: Dict)
    ensures var relayed := PostMessage(key, rank, buf, Strip(message));
            relayed["notify_key"] == KeyField(key) && relayed["remote_descs"] == DescField(rank, buf)
    ensures Strip(PostMessage(key, rank, buf, Strip(message))) == Strip(message)
    ensures IsMessage(message) ==>
              var wrong := PostMessage(key, rank, buf, message);
              wrong["notify_key"] == message["notify_key"] && wrong["remote_descs"] == message["remote_descs"]
  {
  }

  lemma StripBucketDict(meta: BucketMeta, isLast: bool)
    ensures Strip(BucketDict(meta, isLast)) == BucketDict(meta, isLast)
  {
  }

  datatype Pc =
    | Filling     // rank 0, in the loop over the weights
    | AwaitLast   // rank 0, last bucket posted
    | First       // reading the first message
    | AwaitFirst  // first READ under way
    | Forward     // about to post the current bucket to the next rank
    | NextMeta    // reading the next message
    | Yielding    // handing out the tensors of the current bucket
    | AwaitRead   // next rank is done with the current bucket; next READ under way
    | Finished
    | Raised      // `view(dtype)` raised on an entry that does not start at a multiple of its item size
    | Failed      // an assertion or a lookup failed

  /** A remote READ into the buffer in the receiving role; `left` are the bytes still to land. */
  datatype Reading =
    | Idle
    | InFlight(key: Key, rank: nat, buf: nat, left: set<nat>)
    | Landed

  datatype Node = Node(
    pc: Pc,
    bufs: seq<seq<Byte>>,      // the two buffers
    send: nat,                 // which of them is `send_buf`; the other is `recv_buf`
    outstanding: Option<Key>,  // `readable_op`, posted and not yet waited for
    reading: Reading,          // `read_op`
    metadata: Dict,
    nextMetadata: Dict,
    next: nat,                 // rank 0: next weight; others: next entry to yield
    offset: nat,               // rank 0: fill of `send_buf`
    meta: BucketMeta,          // rank 0: `bucket_meta`
    inbox: seq<Dict>,          // messages from the previous agent
    notifs: seq<Key>,          // notifications from the next agent
    yielded: seq<Weight>,
    // history: weights in the open bucket, messages posted, READs begun and landed, current bucket
    filled: Bucket,
    posted: nat,
    begun: nat,
    landed: nat,
    cur: nat)

  type State = seq<Node>

  datatype Config = Config(ws: seq<Weight>, size: nat, last: nat) {
    ghost predicate Valid() {
      last >= 1 && AllFit(ws, size)
    }

    function Buckets(): (r: seq<Bucket>)
      ensures r != []
    {
      Pack(ws, size, [])
    }
  }

  datatype Step =
    | Fill
    | SenderAwait
    | SenderPost(key: Key)
    | FinalAwait
    | Receive(i: nat)
    | CopyByte(i: nat, k: nat)
    | Land(i: nat)
    | Swap(i: nat)
    | Relay(i: nat, key: Key)
    | Yield(i: nat)
    | AwaitNext(i: nat)

  predicate WellShaped(cfg: Config, s: State) {
    && |s| == cfg.last + 1
    && forall i :: 0 <= i < |s| ==>
         |s[i].bufs| == 2 && s[i].send < 2 && |s[i].bufs[0]| == cfg.size && |s[i].bufs[1]| == cfg.size
  }

  function StartNode(pc: Pc, bufs: seq<seq<Byte>>): Node {
    Node(pc, bufs, 0, None, Idle, map[], map[], 0, 0, [], [], [], [], [], 0, 0, 0, 0)
  }

  ghost predicate Init(cfg: Config, s: State) {
    && WellShaped(cfg, s)
    && forall i :: 0 <= i < |s| ==> s[i] == StartNode(if i == 0 then Filling else First, s[i].bufs)
  }

  predicate NextFits(cfg: Config, n: Node) {
    n.next < |cfg.ws| && n.offset + |cfg.ws[n.next].bytes| <= cfg.size
  }

  predicate Enabled(cfg: Config, s: State, step: Step)
    requires WellShaped(cfg, s) && cfg.last >= 1
  {
    match step
    case Fill => s[0].pc.Filling? && NextFits(cfg, s[0])
    case SenderAwait => s[0].pc.Filling? && !NextFits(cfg, s[0]) && s[0].outstanding.Some? && s[0].notifs != []
    case SenderPost(_) => s[0].pc.Filling? && !NextFits(cfg, s[0]) && s[0].outstanding.None?
    case FinalAwait => s[0].pc.AwaitLast? && s[0].outstanding.Some? && s[0].notifs != []
    case Receive(i) => 1 <= i <= cfg.last && (s[i].pc.First? || s[i].pc.NextMeta?) && s[i].inbox != []
    case CopyByte(i, k) =>
      && 1 <= i <= cfg.last && s[i].reading.InFlight? && k in s[i].reading.left
      && k < cfg.size && s[i].reading.rank <= cfg.last && s[i].reading.buf < 2
    case Land(i) => 1 <= i <= cfg.last && s[i].reading.InFlight? && s[i].reading.left == {}
    case Swap(i) => 1 <= i <= cfg.last && (s[i].pc.AwaitFirst? || s[i].pc.AwaitRead?) && s[i].reading.Landed?
    case Relay(i, _) => 1 <= i <= cfg.last && s[i].pc.Forward?
    case Yield(i) =>
      && 1 <= i <= cfg.last && s[i].pc.Yielding?
      && IsBucketDict(s[i].metadata) && s[i].next < |MetaIn(s[i].metadata)|
    case AwaitNext(i) =>
      && 1 <= i <= cfg.last && s[i].pc.Yielding?
      && IsBucketDict(s[i].metadata) && s[i].next >= |MetaIn(s[i].metadata)|
      && (s[i].outstanding.Some? ==> s[i].notifs != [])
  }

  /** `wait_for_complete` of a ReadableOperation: the notification must carry its key. */
  function TakeNotification(n: Node): (r: Node)
    requires n.outstanding.Some? && n.notifs != []
    ensures n.notifs[0] != n.outstanding.value ==> r.pc.Failed? && r.outstanding.Some?
  {
    if n.notifs[0] == n.outstanding.value then n.(notifs := n.notifs[1..], outstanding := None)
    else n.(pc := Failed)
  }

  function Post(n: Node, key: Key): Node {
    n.(outstanding := Some(key), posted := n.posted + 1)
  }

  function Deliver(n: Node, message: Dict): Node {
    n.(inbox := n.inbox + [message])
  }

  function DoFill(cfg: Config, n: Node): Node
    requires NextFits(cfg, n) && |n.bufs| == 2 && n.send < 2 && |n.bufs[n.send]| == cfg.size
  {
    var w := cfg.ws[n.next];
    n.(bufs := n.bufs[n.send := Overwrite(n.bufs[n.send], n.offset, w.bytes)],
       meta := Put(n.meta, MetaAt(w, n.offset)),
       offset := n.offset + |w.bytes|,
       next := n.next + 1,
       filled := n.filled + [w])
  }

  /** Rank 0 after posting: it either was the last bucket, or the buffers swap, and then the
      weight that did not fit must fit in the empty one. */
  function DoSenderPost(cfg: Config, n: Node, key: Key): Node {
    if n.next >= |cfg.ws| then Post(n, key).(pc := AwaitLast)
    else
      Post(n, key).(pc := if |cfg.ws[n.next].bytes| > cfg.size then Failed else Filling,
                    send := if n.send == 0 then 1 else 0, meta := [], offset := 0, filled := [])
  }

  function Offsets(size: nat): (r: set<nat>)
    ensures forall k: nat :: k in r <==> k < size
    ensures |r| == size
  {
    if size == 0 then {} else Offsets(size - 1) + {size - 1}
  }

  function DoReceive(cfg: Config, n: Node): Node
    requires n.inbox != []
  {
    var message := n.inbox[0];
    if IsMessage(message) then
      n.(pc := if n.pc.First? then AwaitFirst else Yielding,
         inbox := n.inbox[1..],
         nextMetadata := Strip(message),
         next := 0,
         reading := InFlight(message["notify_key"].key, message["remote_descs"].rank,
                             message["remote_descs"].buf, Offsets(cfg.size)),
         begun := n.begun + 1)
    else n.(pc := Failed)
  }

  function DoSwap(n: Node): Node {
    n.(pc := Forward, send := if n.send == 0 then 1 else 0, metadata := n.nextMetadata, reading := Idle,
       cur := if n.pc.AwaitFirst? then 0 else n.cur + 1)
  }

  function AfterForward(n: Node): Node {
    if IsBucketDict(n.metadata) then n.(pc := if LastIn(n.metadata) then Yielding else NextMeta, next := 0)
    else n.(pc := Failed)
  }

  function DoYield(n: Node): Node
    requires IsBucketDict(n.metadata) && n.next < |MetaIn(n.metadata)| && |n.bufs| == 2 && n.send < 2
  {
    var m := MetaIn(n.metadata)[n.next];
    if m.End() > |n.bufs[n.send]| then n.(pc := Failed)
    else if !m.Aligned() then n.(pc := Raised)
    else n.(yielded := n.yielded + [View(m, n.bufs[n.send])], next := n.next + 1)
  }

  function DoAwaitNext(n: Node): Node
    requires IsBucketDict(n.metadata) && (n.outstanding.Some? ==> n.notifs != [])
  {
    var m := if n.outstanding.Some? then TakeNotification(n) else n;
    if m.pc.Failed? then m else m.(pc := if LastIn(n.metadata) then Finished else AwaitRead)
  }

  function DoCopy(n: Node, k: nat, b: Byte): Node
    requires n.reading.InFlight? && |n.bufs| == 2 && n.send < 2 && k < |n.bufs[1 - n.send]|
  {
    n.(bufs := n.bufs[1 - n.send := Overwrite(n.bufs[1 - n.send], k, [b])],
       reading := n.reading.(left := n.reading.left - {k}))
  }

  function Apply(cfg: Config, s: State, step: Step): State
    requires WellShaped(cfg, s) && cfg.last >= 1 && Enabled(cfg, s, step)
  {
    match step
    case Fill => s[0 := DoFill(cfg, s[0])]
    case SenderAwait => s[0 := TakeNotification(s[0])]
    case SenderPost(key) =>
      var message := PostMessage(key, 0, s[0].send, BucketDict(s[0].meta, s[0].next >= |cfg.ws|));
      s[0 := DoSenderPost(cfg, s[0], key)][1 := Deliver(s[1], message)]
    case FinalAwait =>
      var n := TakeNotification(s[0]);
      s[0 := if n.pc.Failed? then n else n.(pc := Finished)]
    case Receive(i) => s[i := DoReceive(cfg, s[i])]
    case CopyByte(i, k) =>
      s[i := DoCopy(s[i], k, s[s[i].reading.rank].bufs[s[i].reading.buf][k])]
    case Land(i) =>
      s[i - 1 := s[i - 1].(notifs := s[i - 1].notifs + [s[i].reading.key])]
       [i := s[i].(reading := Landed, landed := s[i].landed + 1)]
    case Swap(i) => s[i := DoSwap(s[i])]
    case Relay(i, key) =>
      if i < cfg.last then
        var message := PostMessage(key, i, s[i].send, s[i].metadata);
        s[i := AfterForward(Post(s[i], key))][i + 1 := Deliver(s[i + 1], message)]
      else
        s[i := AfterForward(s[i])]
    case Yield(i) => s[i := DoYield(s[i])]
    case AwaitNext(i) => s[i := DoAwaitNext(s[i])]
  }

  /** A run: every state follows from the one before by an enabled step. */
  ghost predicate Run(cfg: Config, states: seq<State>, steps: seq<Step>)
    requires cfg.last >= 1
  {
    && |states| == |steps| + 1
    && Init(cfg, states[0])
    && forall t :: 0 <= t < |steps| ==>
         WellShaped(cfg, states[t]) && Enabled(cfg, states[t], steps[t])
         && states[t + 1] == Apply(cfg, states[t], steps[t])
  }

  ghost predicate AllFinished(s: State) {
    forall i :: 0 <= i < |s| ==> s[i].pc.Finished?
  }
}
