/** The inductive invariant of the NIXL chain: what one rank knows, what two neighbours agree on,
    and that every step keeps both. */
module NixlInvariant {
  import opened Basics
  import opened Packing
  import opened Buckets
  import opened Filling
  import opened Handing
  import opened Nixl

  /** The buffer rank i uses for bucket b: the two alternate, and a receiver's first bucket
      lands in its second buffer. */
  function BufOf(i: nat, b: nat): nat {
    if i == 0 then b % 2 else (b + 1) % 2
  }

  ghost function DictOf(cfg: Config, b: nat): Dict
    requires b < |cfg.Buckets()|
  {
    BucketDict(MetaOf(cfg.Buckets()[b]), b == |cfg.Buckets()| - 1)
  }

  ghost function Confirmed(n: Node): int {
    n.posted - (if n.outstanding.Some? then 1 else 0)
  }

  ghost predicate Shaped(cfg: Config, n: Node) {
    |n.bufs| == 2 && n.send < 2 && |n.bufs[0]| == cfg.size && |n.bufs[1]| == cfg.size
  }

  ghost predicate Common(cfg: Config, i: nat, n: Node) {
    var bs := cfg.Buckets();
    && Shaped(cfg, n) && !n.pc.Failed?
    && n.posted <= |bs| && n.begun <= |bs|
    && (n.outstanding.Some? ==>
          0 < n.posted && Holds(n.bufs[BufOf(i, n.posted - 1)], bs[n.posted - 1]))
    && (i == cfg.last ==> n.posted == 0 && n.outstanding.None? && n.notifs == [])
  }

  ghost predicate SenderInv(cfg: Config, n: Node)
    requires Common(cfg, 0, n)
  {
    var bs := cfg.Buckets();
    && n.reading.Idle? && n.begun == 0 && n.landed == 0 && n.inbox == [] && n.yielded == []
    && (n.pc.Filling? || n.pc.AwaitLast? || n.pc.Finished?)
    && (n.pc.Filling? ==>
          n.posted < |bs| && n.send == n.posted % 2
          && FillingInv(cfg.ws, cfg.size, n.posted, n.next, n.filled, n.offset, n.meta, n.bufs[n.send]))
    && (!n.pc.Filling? ==> n.posted == |bs| && (n.pc.AwaitLast? <==> n.outstanding.Some?))
  }

  ghost predicate ReadInv(cfg: Config, i: nat, n: Node)
    requires i >= 1 && Common(cfg, i, n)
  {
    var bs := cfg.Buckets();
    match n.reading
    case Idle => n.begun == n.landed
    case Landed => n.begun == n.landed && n.begun > 0 && Holds(n.bufs[1 - n.send], bs[n.begun - 1])
    case InFlight(_, rank, buf, left) =>
      && n.begun == n.landed + 1
      && rank == i - 1 && buf == BufOf(i - 1, n.begun - 1)
      && (forall k :: k in left ==> k < cfg.size)
      && Total(bs[n.begun - 1]) <= cfg.size
      && forall k :: 0 <= k < Total(bs[n.begun - 1]) && k !in left ==>
           n.bufs[1 - n.send][k] == Bytes(bs[n.begun - 1])[k]
  }

  /** A receiver that holds a current bucket. */
  ghost predicate CurrentInv(cfg: Config, i: nat, n: Node)
    requires i >= 1 && Common(cfg, i, n)
  {
    var bs := cfg.Buckets();
    && n.cur < |bs| && n.send == BufOf(i, n.cur) && Holds(n.bufs[n.send], bs[n.cur])
    && n.metadata == DictOf(cfg, n.cur)
    && (n.pc.Forward? || n.pc.NextMeta? || InBucket(n) || n.pc.AwaitRead? || n.pc.Finished?)
    && (n.pc.NextMeta? || n.pc.AwaitRead? ==> n.cur + 1 < |bs|)
    && (n.pc.Finished? ==> n.cur + 1 == |bs|)
    && (if ReadingAhead(bs, n) then n.begun == n.cur + 2 && n.nextMetadata == DictOf(cfg, n.cur + 1)
        else n.begun == n.cur + 1)
    && (n.reading.Idle? <==> !ReadingAhead(bs, n))
    && n.posted == (if i == cfg.last then 0 else if n.pc.Forward? then n.cur else n.cur + 1)
    && (n.outstanding.Some? <==> i != cfg.last && (n.pc.NextMeta? || InBucket(n)))
    && HandedOut(n, |MetaOf(bs[n.cur])|) <= |MetaOf(bs[n.cur])|
    && Handed(bs, n.yielded, n.cur, HandedOut(n, |MetaOf(bs[n.cur])|))
    && (n.pc.Raised? ==> n.next < |MetaOf(bs[n.cur])| && !CanView(bs, n.cur, n.next))
  }

  /** The rank is handing out the tensors of its current bucket, or could not go on doing so. */
  ghost predicate InBucket(n: Node) {
    n.pc.Yielding? || n.pc.Raised?
  }

  /** The READ of the bucket after the current one has begun. */
  ghost predicate ReadingAhead(bs: seq<Bucket>, n: Node) {
    n.pc.AwaitRead? || (InBucket(n) && n.cur + 1 < |bs|)
  }

  /** How many of the `entries` tensors of the current bucket have been handed out. */
  ghost function HandedOut(n: Node, entries: nat): nat {
    if n.pc.Forward? || n.pc.NextMeta? then 0 else if InBucket(n) then n.next else entries
  }

  /** A receiver that has no bucket yet. */
  ghost predicate StartingInv(cfg: Config, n: Node) {
    && n.posted == 0 && n.outstanding.None? && n.send == 0 && n.yielded == []
    && (n.reading.Idle? <==> n.pc.First?)
    && n.begun == (if n.pc.First? then 0 else 1)
    && (n.pc.AwaitFirst? ==> n.nextMetadata == DictOf(cfg, 0))
  }

  ghost predicate ReceiverInv(cfg: Config, i: nat, n: Node)
    requires i >= 1 && Common(cfg, i, n)
  {
    && ReadInv(cfg, i, n)
    && if n.pc.First? || n.pc.AwaitFirst? then StartingInv(cfg, n) else CurrentInv(cfg, i, n)
  }

  ghost predicate NodeInv(cfg: Config, i: nat, n: Node) {
    && Common(cfg, i, n)
    && if i == 0 then SenderInv(cfg, n) else ReceiverInv(cfg, i, n)
  }

  /** What rank i (a) and rank i + 1 (b) agree on. */
  ghost predicate LinkInv(cfg: Config, i: nat, a: Node, b: Node) {
    var bs := cfg.Buckets();
    && Confirmed(a) <= b.landed <= b.begun <= a.posted <= |bs|
    && |b.inbox| == a.posted - b.begun
    && (b.inbox != [] ==>
          a.outstanding.Some? && a.posted > 0
          && b.inbox[0] == PostMessage(a.outstanding.value, i, BufOf(i, a.posted - 1), DictOf(cfg, a.posted - 1)))
    && |a.notifs| == b.landed - Confirmed(a)
    && (a.notifs != [] ==> a.outstanding.Some? && a.notifs[0] == a.outstanding.value)
    && (b.reading.InFlight? ==>
          a.outstanding.Some? && b.reading.key == a.outstanding.value && b.begun == a.posted
          && b.landed < b.begun)
  }

  /** Every element is good and every two neighbours are linked. */
  ghost predicate Chain<N>(s: seq<N>, good: (nat, N) -> bool, linked: (nat, N, N) -> bool) {
    && (forall k: nat :: k < |s| ==> good(k, s[k]))
    && (forall k: nat :: k + 1 < |s| ==> linked(k, s[k], s[k + 1]))
  }

  ghost function Good(cfg: Config): (nat, Node) -> bool {
    (i: nat, n: Node) => NodeInv(cfg, i, n)
  }

  ghost function Linked(cfg: Config): (nat, Node, Node) -> bool {
    (i: nat, a: Node, b: Node) => LinkInv(cfg, i, a, b)
  }

  ghost predicate Inv(cfg: Config, s: State) {
    |s| == cfg.last + 1 && Chain(s, Good(cfg), Linked(cfg))
  }

  lemma InvWellShaped(cfg: Config, s: State)
    requires Inv(cfg, s)
    ensures WellShaped(cfg, s)
  {
    forall i | 0 <= i < |s|
      ensures |s[i].bufs| == 2 && s[i].send < 2 && |s[i].bufs[0]| == cfg.size && |s[i].bufs[1]| == cfg.size
    {
      At(cfg, s, i);
    }
  }

  lemma BucketsFit(cfg: Config, b: nat)
    requires cfg.Valid() && b < |cfg.Buckets()|
    ensures Total(cfg.Buckets()[b]) <= cfg.size
  {
    PackFits(cfg.ws, cfg.size, []);
  }

  lemma ChainAt<N>(s: seq<N>, i: nat, good: (nat, N) -> bool, linked: (nat, N, N) -> bool)
    requires Chain(s, good, linked) && i < |s|
    ensures good(i, s[i])
    ensures i > 0 ==> linked(i - 1, s[i - 1], s[i])
    ensures i + 1 < |s| ==> linked(i, s[i], s[i + 1])
  {
    var j := i - 1;
    assert i > 0 ==> linked(j, s[j], s[j + 1]);
  }

  /** Changing one element of a chain: it must be good and linked to its neighbours. */
  lemma ChainUpdate<N>(s: seq<N>, i: nat, n: N, good: (nat, N) -> bool, linked: (nat, N, N) -> bool)
    requires Chain(s, good, linked) && i < |s|
    requires good(i, n)
    requires i > 0 ==> linked(i - 1, s[i - 1], n)
    requires i + 1 < |s| ==> linked(i, n, s[i + 1])
    ensures Chain(s[i := n], good, linked)
  {
  }

  /** Changing two neighbours of a chain. */
  lemma ChainUpdateTwo<N>(s: seq<N>, i: nat, a: N, b: N, good: (nat, N) -> bool, linked: (nat, N, N) -> bool)
    requires Chain(s, good, linked) && i + 1 < |s|
    requires good(i, a) && good(i + 1, b) && linked(i, a, b)
    requires i > 0 ==> linked(i - 1, s[i - 1], a)
    requires i + 2 < |s| ==> linked(i + 1, b, s[i + 2])
    ensures Chain(s[i := a][i + 1 := b], good, linked)
  {
  }

  lemma At(cfg: Config, s: State, i: nat)
    requires Inv(cfg, s) && i <= cfg.last
    ensures NodeInv(cfg, i, s[i])
    ensures i > 0 ==> LinkInv(cfg, i - 1, s[i - 1], s[i])
    ensures i < cfg.last ==> LinkInv(cfg, i, s[i], s[i + 1])
  {
    hide NodeInv, LinkInv;
    ChainAt(s, i, Good(cfg), Linked(cfg));
  }

  lemma UpdateOne(cfg: Config, s: State, i: nat, n: Node)
    requires Inv(cfg, s) && i <= cfg.last
    requires NodeInv(cfg, i, n)
    requires i > 0 ==> LinkInv(cfg, i - 1, s[i - 1], n)
    requires i < cfg.last ==> LinkInv(cfg, i, n, s[i + 1])
    ensures Inv(cfg, s[i := n])
  {
    hide NodeInv, LinkInv;
    ChainUpdate(s, i, n, Good(cfg), Linked(cfg));
  }

  lemma UpdateTwo(cfg: Config, s: State, i: nat, a: Node, b: Node)
    requires Inv(cfg, s) && i < cfg.last
    requires NodeInv(cfg, i, a) && NodeInv(cfg, i + 1, b)
    requires LinkInv(cfg, i, a, b)
    requires i > 0 ==> LinkInv(cfg, i - 1, s[i - 1], a)
    requires i + 1 < cfg.last ==> LinkInv(cfg, i + 1, b, s[i + 2])
    ensures Inv(cfg, s[i := a][i + 1 := b])
  {
    hide NodeInv, LinkInv;
    ChainUpdateTwo(s, i, a, b, Good(cfg), Linked(cfg));
  }

  lemma InitInv(cfg: Config, s: State)
    requires cfg.Valid() && Init(cfg, s)
    ensures Inv(cfg, s)
  {
    assert cfg.ws[0..] == cfg.ws;
    assert cfg.Buckets()[0..] == cfg.Buckets();
    forall i: nat | i < |s| ensures Good(cfg)(i, s[i]) {
      assert s[i] == StartNode(if i == 0 then Filling else First, s[i].bufs);
    }
    forall i: nat | i + 1 < |s| ensures Linked(cfg)(i, s[i], s[i + 1]) {
      assert s[i] == StartNode(if i == 0 then Filling else First, s[i].bufs);
      assert s[i + 1] == StartNode(First, s[i + 1].bufs);
    }
  }

  // ---- rank 0 ----

  lemma FillNode(cfg: Config, n: Node)
    requires cfg.Valid() && NodeInv(cfg, 0, n) && n.pc.Filling? && NextFits(cfg, n)
    ensures NodeInv(cfg, 0, DoFill(cfg, n))
  {
    hide FillingInv, Holds, Put, Overwrite, MetaAt, NBytes, Config.Buckets;
    FillKeeps(cfg.ws, cfg.size, n.posted, n.next, n.filled, n.offset, n.meta, n.bufs[n.send]);
    var m := DoFill(cfg, n);
    if n.outstanding.Some? {
      assert BufOf(0, n.posted - 1) == 1 - n.send && m.bufs[1 - n.send] == n.bufs[1 - n.send];
    }
    assert Common(cfg, 0, m);
  }

  /** Taking the notification one waits for: it carries the right key. */
  lemma TakeNotificationLink(cfg: Config, i: nat, a: Node, b: Node)
    requires LinkInv(cfg, i, a, b) && a.outstanding.Some? && a.notifs != []
    ensures TakeNotification(a) == a.(notifs := [], outstanding := None)
    ensures LinkInv(cfg, i, TakeNotification(a), b)
  {
    assert a.notifs[1..] == [];
  }

  lemma SenderTakes(cfg: Config, n: Node)
    requires cfg.Valid() && NodeInv(cfg, 0, n) && n.outstanding.Some?
    ensures var m := n.(notifs := [], outstanding := None);
            (n.pc.Filling? ==> NodeInv(cfg, 0, m))
            && (n.pc.AwaitLast? ==> NodeInv(cfg, 0, m.(pc := Finished)))
  {
  }

  /** When rank 0 posts, the bucket it posts is the next bucket of the packing. */
  lemma SenderPostNode(cfg: Config, n: Node, key: Key)
    requires cfg.Valid() && NodeInv(cfg, 0, n) && n.pc.Filling? && !NextFits(cfg, n) && n.outstanding.None?
    ensures NodeInv(cfg, 0, DoSenderPost(cfg, n, key))
    ensures n.posted < |cfg.Buckets()|
    ensures PostMessage(key, 0, n.send, BucketDict(n.meta, n.next >= |cfg.ws|))
            == PostMessage(key, 0, BufOf(0, n.posted), DictOf(cfg, n.posted))
  {
    hide Holds, Pack, MetaOf, PostMessage, BucketDict, NBytes;
    assert n.meta == MetaOf(n.filled) && Holds(n.bufs[n.send], n.filled) && n.next <= |cfg.ws|;
    ClosesBucket(cfg.ws, cfg.size, n.posted, n.next, n.filled, n.offset, n.meta, n.bufs[n.send],
                 n.bufs[1 - n.send]);
    hide FillingInv;
    var m := DoSenderPost(cfg, n, key);
    assert Common(cfg, 0, m);
  }

  lemma PostLink(cfg: Config, i: nat, a: Node, b: Node, key: Key, a': Node)
    requires LinkInv(cfg, i, a, b) && a.outstanding.None? && a.posted < |cfg.Buckets()|
    requires a'.posted == a.posted + 1 && a'.outstanding == Some(key) && a'.notifs == a.notifs
    ensures LinkInv(cfg, i, a', Deliver(b, PostMessage(key, i, BufOf(i, a.posted), DictOf(cfg, a.posted))))
  {
  }

  /** What a receiver knows about its buckets survives a message, a notification, or bytes
      landing in the buffer it is not sending from. */
  lemma PhaseFrame(cfg: Config, i: nat, n: Node, m: Node)
    requires 1 <= i && NodeInv(cfg, i, n) && Common(cfg, i, m)
    requires m == n.(bufs := m.bufs, reading := m.reading, landed := m.landed, inbox := m.inbox, notifs := m.notifs)
    requires m.bufs[m.send] == n.bufs[n.send] && (m.reading.Idle? <==> n.reading.Idle?)
    requires ReadInv(cfg, i, m)
    ensures NodeInv(cfg, i, m)
  {
    hide Common, ReadInv, Holds, Handed, Start, DictOf;
  }

  lemma DeliverNode(cfg: Config, i: nat, n: Node, message: Dict)
    requires i >= 1 && NodeInv(cfg, i, n)
    ensures NodeInv(cfg, i, Deliver(n, message))
  {
    hide CurrentInv, StartingInv, Holds, DictOf;
    assert Common(cfg, i, Deliver(n, message));
    assert ReadInv(cfg, i, Deliver(n, message));
    PhaseFrame(cfg, i, n, Deliver(n, message));
  }

  // ---- ranks 1..last ----

  lemma ReceiveNode(cfg: Config, i: nat, a: Node, n: Node)
    requires cfg.Valid() && 1 <= i && NodeInv(cfg, i, n) && LinkInv(cfg, i - 1, a, n)
    requires (n.pc.First? || n.pc.NextMeta?) && n.inbox != []
    ensures NodeInv(cfg, i, DoReceive(cfg, n))
  {
    hide Holds, Handed, Start, Bytes, Total, MetaOf, Pack, DictOf, IsMessage, PostMessage, Strip, Confirmed;
    ReceiveMessage(cfg, i, a, n);
    hide LinkInv;
    var m := DoReceive(cfg, n);
    assert Common(cfg, i, m);
    assert ReadInv(cfg, i, m);
    if n.pc.First? {
      assert StartingInv(cfg, m);
    } else {
      assert CurrentInv(cfg, i, m);
    }
  }

  lemma ReceiveLink(cfg: Config, i: nat, a: Node, n: Node)
    requires cfg.Valid() && 1 <= i && LinkInv(cfg, i - 1, a, n) && n.begun == n.landed && n.inbox != []
    ensures LinkInv(cfg, i - 1, a, DoReceive(cfg, n))
  {
    ReceiveMessage(cfg, i, a, n);
    hide IsMessage, PostMessage, Strip, DictOf;
    assert n.inbox[1..] == [];
  }

  lemma IdleCounts(cfg: Config, i: nat, n: Node)
    requires 1 <= i && NodeInv(cfg, i, n) && (n.pc.First? || n.pc.NextMeta?)
    ensures n.begun == n.landed
  {
    hide Holds, Handed, Start, MetaOf, DictOf, Pack;
  }

  lemma ReceiveMessage(cfg: Config, i: nat, a: Node, n: Node)
    requires cfg.Valid() && 1 <= i && LinkInv(cfg, i - 1, a, n) && n.inbox != []
    requires n.begun == n.landed
    ensures n.begun == a.posted - 1 && a.outstanding.Some?
    ensures Total(cfg.Buckets()[n.begun]) <= cfg.size
    ensures var message := n.inbox[0];
            IsMessage(message) && Strip(message) == DictOf(cfg, n.begun)
            && message["notify_key"].key == a.outstanding.value
            && message["remote_descs"] == DescField(i - 1, BufOf(i - 1, n.begun))
  {
    hide Pack, Total, MetaOf, BufOf, Strip;
    var b := a.posted - 1;
    BucketsFit(cfg, b);
    StripBucketDict(MetaOf(cfg.Buckets()[b]), b == |cfg.Buckets()| - 1);
    RelayCarriesOwnKey(a.outstanding.value, i - 1, BufOf(i - 1, b), DictOf(cfg, b));
  }

  /** A rank that waits for the next one to read bucket `posted - 1` keeps that bucket in its
      sending buffer, which an incoming READ does not touch. */
  lemma PostedInSendBuf(cfg: Config, i: nat, n: Node)
    requires i >= 1 && NodeInv(cfg, i, n) && n.outstanding.Some?
    ensures n.send == BufOf(i, n.posted - 1)
  {
    hide Holds, Handed, Start, DictOf, FillingInv;
  }

  /** The buffer an incoming READ copies from holds the bucket the READ is for. */
  lemma SourceHolds(cfg: Config, i: nat, a: Node, n: Node)
    requires 1 <= i && NodeInv(cfg, i, n) && NodeInv(cfg, i - 1, a) && LinkInv(cfg, i - 1, a, n)
    requires n.reading.InFlight?
    ensures Shaped(cfg, n) && 0 < n.begun <= |cfg.Buckets()|
    ensures n.reading.rank == i - 1 && n.reading.buf < 2 && |a.bufs| == 2
    ensures |a.bufs[n.reading.buf]| == cfg.size
    ensures Holds(a.bufs[n.reading.buf], cfg.Buckets()[n.begun - 1])
  {
    hide Holds, Handed, Start, DictOf, FillingInv;
  }

  lemma CopyNode(cfg: Config, i: nat, n: Node, k: nat, source: seq<Byte>, m: Node)
    requires Shaped(cfg, n) && n.reading.InFlight? && k in n.reading.left && k < cfg.size
    requires 0 < n.begun <= |cfg.Buckets()| && |source| == cfg.size && m == DoCopy(n, k, source[k])
    requires Holds(source, cfg.Buckets()[n.begun - 1])
    requires 1 <= i && NodeInv(cfg, i, n)
    ensures NodeInv(cfg, i, m)
  {
    hide StartingInv, CurrentInv, Holds, Bytes, Total, Pack, Handed, Start, DictOf, MetaOf;
    if n.outstanding.Some? {
      PostedInSendBuf(cfg, i, n);
    }
    CopyCommon(cfg, i, n, k, source[k]);
    hide Common;
    CopyRead(cfg, i, n, k, source);
    hide ReadInv;
    PhaseFrame(cfg, i, n, m);
  }

  lemma CopyCommon(cfg: Config, i: nat, n: Node, k: nat, byte: Byte)
    requires Common(cfg, i, n) && n.reading.InFlight? && k < cfg.size
    requires n.outstanding.Some? ==> n.send == BufOf(i, n.posted - 1)
    ensures Common(cfg, i, DoCopy(n, k, byte))
    ensures DoCopy(n, k, byte).bufs[n.send] == n.bufs[n.send]
  {
    hide Holds, Overwrite, Pack;
  }

  lemma CopyRead(cfg: Config, i: nat, n: Node, k: nat, source: seq<Byte>)
    requires 1 <= i && Common(cfg, i, n) && ReadInv(cfg, i, n) && n.reading.InFlight?
    requires k in n.reading.left && k < cfg.size && n.begun > 0 && |source| == cfg.size
    requires Holds(source, cfg.Buckets()[n.begun - 1])
    requires Common(cfg, i, DoCopy(n, k, source[k]))
    ensures ReadInv(cfg, i, DoCopy(n, k, source[k]))
  {
    hide Bytes, Total, Pack;
    var bucket := cfg.Buckets()[n.begun - 1];
    var m := DoCopy(n, k, source[k]);
    forall j | 0 <= j < Total(bucket) && j !in m.reading.left
      ensures m.bufs[1 - m.send][j] == Bytes(bucket)[j]
    {
      if j != k {
        assert j !in n.reading.left;
      }
    }
  }

  lemma CopyLinks(cfg: Config, i: nat, a: Node, b: Node, k: nat, byte: Byte)
    requires LinkInv(cfg, i, a, b)
    ensures b.reading.InFlight? && |b.bufs| == 2 && b.send < 2 && k < |b.bufs[1 - b.send]| ==>
              LinkInv(cfg, i, a, DoCopy(b, k, byte))
    ensures a.reading.InFlight? && |a.bufs| == 2 && a.send < 2 && k < |a.bufs[1 - a.send]| ==>
              LinkInv(cfg, i, DoCopy(a, k, byte), b)
  {
    hide Overwrite, PostMessage, DictOf, Pack;
  }

  /** A READ with nothing left to land has copied the whole bucket. */
  lemma LandNode(cfg: Config, i: nat, n: Node)
    requires cfg.Valid() && 1 <= i && NodeInv(cfg, i, n) && n.reading.InFlight? && n.reading.left == {}
    ensures NodeInv(cfg, i, n.(reading := Landed, landed := n.landed + 1))
  {
    hide CurrentInv, StartingInv, Bytes, Total, Pack;
    LandHolds(cfg, i, n);
    hide Holds;
    var m := n.(reading := Landed, landed := n.landed + 1);
    assert Common(cfg, i, m);
    assert ReadInv(cfg, i, m);
    PhaseFrame(cfg, i, n, m);
  }

  lemma LandHolds(cfg: Config, i: nat, n: Node)
    requires 1 <= i && Common(cfg, i, n) && ReadInv(cfg, i, n) && n.reading.InFlight? && n.reading.left == {}
    ensures n.begun > 0 && Holds(n.bufs[1 - n.send], cfg.Buckets()[n.begun - 1])
  {
    hide Bytes, Total, Pack;
    var bytes := Bytes(cfg.Buckets()[n.begun - 1]);
    var buf := n.bufs[1 - n.send];
    forall k | 0 <= k < |bytes| ensures bytes[k] == buf[k] {
      assert k !in n.reading.left;
    }
    assert bytes == buf[..|bytes|];
  }

  lemma NotifyNode(cfg: Config, i: nat, n: Node, key: Key)
    requires i < cfg.last && NodeInv(cfg, i, n)
    ensures NodeInv(cfg, i, n.(notifs := n.notifs + [key]))
  {
    hide CurrentInv, StartingInv, Holds, FillingInv, DictOf, Pack;
    var m := n.(notifs := n.notifs + [key]);
    assert Common(cfg, i, m);
    if i > 0 {
      assert ReadInv(cfg, i, m);
      PhaseFrame(cfg, i, n, m);
    }
  }

  lemma LandLink(cfg: Config, i: nat, a: Node, b: Node)
    requires LinkInv(cfg, i, a, b) && b.reading.InFlight?
    ensures LinkInv(cfg, i, a.(notifs := a.notifs + [b.reading.key]), b.(reading := Landed, landed := b.landed + 1))
  {
  }

  lemma SwapNode(cfg: Config, i: nat, n: Node)
    requires cfg.Valid() && 1 <= i && NodeInv(cfg, i, n) && (n.pc.AwaitFirst? || n.pc.AwaitRead?) && n.reading.Landed?
    ensures NodeInv(cfg, i, DoSwap(n))
  {
    hide Holds, Handed, Start, MetaOf, DictOf, Pack;
    var m, bs := DoSwap(n), cfg.Buckets();
    if n.pc.AwaitRead? {
      HandedBucket(bs, n.yielded, n.cur);
    } else {
      HandedNothing(bs);
    }
    assert m.send == 1 - n.send;
    assert m.send == BufOf(i, m.cur);
    assert Common(cfg, i, m);
    assert ReadInv(cfg, i, m);
    assert CurrentInv(cfg, i, m);
  }

  lemma RelayNode(cfg: Config, i: nat, n: Node, key: Key)
    requires cfg.Valid() && 1 <= i && NodeInv(cfg, i, n) && n.pc.Forward?
    ensures i < cfg.last ==> NodeInv(cfg, i, AfterForward(Post(n, key)))
    ensures i < cfg.last ==>
              n.posted < |cfg.Buckets()| && n.outstanding.None?
              && n.send == BufOf(i, n.posted) && n.metadata == DictOf(cfg, n.posted)
    ensures i == cfg.last ==> NodeInv(cfg, i, AfterForward(n))
  {
    hide Holds, Handed, Start, FillingInv, MetaOf;
  }

  lemma YieldNode(cfg: Config, i: nat, n: Node)
    requires cfg.Valid() && 1 <= i && NodeInv(cfg, i, n) && n.pc.Yielding?
    requires IsBucketDict(n.metadata) && n.next < |MetaIn(n.metadata)|
    ensures NodeInv(cfg, i, DoYield(n))
  {
    hide Holds, Handed, Start, MetaOf, Received, Delivered, Pack, View, Bytes, Total;
    var m, bs := DoYield(n), cfg.Buckets();
    YieldsNext(bs, n.cur, n.next, n.yielded, n.bufs[n.send]);
    YieldCommon(cfg, i, n, m);
    hide Common, ReadInv;
    assert CurrentInv(cfg, i, m);
  }

  /** Handing out a tensor changes neither buffers nor counters. */
  lemma YieldCommon(cfg: Config, i: nat, n: Node, m: Node)
    requires 1 <= i && Common(cfg, i, n) && ReadInv(cfg, i, n)
    requires m == n.(pc := m.pc, yielded := m.yielded, next := m.next) && !m.pc.Failed?
    ensures Common(cfg, i, m) && ReadInv(cfg, i, m)
  {
    hide Holds, Pack, Bytes, Total;
  }

  /** Moving on once the current bucket is handed out and read by the next rank. */
  lemma AwaitNextNode(cfg: Config, i: nat, n: Node, m: Node)
    requires cfg.Valid() && 1 <= i && NodeInv(cfg, i, n) && n.pc.Yielding?
    requires IsBucketDict(n.metadata) && n.next >= |MetaIn(n.metadata)|
    requires if n.outstanding.Some? then m == n.(notifs := [], outstanding := None) else m == n
    ensures NodeInv(cfg, i, m.(pc := if LastIn(n.metadata) then Finished else AwaitRead))
  {
    hide Holds, Handed, FillingInv, MetaOf, Start;
  }

  // ---- the whole chain ----

  lemma SenderStepInv(cfg: Config, s: State, step: Step)
    requires cfg.Valid() && Inv(cfg, s) && WellShaped(cfg, s) && Enabled(cfg, s, step)
    requires step.Fill? || step.SenderAwait? || step.FinalAwait?
    ensures Inv(cfg, Apply(cfg, s, step))
  {
    hide NodeInv, LinkInv, Inv;
    At(cfg, s, 0);
    var n := s[0];
    match step
    case Fill =>
      FillNode(cfg, n);
      SameLink(cfg, 0, n, s[1], DoFill(cfg, n), s[1]);
      UpdateOne(cfg, s, 0, DoFill(cfg, n));
    case SenderAwait =>
      TakeNotificationLink(cfg, 0, n, s[1]);
      SenderTakes(cfg, n);
      UpdateOne(cfg, s, 0, TakeNotification(n));
    case FinalAwait =>
      TakeNotificationLink(cfg, 0, n, s[1]);
      SenderTakes(cfg, n);
      SameLink(cfg, 0, TakeNotification(n), s[1], TakeNotification(n).(pc := Finished), s[1]);
      UpdateOne(cfg, s, 0, TakeNotification(n).(pc := Finished));
  }

  /** A link only looks at messages, notifications and counters. */
  lemma SameLink(cfg: Config, i: nat, a: Node, b: Node, a': Node, b': Node)
    requires LinkInv(cfg, i, a, b)
    requires a'.posted == a.posted && a'.outstanding == a.outstanding && a'.notifs == a.notifs
    requires b'.landed == b.landed && b'.begun == b.begun && b'.inbox == b.inbox
    requires b'.reading == b.reading || !b'.reading.InFlight?
    ensures LinkInv(cfg, i, a', b')
  {
  }

  lemma SenderPostInv(cfg: Config, s: State, key: Key)
    requires cfg.Valid() && Inv(cfg, s) && WellShaped(cfg, s) && Enabled(cfg, s, SenderPost(key))
    ensures Inv(cfg, Apply(cfg, s, SenderPost(key)))
  {
    hide NodeInv, LinkInv, Inv;
    At(cfg, s, 0);
    At(cfg, s, 1);
    var n := s[0];
    var message := PostMessage(key, 0, n.send, BucketDict(n.meta, n.next >= |cfg.ws|));
    SenderPostNode(cfg, n, key);
    PostLink(cfg, 0, n, s[1], key, DoSenderPost(cfg, n, key));
    DeliverNode(cfg, 1, s[1], message);
    if 1 < cfg.last {
      SameLink(cfg, 1, s[1], s[2], Deliver(s[1], message), s[2]);
    }
    UpdateTwo(cfg, s, 0, DoSenderPost(cfg, n, key), Deliver(s[1], message));
  }

  lemma ReceiveInv(cfg: Config, s: State, i: nat)
    requires cfg.Valid() && Inv(cfg, s) && WellShaped(cfg, s) && Enabled(cfg, s, Receive(i))
    ensures Inv(cfg, Apply(cfg, s, Receive(i)))
  {
    hide NodeInv, LinkInv, Inv;
    At(cfg, s, i);
    ReceiveNode(cfg, i, s[i - 1], s[i]);
    IdleCounts(cfg, i, s[i]);
    ReceiveLink(cfg, i, s[i - 1], s[i]);
    if i < cfg.last {
      SameLink(cfg, i, s[i], s[i + 1], DoReceive(cfg, s[i]), s[i + 1]);
    }
    UpdateOne(cfg, s, i, DoReceive(cfg, s[i]));
  }

  lemma CopyByteInv(cfg: Config, s: State, i: nat, k: nat)
    requires cfg.Valid() && Inv(cfg, s) && WellShaped(cfg, s) && Enabled(cfg, s, CopyByte(i, k))
    ensures Inv(cfg, Apply(cfg, s, CopyByte(i, k)))
  {
    hide NodeInv, LinkInv, Inv;
    At(cfg, s, i);
    At(cfg, s, i - 1);
    SourceHolds(cfg, i, s[i - 1], s[i]);
    var b := s[i - 1].bufs[s[i].reading.buf][k];
    CopyNode(cfg, i, s[i], k, s[i - 1].bufs[s[i].reading.buf], DoCopy(s[i], k, b));
    CopyLinks(cfg, i - 1, s[i - 1], s[i], k, b);
    if i < cfg.last {
      CopyLinks(cfg, i, s[i], s[i + 1], k, b);
    }
    UpdateOne(cfg, s, i, DoCopy(s[i], k, b));
  }

  lemma LandInv(cfg: Config, s: State, i: nat)
    requires cfg.Valid() && Inv(cfg, s) && WellShaped(cfg, s) && Enabled(cfg, s, Land(i))
    ensures Inv(cfg, Apply(cfg, s, Land(i)))
  {
    hide NodeInv, LinkInv, Inv;
    At(cfg, s, i);
    At(cfg, s, i - 1);
    var a := s[i - 1].(notifs := s[i - 1].notifs + [s[i].reading.key]);
    var m := s[i].(reading := Landed, landed := s[i].landed + 1);
    LandNode(cfg, i, s[i]);
    NotifyNode(cfg, i - 1, s[i - 1], s[i].reading.key);
    LandLink(cfg, i - 1, s[i - 1], s[i]);
    if i > 1 {
      SameLink(cfg, i - 2, s[i - 2], s[i - 1], s[i - 2], a);
    }
    if i < cfg.last {
      SameLink(cfg, i, s[i], s[i + 1], m, s[i + 1]);
    }
    UpdateTwo(cfg, s, i - 1, a, m);
  }

  lemma SwapInv(cfg: Config, s: State, i: nat)
    requires cfg.Valid() && Inv(cfg, s) && WellShaped(cfg, s) && Enabled(cfg, s, Swap(i))
    ensures Inv(cfg, Apply(cfg, s, Swap(i)))
  {
    hide NodeInv, LinkInv, Inv;
    At(cfg, s, i);
    SwapNode(cfg, i, s[i]);
    OwnStep(cfg, s, i, DoSwap(s[i]));
  }

  /** A step of one rank that touches no message, notification or counter. */
  lemma OwnStep(cfg: Config, s: State, i: nat, n: Node)
    requires Inv(cfg, s) && i <= cfg.last && NodeInv(cfg, i, n)
    requires n.posted == s[i].posted && n.outstanding == s[i].outstanding && n.notifs == s[i].notifs
    requires n.landed == s[i].landed && n.begun == s[i].begun && n.inbox == s[i].inbox
    requires n.reading == s[i].reading || !n.reading.InFlight?
    ensures Inv(cfg, s[i := n])
  {
    hide NodeInv, LinkInv;
    At(cfg, s, i);
    if i > 0 {
      SameLink(cfg, i - 1, s[i - 1], s[i], s[i - 1], n);
    }
    if i < cfg.last {
      SameLink(cfg, i, s[i], s[i + 1], n, s[i + 1]);
    }
    UpdateOne(cfg, s, i, n);
  }

  lemma RelayInv(cfg: Config, s: State, i: nat, key: Key)
    requires cfg.Valid() && Inv(cfg, s) && WellShaped(cfg, s) && Enabled(cfg, s, Relay(i, key))
    ensures Inv(cfg, Apply(cfg, s, Relay(i, key)))
  {
    hide NodeInv, LinkInv, Inv;
    At(cfg, s, i);
    var n := s[i];
    RelayNode(cfg, i, n, key);
    if i < cfg.last {
      At(cfg, s, i + 1);
      var m := AfterForward(Post(n, key));
      var b := Deliver(s[i + 1], PostMessage(key, i, n.send, n.metadata));
      PostLink(cfg, i, n, s[i + 1], key, m);
      DeliverNode(cfg, i + 1, s[i + 1], PostMessage(key, i, n.send, n.metadata));
      SameLink(cfg, i - 1, s[i - 1], n, s[i - 1], m);
      if i + 1 < cfg.last {
        SameLink(cfg, i + 1, s[i + 1], s[i + 2], b, s[i + 2]);
      }
      UpdateTwo(cfg, s, i, m, b);
    } else {
      OwnStep(cfg, s, i, AfterForward(n));
    }
  }

  lemma YieldInv(cfg: Config, s: State, i: nat)
    requires cfg.Valid() && Inv(cfg, s) && WellShaped(cfg, s) && Enabled(cfg, s, Yield(i))
    ensures Inv(cfg, Apply(cfg, s, Yield(i)))
  {
    hide NodeInv, LinkInv, Inv;
    At(cfg, s, i);
    YieldNode(cfg, i, s[i]);
    OwnStep(cfg, s, i, DoYield(s[i]));
  }

  lemma AwaitNextInv(cfg: Config, s: State, i: nat)
    requires cfg.Valid() && Inv(cfg, s) && WellShaped(cfg, s) && Enabled(cfg, s, AwaitNext(i))
    ensures Inv(cfg, Apply(cfg, s, AwaitNext(i)))
  {
    hide NodeInv, LinkInv, Inv;
    At(cfg, s, i);
    var n := s[i];
    if n.outstanding.None? {
      AwaitNextNode(cfg, i, n, n);
      NotFailed(cfg, i, n);
      OwnStep(cfg, s, i, DoAwaitNext(n));
    } else {
      OnlyLastHasNoNext(cfg, i, n);
      TakeNotificationLink(cfg, i, n, s[i + 1]);
      AwaitNextNode(cfg, i, n, TakeNotification(n));
      var m := DoAwaitNext(n);
      SameLink(cfg, i, TakeNotification(n), s[i + 1], m, s[i + 1]);
      SameLink(cfg, i - 1, s[i - 1], n, s[i - 1], m);
      UpdateOne(cfg, s, i, m);
    }
  }

  lemma NotFailed(cfg: Config, i: nat, n: Node)
    requires NodeInv(cfg, i, n)
    ensures !n.pc.Failed?
  {
    hide Holds, Handed, Start, DictOf, FillingInv;
  }

  lemma OnlyLastHasNoNext(cfg: Config, i: nat, n: Node)
    requires NodeInv(cfg, i, n) && i <= cfg.last && n.outstanding.Some?
    ensures i < cfg.last
  {
    hide Holds, Handed, Start, DictOf, FillingInv;
  }

  /** Every step keeps the invariant. */
  lemma StepInv(cfg: Config, s: State, step: Step)
    requires cfg.Valid() && Inv(cfg, s) && WellShaped(cfg, s) && Enabled(cfg, s, step)
    ensures Inv(cfg, Apply(cfg, s, step))
  {
    hide NodeInv, LinkInv, Inv, Enabled, Apply;
    match step
    case Fill => SenderStepInv(cfg, s, step);
    case SenderAwait => SenderStepInv(cfg, s, step);
    case SenderPost(key) => SenderPostInv(cfg, s, key);
    case FinalAwait => SenderStepInv(cfg, s, step);
    case Receive(i) => ReceiveInv(cfg, s, i);
    case CopyByte(i, k) => CopyByteInv(cfg, s, i, k);
    case Land(i) => LandInv(cfg, s, i);
    case Swap(i) => SwapInv(cfg, s, i);
    case Relay(i, key) => RelayInv(cfg, s, i, key);
    case Yield(i) => YieldInv(cfg, s, i);
    case AwaitNext(i) => AwaitNextInv(cfg, s, i);
  }
}
