/** The message and notification queues of one NIXL agent: what arrives is sorted into one queue
    for each sender, and a reader takes the first entry of the queue it waits for. */
module NixlAgents {
  import opened Basics

  type Name = string

  /** A `defaultdict(deque)`: an absent queue is empty. */
  function Queue<M>(queues: map<Name, seq<M>>, name: Name): seq<M> {
    if name in queues then queues[name] else []
  }

  /** What the socket still holds from one sender, in order. */
  function FromSender<M>(wire: seq<(Name, M)>, name: Name): seq<M> {
    if wire == [] then []
    else (if wire[0].0 == name then [wire[0].1] else []) + FromSender(wire[1..], name)
  }

  /** Everything that one sender has sent and nobody has read. */
  function Unread<M>(queues: map<Name, seq<M>>, wire: seq<(Name, M)>, name: Name): seq<M> {
    Queue(queues, name) + FromSender(wire, name)
  }

  lemma Arrives<M>(queues: map<Name, seq<M>>, wire: seq<(Name, M)>, other: Name)
    requires wire != []
    ensures var sender, received := wire[0].0, wire[0].1;
            Unread(queues[sender := Queue(queues, sender) + [received]], wire[1..], other) == Unread(queues, wire, other)
  {
    var received, rest := wire[0].1, FromSender(wire[1..], other);
    assert Queue(queues, other) + ([received] + rest) == Queue(queues, other) + [received] + rest;
    assert Queue(queues, other) + ([] + rest) == Queue(queues, other) + rest;
  }

  lemma NothingUnread<M>(queues: map<Name, seq<M>>, name: Name)
    ensures Unread(queues, [], name) == Queue(queues, name)
  {
  }

  lemma IsTaken<M>(queues: map<Name, seq<M>>, wire: seq<(Name, M)>, name: Name, other: Name)
    requires Queue(queues, name) != []
    ensures var queue := Queue(queues, name);
            Unread(queues, wire, other)
            == (if other == name then [queue[0]] else []) + Unread(queues[name := queue[1..]], wire, other)
  {
    var queue := Queue(queues, name);
    assert queue + FromSender(wire, name) == [queue[0]] + (queue[1..] + FromSender(wire, name));
  }

  /** One poll for notifications: the agents that notified, with what they sent. */
  type Poll<N> = seq<(Name, seq<N>)>

  function Extend<N>(queues: map<Name, seq<N>>, poll: Poll<N>): map<Name, seq<N>> {
    if poll == [] then queues
    else
      var last := poll[|poll| - 1];
      var before := Extend(queues, poll[..|poll| - 1]);
      before[last.0 := Queue(before, last.0) + last.1]
  }

  /** The variable that names the agent, after the loop over a poll has assigned to it. */
  function AfterPoll<N>(name: Name, poll: Poll<N>): Name {
    if poll == [] then name else poll[|poll| - 1].0
  }

  /** The loop of `get_notification`: the agent waited for, as the loop leaves it, and the queues. */
  function PollLoop<N>(queues: map<Name, seq<N>>, name: Name, polls: seq<Poll<N>>): Option<(Name, map<Name, seq<N>>)>
    decreases |polls|
  {
    if Queue(queues, name) != [] then Some((name, queues))
    else if polls == [] then None
    else
      var poll := polls[0];
      PollLoop(Extend(queues, poll), AfterPoll(name, poll), polls[1..])
  }

  /** What some agent has sent in the polls, in order. */
  function SentIn<N>(poll: Poll<N>, name: Name): seq<N> {
    if poll == [] then []
    else SentIn(poll[..|poll| - 1], name) + (if poll[|poll| - 1].0 == name then poll[|poll| - 1].1 else [])
  }

  function Sent<N>(polls: seq<Poll<N>>, name: Name): seq<N> {
    if polls == [] then [] else SentIn(polls[0], name) + Sent(polls[1..], name)
  }

  /** Polling puts what an agent sent at the end of its queue. */
  lemma {:induction false} ExtendAppends<N>(queues: map<Name, seq<N>>, poll: Poll<N>, name: Name)
    ensures Queue(Extend(queues, poll), name) == Queue(queues, name) + SentIn(poll, name)
  {
    if poll == [] {
      assert Queue(queues, name) + [] == Queue(queues, name);
    } else {
      var init, last := poll[..|poll| - 1], poll[|poll| - 1];
      ExtendAppends(queues, init, name);
      if last.0 == name {
        assert Queue(queues, name) + SentIn(init, name) + last.1 == Queue(queues, name) + (SentIn(init, name) + last.1);
      } else {
        assert SentIn(init, name) + [] == SentIn(init, name);
      }
    }
  }

  /** Moving a poll from the wire into the queues leaves what an agent has sent as it was. */
  lemma PollMoves<N>(queues: map<Name, seq<N>>, polls: seq<Poll<N>>, name: Name)
    requires polls != []
    ensures Queue(Extend(queues, polls[0]), name) + Sent(polls[1..], name) == Queue(queues, name) + Sent(polls, name)
  {
    hide Extend, SentIn, Queue;
    ExtendAppends(queues, polls[0], name);
    assert Queue(queues, name) + SentIn(polls[0], name) + Sent(polls[1..], name)
        == Queue(queues, name) + (SentIn(polls[0], name) + Sent(polls[1..], name));
  }

  lemma FirstTaken<N>(queues: map<Name, seq<N>>, remote: Name, name: Name, rest: seq<N>)
    requires Queue(queues, remote) != []
    ensures var queue := Queue(queues, remote);
            Queue(queues, name) + rest
            == (if name == remote then [queue[0]] else []) + (Queue(queues[remote := queue[1..]], name) + rest)
  {
    var queue := Queue(queues, remote);
    assert queue + rest == [queue[0]] + (queue[1..] + rest);
    assert [] + (Queue(queues, name) + rest) == Queue(queues, name) + rest;
  }

  class Agent<M, N> {
    var messages: map<Name, seq<M>>
    var notifications: map<Name, seq<N>>

    constructor ()
      ensures messages == map[] && notifications == map[]
    {
      messages, notifications := map[], map[];
    }

    /** Reads the next message of one agent; `None` is a reader left waiting. The message is the
        first that agent sent and nobody read; no message of any agent is lost or reordered. */
    method ReadMessage(name: Name, wire: seq<(Name, M)>) returns (message: Option<M>, rest: seq<(Name, M)>)
      modifies this`messages
      ensures message.None? <==> Unread(old(messages), wire, name) == []
      ensures message.Some? ==>
                Unread(old(messages), wire, name) == [message.value] + Unread(messages, rest, name)
      ensures forall other :: other != name || message.None? ==>
                Unread(messages, rest, other) == Unread(old(messages), wire, other)
    {
      hide Unread, FromSender;
      rest := wire;
      while Queue(messages, name) == [] && rest != []
        invariant forall other :: Unread(messages, rest, other) == Unread(old(messages), wire, other)
        decreases |rest|
      {
        var sender, received := rest[0].0, rest[0].1;
        forall other {
          Arrives(messages, rest, other);
        }
        messages := messages[sender := Queue(messages, sender) + [received]];
        rest := rest[1..];
      }
      if Queue(messages, name) == [] {
        NothingUnread(messages, name);
        return None, rest;
      }
      forall other {
        IsTaken(messages, rest, name, other);
      }
      message := Some(Queue(messages, name)[0]);
      messages := messages[name := Queue(messages, name)[1..]];
    }

    /** The loop over one poll, which assigns to the very variable that names the agent. */
    method ReceivePoll(name: Name, poll: Poll<N>) returns (remote: Name)
      modifies this`notifications
      ensures notifications == Extend(old(notifications), poll) && remote == AfterPoll(name, poll)
    {
      remote := name;
      for i := 0 to |poll|
        invariant notifications == Extend(old(notifications), poll[..i]) && remote == AfterPoll(name, poll[..i])
      {
        assert poll[..i + 1][..i] == poll[..i];
        remote := poll[i].0;
        notifications := notifications[remote := Queue(notifications, remote) + poll[i].1];
      }
      assert poll[..|poll|] == poll;
    }

    /** Reads a notification while waiting for those of one agent. It is the first that the agent
        read from sent and nobody read; no notification of any agent is lost or reordered. */
    method GetNotification(name: Name, polls: seq<Poll<N>>) returns (notification: Option<N>, rest: seq<Poll<N>>)
      modifies this`notifications
      ensures var r := PollLoop(old(notifications), name, polls);
              && (notification.None? <==> r.None?)
              && (r.Some? ==>
                    && Queue(r.value.1, r.value.0) != []
                    && notification.value == Queue(r.value.1, r.value.0)[0]
                    && notifications == r.value.1[r.value.0 := Queue(r.value.1, r.value.0)[1..]])
              && forall other ::
                   Queue(old(notifications), other) + Sent(polls, other)
                   == (if r.Some? && other == r.value.0 then [notification.value] else [])
                      + (Queue(notifications, other) + Sent(rest, other))
    {
      hide Extend, AfterPoll, Sent;
      var remote := name;
      rest := polls;
      while Queue(notifications, remote) == [] && rest != []
        invariant PollLoop(notifications, remote, rest) == PollLoop(old(notifications), name, polls)
        invariant forall other ::
                    Queue(notifications, other) + Sent(rest, other) == Queue(old(notifications), other) + Sent(polls, other)
        decreases |rest|
      {
        forall other {
          PollMoves(notifications, rest, other);
        }
        remote := ReceivePoll(remote, rest[0]);
        rest := rest[1..];
      }
      if Queue(notifications, remote) == [] {
        return None, rest;
      }
      forall other {
        FirstTaken(notifications, remote, other, Sent(rest, other));
      }
      notification := Some(Queue(notifications, remote)[0]);
      notifications := notifications[remote := Queue(notifications, remote)[1..]];
    }
  }

  /** Every poll comes from one agent, as in the chain, where only the next agent notifies. */
  ghost predicate OnlyFrom<N>(polls: seq<Poll<N>>, name: Name) {
    forall p, i :: 0 <= p < |polls| && 0 <= i < |polls[p]| ==> polls[p][i].0 == name
  }

  /** Then the agent waited for is the agent read from. */
  lemma {:induction false} WaitsForOne<N>(queues: map<Name, seq<N>>, name: Name, polls: seq<Poll<N>>)
    requires OnlyFrom(polls, name)
    ensures var r := PollLoop(queues, name, polls); r.Some? ==> r.value.0 == name
    decreases |polls|
  {
    if Queue(queues, name) == [] && polls != [] {
      var poll: Poll<N>, rest: seq<Poll<N>> := polls[0], polls[1..];
      assert poll != [] ==> poll[|poll| - 1].0 == name;
      forall p, i | 0 <= p < |rest| && 0 <= i < |rest[p]| ensures rest[p][i].0 == name {
        assert rest[p] == polls[p + 1];
      }
      WaitsForOne(Extend(queues, poll), name, rest);
    }
  }

  /** The queues after some polls. */
  function AfterQueues<N>(queues: map<Name, seq<N>>, polls: seq<Poll<N>>): map<Name, seq<N>>
    decreases |polls|
  {
    if polls == [] then queues else AfterQueues(Extend(queues, polls[0]), polls[1..])
  }

  /** The last agent of the last poll that was not empty. */
  function LastPolled<N>(name: Name, polls: seq<Poll<N>>): Name {
    if polls == [] then name
    else
      var last := polls[|polls| - 1];
      if last == [] then LastPolled(name, polls[..|polls| - 1]) else last[|last| - 1].0
  }

  lemma NothingPolled<N>(queues: map<Name, seq<N>>, name: Name)
    ensures LastPolled<N>(name, []) == name && AfterQueues(queues, []) == queues
  {
  }

  lemma {:induction false} LastPolledCons<N>(name: Name, poll: Poll<N>, polls: seq<Poll<N>>)
    ensures LastPolled(name, [poll] + polls) == LastPolled(AfterPoll(name, poll), polls)
  {
    var all := [poll] + polls;
    if polls == [] {
      assert all[..0] == [];
    } else {
      assert all[..|all| - 1] == [poll] + polls[..|polls| - 1];
      LastPolledCons(name, poll, polls[..|polls| - 1]);
    }
  }

  lemma AfterQueuesCons<N>(queues: map<Name, seq<N>>, poll: Poll<N>, polls: seq<Poll<N>>)
    ensures AfterQueues(queues, [poll] + polls) == AfterQueues(Extend(queues, poll), polls)
  {
    assert ([poll] + polls)[1..] == polls;
  }

  /** After `p` polls the agent that the last poll left in the variable has something to read. */
  predicate CanRead<N>(queues: map<Name, seq<N>>, name: Name, polls: seq<Poll<N>>, p: nat)
    requires p <= |polls|
  {
    Queue(AfterQueues(queues, polls[..p]), LastPolled(name, polls[..p])) != []
  }

  /** The reader takes as few polls as leave it an agent to read from, and reads from the last
      agent of the last of them that was not empty. */
  lemma {:induction false} ReadsFromLastPolled<N>(queues: map<Name, seq<N>>, name: Name, polls: seq<Poll<N>>)
    returns (used: nat)
    requires PollLoop(queues, name, polls).Some?
    ensures used <= |polls| && CanRead(queues, name, polls, used)
    ensures forall p: nat :: p < used ==> !CanRead(queues, name, polls, p)
    ensures PollLoop(queues, name, polls).value
            == (LastPolled(name, polls[..used]), AfterQueues(queues, polls[..used]))
    decreases |polls|
  {
    hide Extend, LastPolled, AfterQueues, AfterPoll;
    assert polls[..0] == [];
    NothingPolled(queues, name);
    if Queue(queues, name) != [] {
      used := 0;
    } else {
      var poll: Poll<N>, rest: seq<Poll<N>> := polls[0], polls[1..];
      var more := ReadsFromLastPolled(Extend(queues, poll), AfterPoll(name, poll), rest);
      used := more + 1;
      forall p: nat | p <= more
        ensures CanRead(queues, name, polls, p + 1) <==> CanRead(Extend(queues, poll), AfterPoll(name, poll), rest, p)
      {
        CanReadCons(queues, name, poll, rest, p);
        assert polls == [poll] + rest;
      }
      forall p: nat | p < used ensures !CanRead(queues, name, polls, p) {
        if p > 0 {
          assert CanRead(queues, name, polls, p - 1 + 1)
                 <==> CanRead(Extend(queues, poll), AfterPoll(name, poll), rest, p - 1);
        }
      }
      assert polls[..used] == [poll] + rest[..more];
      LastPolledCons(name, poll, rest[..more]);
      AfterQueuesCons(queues, poll, rest[..more]);
    }
  }

  lemma CanReadCons<N>(queues: map<Name, seq<N>>, name: Name, poll: Poll<N>, rest: seq<Poll<N>>, p: nat)
    requires p <= |rest|
    ensures CanRead(queues, name, [poll] + rest, p + 1)
            <==> CanRead(Extend(queues, poll), AfterPoll(name, poll), rest, p)
  {
    hide Extend, LastPolled, AfterQueues, AfterPoll;
    assert ([poll] + rest)[..p + 1] == [poll] + rest[..p];
    LastPolledCons(name, poll, rest[..p]);
    AfterQueuesCons(queues, poll, rest[..p]);
  }

  /** Whoever is polled has sent something. */
  ghost predicate EachNotifies<N>(polls: seq<Poll<N>>) {
    forall p, i :: 0 <= p < |polls| && 0 <= i < |polls[p]| ==> polls[p][i].1 != []
  }

  /** The last agent of the first poll that was not empty. */
  function FirstPolled<N>(polls: seq<Poll<N>>): Option<Name> {
    if polls == [] then None
    else if polls[0] == [] then FirstPolled(polls[1..])
    else Some(polls[0][|polls[0]| - 1].0)
  }

  lemma LastHasSome<N>(queues: map<Name, seq<N>>, poll: Poll<N>)
    requires poll != [] && poll[|poll| - 1].1 != []
    ensures Queue(Extend(queues, poll), poll[|poll| - 1].0) != []
  {
  }

  /** Then the reader waits until a queue it knows of or a poll has something, and the agent it
      reads from is the one waited for, if that one's queue was not empty, or else the last agent
      of the first poll that was not empty. */
  lemma {:induction false} AgentRead<N>(queues: map<Name, seq<N>>, name: Name, polls: seq<Poll<N>>)
    requires EachNotifies(polls)
    ensures var r := PollLoop(queues, name, polls);
            && (r.Some? <==> Queue(queues, name) != [] || FirstPolled(polls).Some?)
            && (r.Some? ==> r.value.0 == if Queue(queues, name) != [] then name else FirstPolled(polls).value)
    decreases |polls|
  {
    if Queue(queues, name) == [] && polls != [] {
      var poll: Poll<N>, rest: seq<Poll<N>> := polls[0], polls[1..];
      forall p, i | 0 <= p < |rest| && 0 <= i < |rest[p]| ensures rest[p][i].1 != [] {
        assert rest[p] == polls[p + 1];
      }
      if poll == [] {
        AgentRead(queues, name, rest);
      } else {
        hide Extend;
        LastHasSome(queues, poll);
      }
    }
  }

  /** So the right agent is read exactly when its queue was not empty or it comes last in the first
      poll that was not empty. */
  lemma RightAgentIff<N>(queues: map<Name, seq<N>>, name: Name, polls: seq<Poll<N>>)
    requires EachNotifies(polls) && PollLoop(queues, name, polls).Some?
    ensures PollLoop(queues, name, polls).value.0 == name
            <==> Queue(queues, name) != [] || FirstPolled(polls) == Some(name)
  {
    AgentRead(queues, name, polls);
  }

  /** One poll with notifications of two agents: the reader that waits for the first gets what the
      second sent. */
  lemma WrongAgent()
    ensures var poll: Poll<nat> := [("next", [1]), ("other", [2])];
            var r := PollLoop(map[], "next", [poll]);
            r.Some? && r.value.0 == "other" && Queue(r.value.1, "other") == [2] && Queue(r.value.1, "next") == [1]
  {
    var poll: Poll<nat> := [("next", [1]), ("other", [2])];
    assert poll[..1] == [("next", [1])] && poll[..1][..0] == [];
    var none: map<Name, seq<nat>> := map[];
    assert Extend(none, poll[..1][..0]) == none;
    assert Queue(none, "next") + [1] == [1];
    var one := Extend(none, poll[..1]);
    assert one == none["next" := [1]];
    assert Queue(one, "other") + [2] == [2];
    assert Extend(none, poll) == one["other" := [2]];
    assert [poll][1..] == [];
  }
}
