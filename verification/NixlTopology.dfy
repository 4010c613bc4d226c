/** How the ranks are wired: `build_topology` slices the list of agent metadata from its end, the
    manager checks the lengths of what it returns, and every rank checks its own two neighbours. */
module NixlTopology {
  import opened Basics

  /** Where Python's `xs[k]` and `xs[k:]` start for an index that may be negative. */
  function Resolve(len: nat, k: int): (r: nat)
    ensures var place := if k < 0 then len + k else k;
            (place < 0 ==> r == 0) && (0 <= place <= len ==> r == place) && (place > len ==> r == len)
  {
    if k >= 0 then (if k <= len then k else len)
    else if len + k >= 0 then len + k else 0
  }

  /** `xs[lo:hi]` */
  function Slice<T>(xs: seq<T>, lo: int, hi: int): seq<T> {
    var a, b := Resolve(|xs|, lo), Resolve(|xs|, hi);
    if a <= b then xs[a..b] else []
  }

  /** `xs[lo:]` */
  function SliceFrom<T>(xs: seq<T>, lo: int): seq<T> {
    xs[Resolve(|xs|, lo)..]
  }

  function Wrap<T>(xs: seq<T>): (r: seq<Option<T>>)
    ensures |r| == |xs| && forall i :: 0 <= i < |xs| ==> r[i] == Some(xs[i])
  {
    seq(|xs|, i requires 0 <= i < |xs| => Some(xs[i]))
  }

  /** One worker's arguments to `init_process_group`. */
  datatype Wiring<M> = Wiring(rank: int, worldSize: int, prev: Option<M>, next: Option<M>)

  /** The argument lists of one kind of worker, before they are zipped. */
  datatype Lists<M> = Lists(rank: seq<int>, worldSize: seq<int>, prev: seq<Option<M>>, next: seq<Option<M>>) {
    predicate Lengths(n: int) {
      |rank| == n && |worldSize| == n && |prev| == n && |next| == n
    }

    function At(i: int): Wiring<M>
      requires 0 <= i < |rank| && i < |worldSize| && i < |prev| && i < |next|
    {
      Wiring(rank[i], worldSize[i], prev[i], next[i])
    }
  }

  function TrainerLists<M>(trainers: int, rollouts: int, metadata: seq<M>): Lists<M>
    requires 1 <= trainers && 1 <= rollouts && |metadata| == trainers + rollouts
  {
    Lists([0] + Repeat(-1, trainers - 1),
          Repeat(rollouts + 1, trainers),
          Repeat(None, trainers),
          [Some(metadata[Resolve(|metadata|, -rollouts)])] + Repeat(None, trainers - 1))
  }

  function RolloutLists<M>(trainers: int, rollouts: int, metadata: seq<M>): Lists<M>
    requires 1 <= trainers && 1 <= rollouts && |metadata| == trainers + rollouts
  {
    Lists(seq(rollouts, i => i + 1),
          Repeat(rollouts + 1, rollouts),
          Wrap([metadata[0]] + Slice(metadata, -rollouts, -1)),
          Wrap(SliceFrom(metadata, -rollouts + 1)) + [None])
  }

  /** The assertions of `init_process_group`. */
  predicate Accepts<M>(w: Wiring<M>) {
    if w.rank < 0 then w.prev.None? && w.next.None?
    else if w.rank == 0 then w.prev.None? && w.next.Some?
    else if w.rank < w.worldSize - 1 then w.prev.Some? && w.next.Some?
    else if w.rank == w.worldSize - 1 then w.prev.Some? && w.next.None?
    else true
  }

  /** A worker accepts exactly the neighbours of its place in a chain: a rank before it from rank 1
      on, a rank after it up to the last but one. */
  lemma AcceptsIff<M>(w: Wiring<M>)
    requires w.rank < w.worldSize && w.worldSize >= 2
    ensures Accepts(w)
            <==> (w.prev.Some? <==> w.rank >= 1) && (w.next.Some? <==> 0 <= w.rank < w.worldSize - 1)
  {
  }

  /** The manager's length checks pass and so do every worker's own. */
  ghost predicate Builds<M>(trainers: int, rollouts: int, metadata: seq<M>)
    requires 1 <= trainers && 1 <= rollouts && |metadata| == trainers + rollouts
  {
    var t, r := TrainerLists(trainers, rollouts, metadata), RolloutLists(trainers, rollouts, metadata);
    && t.Lengths(trainers) && r.Lengths(rollouts)
    && (forall i :: 0 <= i < trainers ==> Accepts(t.At(i)))
    && (forall i :: 0 <= i < rollouts ==> Accepts(r.At(i)))
  }

  /** The metadata of the agent that has rank k. */
  function AgentOf<M>(trainers: int, metadata: seq<M>, k: int): M
    requires 1 <= trainers && 0 <= k && trainers + k <= |metadata|
  {
    if k == 0 then metadata[0] else metadata[trainers + k - 1]
  }

  /** Rank 0 points at rank 1, every other rank at the ranks next to it, the last at nobody, and
      the remaining trainers at nobody. */
  ghost predicate IsChain<M>(trainers: int, rollouts: int, metadata: seq<M>)
    requires 1 <= trainers && 1 <= rollouts && |metadata| == trainers + rollouts
  {
    var t, r := TrainerLists(trainers, rollouts, metadata), RolloutLists(trainers, rollouts, metadata);
    && t.Lengths(trainers) && r.Lengths(rollouts)
    && t.At(0) == Wiring(0, rollouts + 1, None, Some(AgentOf(trainers, metadata, 1)))
    && (forall i :: 1 <= i < trainers ==> t.At(i) == Wiring(-1, rollouts + 1, None, None))
    && forall i :: 0 <= i < rollouts ==>
         r.At(i) == Wiring(i + 1, rollouts + 1, Some(AgentOf(trainers, metadata, i)),
                           if i + 1 < rollouts then Some(AgentOf(trainers, metadata, i + 2)) else None)
  }

  /** With one rollout rank the slice `metadata[-R + 1:]` is the whole list, the lengths disagree
      and the group is never built; with two or more the ranks form the chain. */
  lemma TopologyIsChain<M>(trainers: int, rollouts: int, metadata: seq<M>)
    requires 1 <= trainers && 1 <= rollouts && |metadata| == trainers + rollouts
    ensures Builds(trainers, rollouts, metadata) <==> rollouts >= 2
    ensures rollouts >= 2 ==> IsChain(trainers, rollouts, metadata)
  {
    var t, r := TrainerLists(trainers, rollouts, metadata), RolloutLists(trainers, rollouts, metadata);
    if rollouts == 1 {
      assert |r.next| == |metadata| + 1;
    } else {
      assert Slice(metadata, -rollouts, -1) == metadata[trainers..|metadata| - 1];
      assert SliceFrom(metadata, -rollouts + 1) == metadata[trainers + 1..];
      forall i | 0 <= i < rollouts
        ensures r.At(i) == Wiring(i + 1, rollouts + 1, Some(AgentOf(trainers, metadata, i)),
                                  if i + 1 < rollouts then Some(AgentOf(trainers, metadata, i + 2)) else None)
      {
        if i > 0 {
          assert metadata[trainers..|metadata| - 1][i - 1] == metadata[trainers + i - 1];
        }
        if i + 1 < rollouts {
          assert metadata[trainers + 1..][i] == metadata[trainers + 1 + i];
        }
      }
    }
  }
}
