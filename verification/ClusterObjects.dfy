/** The mutable objects of the simulation: compute nodes with the shared cache of free nodes, and
    jobs that hold references to nodes. Every method is proved against the operation on views. */
module ClusterObjects {
  import opened Sequences
  import opened RuntimePrediction
  import opened ClusterState

  /** The process-wide cache of free nodes; any node may invalidate it. */
  class NodeCache {
    var cachedFreeNodes: seq<Node>
    var cacheValid: bool

    constructor ()
      ensures !cacheValid
    {
      cachedFreeNodes, cacheValid := [], false;
    }

    method Invalidate()
      modifies this`cacheValid
      ensures !cacheValid
    {
      cacheValid := false;
    }
  }

  class Node {
    const id: int
    const cache: NodeCache
    var state: NodeState
    var runningJobs: set<int>
    var expectedJobs: set<int>
    var stateTransitionTime: real
    var targetState: NodeState
    var died: bool

    constructor (id: int, cache: NodeCache)
      ensures View() == NEW_NODE && this.id == id && this.cache == cache
    {
      this.id, this.cache := id, cache;
      state, runningJobs, expectedJobs, stateTransitionTime, targetState, died := NodeFree, {}, {}, -1.0, NodeFree, false;
    }

    function View(): NodeView
      reads this
    {
      NodeView(state, runningJobs, expectedJobs, stateTransitionTime, targetState, died)
    }

    /** The cache was invalidated, or it still tells the truth about this node. */
    twostate predicate Noticed()
      reads this, cache
    {
      cache.cacheValid ==> old(cache.cacheValid) && SameFreeness()
    }

    twostate predicate GaveUp(j: int, expecting: bool)
      reads this
    {
      View() == if expecting then old(View()).RemoveExpectedJob(j) else old(View())
    }

    /** The node is free exactly if it was. */
    twostate predicate SameFreeness()
      reads this
    {
      state.NodeFree? <==> old(state.NodeFree?)
    }

    method AllocateJob(j: int)
      modifies this, cache`cacheValid
      ensures View() == old(View()).AllocateJob(j) && Noticed()
    {
      if runningJobs != {} {
        died := true;
        return;
      }
      runningJobs := runningJobs + {j};
      if runningJobs != {} {
        state := NodeAllocated;
        cache.Invalidate();
      }
    }

    method ExpandJob(j: int)
      modifies this, cache`cacheValid
      ensures View() == old(View()).ExpandJob(j) && Noticed()
    {
      runningJobs := runningJobs + {j};
      if runningJobs != {} {
        state := NodeAllocated;
        cache.Invalidate();
      }
    }

    method CompleteJob(j: int)
      modifies this, cache`cacheValid
      ensures View() == old(View()).CompleteJob(j) && Noticed()
    {
      runningJobs := runningJobs - {j};
      if runningJobs == {} {
        state := NodeFree;
        cache.Invalidate();
      }
    }

    method ExpectJob(j: int)
      modifies this, cache`cacheValid
      ensures View() == old(View()).ExpectJob(j) && Noticed()
    {
      if j !in runningJobs && runningJobs != {} {
        died := true;
        return;
      }
      if j !in expectedJobs && expectedJobs != {} {
        died := true;
        return;
      }
      expectedJobs := expectedJobs + {j};
      if state.NodeFree? {
        state := NodeReserved;
        cache.Invalidate();
      }
    }

    method RemoveExpectedJob(j: int)
      modifies this, cache`cacheValid
      ensures View() == old(View()).RemoveExpectedJob(j) && Noticed()
    {
      expectedJobs := expectedJobs - {j};
      if expectedJobs == {} && state.NodeReserved? {
        state := NodeFree;
        cache.Invalidate();
      }
    }

    method SetState(newState: NodeState)
      modifies this, cache`cacheValid
      ensures View() == old(View()).(state := newState) && !cache.cacheValid
    {
      cache.Invalidate();
      state := newState;
    }

    method ScheduleTransition(to: NodeState, delaySeconds: int, now: real)
      modifies this
      ensures View() == old(View()).ScheduleTransition(to, delaySeconds, now)
    {
      targetState := to;
      stateTransitionTime := now + delaySeconds as real;
    }

    method CheckScheduledTransition(now: real)
      modifies this, cache`cacheValid
      ensures View() == old(View()).CheckScheduledTransition(now) && Noticed()
    {
      if stateTransitionTime > 0.0 && now >= stateTransitionTime {
        SetState(targetState);
        stateTransitionTime := -1.0;
      }
    }

    method Perform(op: NodeOp, j: int)
      modifies this, cache`cacheValid
      ensures View() == op.On(old(View()), j) && Noticed()
    {
      match op {
        case Allocate => AllocateJob(j);
        case Expand => ExpandJob(j);
        case Complete => CompleteJob(j);
        case Expect => ExpectJob(j);
        case RemoveExpected => RemoveExpectedJob(j);
      }
    }
  }

  ghost predicate Separate<T>(s: seq<T>) {
    forall i, k :: 0 <= i < k < |s| ==> s[i] != s[k]
  }

  ghost predicate SharedCache(ns: seq<Node>, cache: NodeCache) {
    forall n :: n in ns ==> n.cache == cache
  }

  function Ids(ns: seq<Node>): (r: seq<int>)
    ensures |r| == |ns| && forall k :: 0 <= k < |ns| ==> r[k] == ns[k].id
  {
    seq(|ns|, k requires 0 <= k < |ns| => ns[k].id)
  }

  /** The same operation at each of the listed nodes. */
  method AtEach(ns: seq<Node>, cache: NodeCache, op: NodeOp, j: int)
    requires Separate(ns) && SharedCache(ns, cache)
    modifies ns, cache`cacheValid
    ensures forall n :: n in ns ==> n.View() == op.On(old(n.View()), j)
    ensures cache.cacheValid ==> old(cache.cacheValid) && forall n :: n in ns ==> n.SameFreeness()
  {
    for i := 0 to |ns|
      invariant forall k :: 0 <= k < i ==> ns[k].View() == op.On(old(ns[k].View()), j)
      invariant forall k :: i <= k < |ns| ==> ns[k].View() == old(ns[k].View())
      invariant cache.cacheValid ==> old(cache.cacheValid) && forall k :: 0 <= k < i ==> ns[k].SameFreeness()
    {
      ns[i].Perform(op, j);
    }
  }

  /** The platform's node list: a node's number is its place in the list. */
  ghost predicate IsPlatform(platform: seq<Node>, cache: NodeCache) {
    forall k :: 0 <= k < |platform| ==> platform[k].id == k && platform[k].cache == cache
  }

  ghost predicate From(ns: seq<Node>, platform: seq<Node>) {
    forall k :: 0 <= k < |ns| ==> ns[k] in platform
  }

  /** On a platform, nodes and their numbers determine each other. */
  lemma IdsDecide(a: seq<Node>, b: seq<Node>, platform: seq<Node>, cache: NodeCache)
    requires IsPlatform(platform, cache) && From(a, platform) && From(b, platform)
    ensures (a == b <==> Ids(a) == Ids(b)) && (Separate(a) <==> Distinct(Ids(a))) && SharedCache(a, cache)
    ensures forall n :: n in platform ==> (n in a <==> n.id in Ids(a)) && 0 <= n.id < |platform| && platform[n.id] == n
  {
  }

  class Job {
    const id: int
    const kind: JobType
    const nodesMin: int
    const nodesMax: int
    const nodesPref: int
    const profile: JobProfile
    const platform: seq<Node>
    const cache: NodeCache
    var state: JobState
    var assignedNodes: seq<Node>
    var executingNodes: seq<Node>
    var prediction: Prediction
    var died: bool

    ghost predicate Valid()
      reads this
    {
      IsPlatform(platform, cache) && From(assignedNodes, platform) && From(executingNodes, platform)
    }

    function View(): JobView
      reads this
    {
      JobView(kind, nodesMin, nodesMax, nodesPref, profile, state, Ids(assignedNodes), Ids(executingNodes), prediction, died)
    }

    /** A submitted job; `v` holds what the submission says about it. */
    constructor (id: int, v: JobView, platform: seq<Node>, cache: NodeCache)
      requires IsPlatform(platform, cache)
      ensures Valid() && this.id == id && this.platform == platform && this.cache == cache
      ensures View() == v.(state := Pending, assignedNodes := [], executingNodes := [], prediction := NoPrediction, died := false)
    {
      this.id, kind, nodesMin, nodesMax, nodesPref, profile := id, v.kind, v.nodesMin, v.nodesMax, v.nodesPref, v.profile;
      this.platform, this.cache := platform, cache;
      state, assignedNodes, executingNodes, prediction, died := Pending, [], [], NoPrediction, false;
    }

    method AssignNode(node: Node)
      requires Valid() && node in platform
      modifies this, node, cache`cacheValid
      ensures Valid() && node.cache == cache
      ensures old(state).Pending? ==> View() == old(View()).(assignedNodes := old(View()).assignedNodes + [node.id]) && node.View() == old(node.View())
      ensures !old(state).Pending? && kind.Malleable? ==>
        View() == old(View()).(assignedNodes := old(View()).assignedNodes + [node.id]) && node.View() == old(node.View()).ExpectJob(id)
      ensures !old(state).Pending? && !kind.Malleable? ==> View() == old(View()).(died := true) && node.View() == old(node.View())
      ensures cache.cacheValid ==> old(cache.cacheValid) && node.SameFreeness()
    {
      if state.Pending? {
        assignedNodes := assignedNodes + [node];
      } else if kind.Malleable? {
        assignedNodes := assignedNodes + [node];
        node.ExpectJob(id);
      } else {
        died := true;
      }
    }

    /** Search the node and erase it. */
    method EraseNode(node: Node) returns (found: bool)
      requires Valid() && node in platform
      modifies this`assignedNodes
      ensures Valid() && (found <==> node in old(assignedNodes))
      ensures forall n :: (n in assignedNodes ==> n in old(assignedNodes)) && (n in old(assignedNodes) && n != node ==> n in assignedNodes)
      ensures View() == old(View()).(assignedNodes := RemoveFirst(old(View()).assignedNodes, node.id))
    {
      var i := 0;
      while i < |assignedNodes| && assignedNodes[i] != node
        invariant i <= |assignedNodes| && node !in assignedNodes[..i]
      {
        i := i + 1;
      }
      hide RemoveFirst;
      found := i < |assignedNodes|;
      SearchById(assignedNodes, i, node, platform, cache);
      if found {
        assignedNodes := assignedNodes[..i] + assignedNodes[i + 1..];
      }
    }

    method GiveUp(node: Node)
      requires Valid() && node in platform
      modifies this`assignedNodes, node, cache`cacheValid
      ensures Valid() && node.cache == cache
      ensures View() == old(View()).(assignedNodes := RemoveFirst(old(View()).assignedNodes, node.id))
      ensures forall n :: (n in assignedNodes ==> n in old(assignedNodes)) && (n in old(assignedNodes) && n != node ==> n in assignedNodes)
      ensures node.GaveUp(id, node in old(assignedNodes)) && (cache.cacheValid ==> old(cache.cacheValid) && node.SameFreeness())
    {
      var found := EraseNode(node);
      if found {
        node.RemoveExpectedJob(id);
      }
    }

    method GiveUpAll(ns: seq<Node>)
      requires Valid() && From(ns, platform) && Separate(ns)
      modifies this`assignedNodes, ns, cache`cacheValid
      ensures Valid() && View() == old(View()).(assignedNodes := RemoveEach(old(View()).assignedNodes, Ids(ns)))
      ensures forall n :: n in ns ==> n.GaveUp(id, n in old(assignedNodes))
      ensures cache.cacheValid ==> old(cache.cacheValid) && forall n :: n in ns ==> n.SameFreeness()
    {
      hide RemoveFirst;
      hide ErasedUpTo;
      hide RemoveEach;
      hide Ids;
      hide IsPlatform;
      ghost var before, all := View(), assignedNodes;
      ErasedStep(before.assignedNodes, Ids(ns), 0);
      for i := 0 to |ns|
        invariant Valid() && View() == before.(assignedNodes := ErasedUpTo(before.assignedNodes, Ids(ns), i))
        invariant forall n :: n in all && n !in ns[..i] ==> n in assignedNodes
        invariant forall n :: n in assignedNodes ==> n in all
        invariant forall k :: 0 <= k < i ==> ns[k].GaveUp(id, ns[k] in all)
        invariant forall k :: i <= k < |ns| ==> unchanged(ns[k])
        invariant cache.cacheValid ==> old(cache.cacheValid) && forall k :: 0 <= k < i ==> ns[k].SameFreeness()
      {
        ErasedStep(before.assignedNodes, Ids(ns), i);
        GiveUp(ns[i]);
      }
      ErasedAll(before.assignedNodes, Ids(ns));
    }

    /** Give up the listed nodes, which stop expecting the job. */
    method RemoveNodes(ns: seq<Node>)
      requires Valid() && From(ns, platform) && Separate(ns)
      modifies this, ns, cache`cacheValid
      ensures Valid()
      ensures View() == if ns == [] then old(View()) else old(View()).RemoveNodes(Ids(ns))
      ensures old(|assignedNodes|) - |ns| >= nodesMin ==>
        forall n :: n in ns ==> n.GaveUp(id, n in old(assignedNodes))
      ensures cache.cacheValid ==> old(cache.cacheValid) && forall n :: n in ns ==> n.SameFreeness()
    {
      if ns == [] {
        return;
      }
      if |assignedNodes| - |ns| < nodesMin {
        died := true;
        return;
      }
      GiveUpAll(ns);
      if state.Running? {
        state := PendingReconfiguration;
      }
    }

    method UpdateState()
      requires Valid()
      modifies this`state
      ensures Valid() && View() == old(View()).UpdateState()
    {
      IdsDecide(assignedNodes, executingNodes, platform, cache);
      if assignedNodes != executingNodes {
        if state.Pending? {
          state := PendingAllocation;
        } else if state.Running? {
          state := PendingReconfiguration;
        }
      } else {
        if state.PendingReconfiguration? {
          state := Running;
        }
      }
    }

    method TakeOver(now: real)
      requires Valid()
      modifies this
      ensures Valid() && assignedNodes == old(assignedNodes) && View() == old(View()).TakeOver(now)
      ensures executingNodes == if assignedNodes != [] then assignedNodes else old(executingNodes)
    {
      if assignedNodes == [] {
        died := true;
        return;
      }
      executingNodes := assignedNodes;
      prediction := Synchronize(profile, prediction, now, |executingNodes|);
    }

    /** The assigned nodes stop expecting the job when it takes them over or ends. */
    ghost predicate Releases(newState: JobState)
      reads this
    {
      newState.Completed? || (state.PendingReconfiguration? && newState.InReconfiguration?)
    }

    /** The assigned nodes become the executing ones. */
    ghost predicate TakesOver(newState: JobState)
      reads this
    {
      assignedNodes != [] && ((state.PendingAllocation? && newState.Running?) || (state.PendingReconfiguration? && newState.InReconfiguration?))
    }

    method SetState(newState: JobState, now: real)
      requires Valid() && (Releases(newState) ==> Separate(assignedNodes))
      modifies this, if Releases(newState) then assignedNodes else [], cache`cacheValid
      ensures Valid() && View() == old(View()).SetState(newState, now) && assignedNodes == old(assignedNodes)
      ensures executingNodes == if old(TakesOver(newState)) then assignedNodes else old(executingNodes)
      ensures old(Releases(newState)) ==> forall n :: n in assignedNodes ==> n.GaveUp(id, true)
      ensures cache.cacheValid ==> old(cache.cacheValid) && forall n :: n in assignedNodes ==> n.SameFreeness()
    {
      hide Ids;
      assert SharedCache(assignedNodes, cache) by {
        IdsDecide(assignedNodes, assignedNodes, platform, cache);
      }
      if state.PendingAllocation? {
        if newState.Running? {
          TakeOver(now);
        }
      } else if state.PendingReconfiguration? {
        if newState.InReconfiguration? {
          TakeOver(now);
          AtEach(assignedNodes, cache, RemoveExpected, id);
        }
      }
      if newState.Completed? {
        AtEach(assignedNodes, cache, RemoveExpected, id);
        prediction := NoPrediction;
      }
      state := newState;
    }
  }

  function ErasedUpTo(s: seq<int>, xs: seq<int>, k: nat): seq<int>
    requires k <= |xs|
  {
    if k == 0 then s else RemoveFirst(ErasedUpTo(s, xs, k - 1), xs[k - 1])
  }

  lemma ErasedStep(s: seq<int>, xs: seq<int>, k: nat)
    requires k <= |xs|
    ensures ErasedUpTo(s, xs, 0) == s
    ensures k < |xs| ==> ErasedUpTo(s, xs, k + 1) == RemoveFirst(ErasedUpTo(s, xs, k), xs[k])
  {
  }

  lemma {:induction false} ErasedFromFront(s: seq<int>, xs: seq<int>, k: nat)
    requires 0 < k <= |xs|
    ensures ErasedUpTo(s, xs, k) == ErasedUpTo(RemoveFirst(s, xs[0]), xs[1..], k - 1)
  {
    if k > 1 {
      ErasedFromFront(s, xs, k - 1);
    }
  }

  lemma {:induction false} ErasedAll(s: seq<int>, xs: seq<int>)
    ensures ErasedUpTo(s, xs, |xs|) == RemoveEach(s, xs)
    decreases |xs|
  {
    if xs != [] {
      ErasedFromFront(s, xs, |xs|);
      ErasedAll(RemoveFirst(s, xs[0]), xs[1..]);
    }
  }

  /** Finding a node is finding its number. */
  lemma SearchById(ns: seq<Node>, i: nat, node: Node, platform: seq<Node>, cache: NodeCache)
    requires IsPlatform(platform, cache) && From(ns, platform) && node in platform
    requires i <= |ns| && node !in ns[..i] && (i < |ns| ==> ns[i] == node)
    ensures i < |ns| ==> From(ns[..i] + ns[i + 1..], platform) && Ids(ns[..i] + ns[i + 1..]) == RemoveFirst(Ids(ns), node.id)
    ensures i == |ns| ==> RemoveFirst(Ids(ns), node.id) == Ids(ns)
    ensures node in ns <==> i < |ns|
  {
    hide RemoveFirst;
    IdsDecide(ns[..i], ns[..i], platform, cache);
    IdsOfParts(ns, i);
    if i < |ns| {
      RemoveFirstAt(Ids(ns), i);
    } else {
      assert ns[..i] == ns;
    }
  }

  lemma IdsOfParts(ns: seq<Node>, i: nat)
    requires i <= |ns|
    ensures Ids(ns[..i]) == Ids(ns)[..i]
    ensures i < |ns| ==> Ids(ns[..i] + ns[i + 1..]) == Ids(ns)[..i] + Ids(ns)[i + 1..]
  {
  }
}
