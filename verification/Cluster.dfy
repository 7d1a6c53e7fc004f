/** The platform and the job queue as objects: the scheduler's handlers, the cache of free nodes,
    and the node allocator. Every handler is proved against its operation on values. */
module Cluster {
  import opened Sequences
  import opened RuntimePrediction
  import opened ClusterState
  import opened ClusterObjects
  import opened PowerSafety
  import opened ShutdownPolicy
  import opened SchedulingRound
  import Scheduler

  function NodeViews(ns: seq<Node>): (r: seq<NodeView>)
    reads ns
    ensures |r| == |ns| && forall k :: 0 <= k < |ns| ==> r[k] == ns[k].View()
  {
    if ns == [] then [] else [ns[0].View()] + NodeViews(ns[1..])
  }

  function JobViews(js: seq<Job>): (r: seq<JobView>)
    reads js
    ensures |r| == |js| && forall k :: 0 <= k < |js| ==> r[k] == js[k].View()
  {
    if js == [] then [] else [js[0].View()] + JobViews(js[1..])
  }

  lemma {:induction false} FilterSame(p: int -> bool, q: int -> bool, s: seq<int>)
    requires forall x :: x in s ==> p(x) == q(x)
    ensures Filter(p, s) == Filter(q, s)
  {
    if s != [] {
      assert forall x :: x in s[..|s| - 1] ==> x in s;
      FilterSame(p, q, s[..|s| - 1]);
      assert s[|s| - 1] in s;
    }
  }

  lemma SameFreeNodes(a: seq<NodeView>, b: seq<NodeView>)
    requires |a| == |b| && forall i :: 0 <= i < |a| ==> (a[i].state.NodeFree? <==> b[i].state.NodeFree?)
    ensures FreeNodes(a) == FreeNodes(b)
  {
    FilterSame(i => 0 <= i < |a| && a[i].state.NodeFree?, i => 0 <= i < |b| && b[i].state.NodeFree?, Range(|a|));
  }

  /** The free nodes among the first `k`. */
  ghost function FreeBelow(views: seq<NodeView>, k: nat): seq<int> {
    Filter(i => 0 <= i < |views| && views[i].state.NodeFree?, Range(k))
  }

  lemma FreeBelowSteps(views: seq<NodeView>, k: nat)
    requires k <= |views|
    ensures FreeBelow(views, 0) == [] && FreeBelow(views, |views|) == FreeNodes(views)
    ensures k < |views| ==> FreeBelow(views, k + 1) == if views[k].state.NodeFree? then FreeBelow(views, k) + [k] else FreeBelow(views, k)
  {
  }

  datatype AllocationOptions = AllocationOptions(requiredNodes: int, respectShutdownPolicy: bool, predictedRuntime: real, currentTime: real)

  predicate IsNodeAvailable(cfg: PolicyConfig, policy: PolicyState, options: AllocationOptions, v: NodeView, n: int) {
    && v.state.NodeFree?
    && (options.respectShutdownPolicy && options.predictedRuntime > 0.0 && options.currentTime >= 0.0 ==>
          CanNodeAcceptJob(cfg, policy, v.state, n, options.predictedRuntime, options.currentTime, false))
  }

  predicate IsCandidate(cfg: PolicyConfig, policy: PolicyState, options: AllocationOptions, exclude: seq<int>, views: seq<NodeView>, n: int) {
    0 <= n < |views| && n !in exclude && IsNodeAvailable(cfg, policy, options, views[n], n)
  }

  /** The free nodes that are eligible and not excluded, in list order. */
  function Candidates(cfg: PolicyConfig, policy: PolicyState, options: AllocationOptions, exclude: seq<int>, views: seq<NodeView>): seq<int> {
    Filter(n => IsCandidate(cfg, policy, options, exclude, views, n), FreeNodes(views))
  }

  function CandidatesAmong(cfg: PolicyConfig, policy: PolicyState, options: AllocationOptions, exclude: seq<int>, views: seq<NodeView>, ns: seq<int>): seq<int> {
    Filter(n => IsCandidate(cfg, policy, options, exclude, views, n), ns)
  }

  lemma CandidatesGrow(cfg: PolicyConfig, policy: PolicyState, options: AllocationOptions, exclude: seq<int>, views: seq<NodeView>, all: seq<int>, i: nat)
    requires i <= |all|
    ensures CandidatesAmong(cfg, policy, options, exclude, views, all[..0]) == []
    ensures var part := CandidatesAmong(cfg, policy, options, exclude, views, all[..i]);
      i < |all| ==> (CandidatesAmong(cfg, policy, options, exclude, views, all[..i + 1])
                     == if IsCandidate(cfg, policy, options, exclude, views, all[i]) then part + [all[i]] else part)
    ensures i == |all| && all == FreeNodes(views) ==> CandidatesAmong(cfg, policy, options, exclude, views, all[..i]) == Candidates(cfg, policy, options, exclude, views)
    ensures all == FreeNodes(views) ==> var whole, part := Candidates(cfg, policy, options, exclude, views), CandidatesAmong(cfg, policy, options, exclude, views, all[..i]);
      |part| <= |whole| && whole[..|part|] == part
  {
    FilterPrefix(n => IsCandidate(cfg, policy, options, exclude, views, n), all, i);
    if i < |all| { assert all[..i + 1][..i] == all[..i]; } else { assert all[..i] == all; }
  }

  /** A count of zero still yields the first candidate, a negative one nothing. */
  function FirstAvailable(candidates: seq<int>, required: int): seq<int> {
    if required < 0 || |candidates| < required then []
    else if required == 0 then candidates[..if candidates == [] then 0 else 1]
    else candidates[..required]
  }

  /** The search stops with the right prefix: at the end, or with just enough. */
  lemma StoppedRight(whole: seq<int>, part: seq<int>, required: int)
    requires |part| <= |whole| && whole[..|part|] == part
    requires (part == whole && (part == [] || required < 0 || |part| < required)) || (required >= 0 && |part| == if required == 0 then 1 else required)
    ensures FirstAvailable(whole, required) == if required < 0 || |part| < required then [] else part
  {
  }

  /** The search returns nothing exactly when there are fewer eligible free nodes that are not
      excluded than required, or none at all, and otherwise that many of them, but one if none is
      required; none that is skipped would have been eligible. A negative count yields nothing. */
  lemma SearchIsExact(cfg: PolicyConfig, policy: PolicyState, options: AllocationOptions, exclude: seq<int>, views: seq<NodeView>)
    ensures var all := Candidates(cfg, policy, options, exclude, views); var found := FirstAvailable(all, options.requiredNodes);
      var count := if options.requiredNodes == 0 then 1 else options.requiredNodes;
      && (found == [] <==> count < 0 || |all| < count)
      && (found != [] ==> |found| == count && found == all[..count])
      && Distinct(found)
      && (forall n :: n in all <==> 0 <= n < |views| && views[n].state.NodeFree? && n !in exclude && IsNodeAvailable(cfg, policy, options, views[n], n))
  {
    var all := Candidates(cfg, policy, options, exclude, views);
    FilterDistinct(n => IsCandidate(cfg, policy, options, exclude, views, n), FreeNodes(views));
    var count := if options.requiredNodes == 0 then 1 else options.requiredNodes;
    if 0 <= count <= |all| { DistinctPrefix(all, count); }
  }

  /** What the filter finds in a prefix comes first. */
  lemma {:induction false} FilterPrefix(p: int -> bool, s: seq<int>, k: nat)
    requires k <= |s|
    ensures |Filter(p, s[..k])| <= |Filter(p, s)| && Filter(p, s)[..|Filter(p, s[..k])|] == Filter(p, s[..k])
    decreases |s|
  {
    if k < |s| {
      FilterPrefix(p, s[..|s| - 1], k);
      assert s[..|s| - 1][..k] == s[..k];
    } else {
      assert s[..k] == s;
    }
  }

  lemma FilterGrow(p: int -> bool, s: seq<int>, k: nat)
    requires k <= |s|
    ensures Filter(p, s[..0]) == [] && (k == |s| ==> Filter(p, s[..k]) == Filter(p, s))
    ensures k < |s| ==> Filter(p, s[..k + 1]) == if p(s[k]) then Filter(p, s[..k]) + [s[k]] else Filter(p, s[..k])
  {
    if k < |s| { assert s[..k + 1][..k] == s[..k]; } else { assert s[..k] == s; }
  }

  lemma NoIds()
    ensures Ids([]) == []
  {
  }

  lemma IdsGrow(ns: seq<Node>, n: Node)
    ensures Ids(ns + [n]) == Ids(ns) + [n.id]
  {
  }

  lemma WithoutGrows(a: seq<int>, b: seq<int>, i: nat)
    requires i <= |a|
    ensures Without(a[..0], b) == [] && (i == |a| ==> Without(a[..i], b) == Without(a, b)) && (Distinct(a) ==> Distinct(Without(a, b)))
    ensures i < |a| ==> Without(a[..i + 1], b) == if a[i] !in b then Without(a[..i], b) + [a[i]] else Without(a[..i], b)
  {
    FilterGrow(n => n !in b, a, i);
    FilterDistinct(n => n !in b, a);
  }

  class Cluster {
    const cache: NodeCache
    const nodes: seq<Node>
    var jobQueue: seq<Job>

    /** A valid cache holds exactly the free nodes, in list order. */
    ghost predicate Coherent()
      reads this, nodes, cache
    {
      cache.cacheValid ==> From(cache.cachedFreeNodes, nodes) && Ids(cache.cachedFreeNodes) == FreeNodes(NodeViews(nodes))
    }

    ghost predicate Valid()
      reads this, nodes, cache, jobQueue
    {
      && IsPlatform(nodes, cache) && Coherent()
      && forall j :: 0 <= j < |jobQueue| ==> OwnJob(jobQueue[j], j)
    }

    ghost predicate OwnJob(job: Job, j: int)
      reads this, job
    {
      job.id == j && job.Valid() && job.platform == nodes && job.cache == cache
    }

    function View(): Sys
      reads this, nodes, jobQueue
    {
      Sys(NodeViews(nodes), JobViews(jobQueue))
    }

    /** The platform with all nodes free, and an empty queue. */
    constructor (nodeCount: nat)
      ensures Valid() && View() == Scheduler.NewWorld(nodeCount).sys
    {
      var shared := new NodeCache();
      var created := CreateNodes(nodeCount, shared);
      cache, nodes, jobQueue := shared, created, [];
      new;
      hide NodeViews;
      assert NodeViews(nodes) == Scheduler.NewNodes(nodeCount);
    }

    static method CreateNodes(nodeCount: nat, shared: NodeCache) returns (created: seq<Node>)
      ensures |created| == nodeCount && IsPlatform(created, shared)
      ensures forall k :: 0 <= k < nodeCount ==> fresh(created[k]) && created[k].View() == NEW_NODE
    {
      created := [];
      for i := 0 to nodeCount
        invariant |created| == i && IsPlatform(created, shared)
        invariant forall k :: 0 <= k < i ==> fresh(created[k]) && created[k].View() == NEW_NODE
      {
        var node := new Node(i, shared);
        created := created + [node];
      }
    }

    twostate predicate CacheNoticed()
      reads this, nodes, cache
    {
      && cache.cachedFreeNodes == old(cache.cachedFreeNodes)
      && (cache.cacheValid ==> old(cache.cacheValid) && forall i :: 0 <= i < |nodes| ==> nodes[i].SameFreeness())
    }

    /** A cache that was coherent for the nodes `before` still is when it noticed every change. */
    lemma StaysCoherent(before: seq<NodeView>)
      requires |before| == |nodes|
      requires cache.cacheValid ==> From(cache.cachedFreeNodes, nodes) && Ids(cache.cachedFreeNodes) == FreeNodes(before)
      requires cache.cacheValid ==> forall i :: 0 <= i < |nodes| ==> (nodes[i].state.NodeFree? <==> before[i].state.NodeFree?)
      ensures Coherent()
    {
      if cache.cacheValid {
        SameFreeNodes(before, NodeViews(nodes));
      }
    }

    ghost predicate AreNumbers(ns: seq<int>) {
      forall k :: 0 <= k < |ns| ==> 0 <= ns[k] < |nodes|
    }

    /** The nodes with the given numbers. */
    function NodesAt(ns: seq<int>): (r: seq<Node>)
      requires AreNumbers(ns)
      ensures |r| == |ns| && forall k :: 0 <= k < |ns| ==> r[k] == nodes[ns[k]]
    {
      seq(|ns|, k requires 0 <= k < |ns| => nodes[ns[k]])
    }

    lemma NodesAtAreNodes(ns: seq<int>)
      requires IsPlatform(nodes, cache) && AreNumbers(ns)
      ensures From(NodesAt(ns), nodes) && Ids(NodesAt(ns)) == ns && (Separate(NodesAt(ns)) <==> Distinct(ns)) && SharedCache(NodesAt(ns), cache)
      ensures forall i :: 0 <= i < |nodes| ==> (nodes[i] in NodesAt(ns) <==> i in ns)
    {
    }
  
    /** What one changed job and changed nodes make of the whole. */
    lemma OneJobChanged(before: Sys, j: int, v: JobView, after: seq<NodeView>)
      requires IsPlatform(nodes, cache) && Coherent() && |before.jobs| == |jobQueue| && 0 <= j < |jobQueue|
      requires forall k :: 0 <= k < |jobQueue| ==> OwnJob(jobQueue[k], k)
      requires jobQueue[j].View() == v && forall k :: 0 <= k < |jobQueue| && k != j ==> jobQueue[k].View() == before.jobs[k]
      requires |after| == |nodes| && forall i :: 0 <= i < |nodes| ==> nodes[i].View() == after[i]
      ensures Valid() && View() == Sys(after, before.jobs[j := v])
    {
    }

    lemma OthersAreOther(j: int)
      requires Valid() && 0 <= j < |jobQueue|
      ensures forall k :: 0 <= k < |jobQueue| && k != j ==> jobQueue[k] != jobQueue[j]
    {
    }

    /** A pending job is assigned nodes; the nodes are not told yet. */
    method AssignPending(job: Job, ns: seq<int>)
      requires IsPlatform(nodes, cache) && job.Valid() && job.platform == nodes && job.cache == cache
      requires job.state.Pending? && AreNumbers(ns)
      modifies job, nodes, cache`cacheValid
      ensures job.Valid() && job.View() == old(job.View()).(assignedNodes := old(job.View()).assignedNodes + ns)
      ensures (forall k :: 0 <= k < |nodes| ==> nodes[k].View() == old(nodes[k].View())) && CacheNoticed()
    {
      hide Ids;
      ghost var before := job.View();
      for i := 0 to |ns|
        invariant job.Valid() && job.View() == before.(assignedNodes := before.assignedNodes + ns[..i])
        invariant (forall k :: 0 <= k < |nodes| ==> nodes[k].View() == old(nodes[k].View())) && CacheNoticed()
      {
        AssignOneMore(before.assignedNodes, ns, i);
        job.AssignNode(nodes[ns[i]]);
      }
      assert ns[..|ns|] == ns;
    }

    /** A strategy gives a pending job its nodes. */
    method StartJob(j: int, ns: seq<int>, now: real)
      requires Valid() && 0 <= j < |jobQueue| && jobQueue[j].state.Pending? && AreNumbers(ns)
      modifies jobQueue[j], nodes, cache`cacheValid
      ensures Valid() && View() == old(View()).Start(j, ns)
    {
      hide NodeViews;
      hide JobViews;
      hide Ids;
      OthersAreOther(j);
      assert OwnJob(jobQueue[j], j);
      var job := jobQueue[j];
      ghost var sys, nodeViews := View(), NodeViews(nodes);
      AssignPending(job, ns);
      job.SetState(PendingAllocation, now);
      StaysCoherent(nodeViews);
      OneJobChanged(sys, j, job.View(), nodeViews);
    }

    /** The same operation at each listed node of the platform. */
    method PerformAt(ns: seq<Node>, op: NodeOp, j: int)
      requires IsPlatform(nodes, cache) && From(ns, nodes) && Separate(ns)
      modifies ns, cache`cacheValid
      ensures forall i :: 0 <= i < |nodes| ==> nodes[i].View() == AtNodes(old(NodeViews(nodes)), Ids(ns), op, j)[i]
      ensures CacheNoticed()
    {
      hide NodeViews;
      IdsDecide(ns, ns, nodes, cache);
      AtEach(ns, cache, op, j);
      forall i | 0 <= i < |nodes|
        ensures nodes[i].View() == AtNodes(old(NodeViews(nodes)), Ids(ns), op, j)[i] && (cache.cacheValid ==> nodes[i].SameFreeness())
      {
        assert nodes[i] in nodes && nodes[i].id == i;
        assert nodes[i] in ns <==> i in Ids(ns);
      }
    }

    /** An active job is assigned more nodes, which expect it. */
    method AssignActive(job: Job, ns: seq<int>)
      requires IsPlatform(nodes, cache) && job.Valid() && job.platform == nodes && job.cache == cache
      requires AreNumbers(ns) && Distinct(ns) && !job.state.Pending? && job.kind.Malleable?
      modifies job, nodes, cache`cacheValid
      ensures job.Valid() && job.View() == old(job.View()).(assignedNodes := old(job.View()).assignedNodes + ns) && CacheNoticed()
      ensures forall k :: 0 <= k < |nodes| ==> nodes[k].View() == AtNodes(old(NodeViews(nodes)), ns, Expect, job.id)[k]
    {
      hide Ids;
      hide NodeViews;
      ghost var before, nodeViews := job.View(), NodeViews(nodes);
      for i := 0 to |ns|
        invariant job.Valid() && job.View() == before.(assignedNodes := before.assignedNodes + ns[..i])
        invariant forall k :: 0 <= k < |nodes| ==> nodes[k].View() == if k in ns[..i] then Expect.On(nodeViews[k], job.id) else nodeViews[k]
        invariant CacheNoticed()
      {
        AssignOneMore(before.assignedNodes, ns, i);
        assert ns[..i + 1] == ns[..i] + [ns[i]] && ns[i] !in ns[..i];
        job.AssignNode(nodes[ns[i]]);
      }
      assert ns[..|ns|] == ns;
    }

    /** An active malleable job gets more nodes, which expect it. */
    method ExpandJobBy(j: int, ns: seq<int>)
      requires Valid() && 0 <= j < |jobQueue| && AreNumbers(ns) && Distinct(ns)
      requires !jobQueue[j].state.Pending? && jobQueue[j].kind.Malleable?
      modifies jobQueue[j], nodes, cache`cacheValid
      ensures Valid() && View() == old(View()).ExpandBy(j, ns)
    {
      hide NodeViews;
      hide JobViews;
      hide Ids;
      OthersAreOther(j);
      assert OwnJob(jobQueue[j], j);
      var job := jobQueue[j];
      ghost var sys, nodeViews := View(), NodeViews(nodes);
      AssignActive(job, ns);
      job.UpdateState();
      StaysCoherent(nodeViews);
      OneJobChanged(sys, j, job.View(), AtNodes(nodeViews, ns, Expect, j));
    }

    /** The job's own turn in giving up nodes, seen from the whole node list. */
    method TakeFrom(job: Job, ns: seq<int>)
      requires IsPlatform(nodes, cache) && AreNumbers(ns) && Distinct(ns) && ns != []
      requires job.Valid() && job.platform == nodes && job.cache == cache
      requires |job.assignedNodes| - |ns| >= job.nodesMin && forall n :: n in ns ==> n in Ids(job.assignedNodes)
      modifies job, nodes, cache`cacheValid
      ensures job.Valid() && job.View() == old(job.View()).RemoveNodes(ns) && CacheNoticed()
      ensures forall i :: 0 <= i < |nodes| ==> nodes[i].View() == AtNodes(old(NodeViews(nodes)), ns, RemoveExpected, job.id)[i]
    {
      hide NodeViews;
      hide RemoveEach;
      hide Ids;
      hide JobView.RemoveNodes;
      var list := NodesAt(ns);
      NodesAtAreNodes(ns);
      IdsDecide(job.assignedNodes, job.assignedNodes, nodes, cache);
      job.RemoveNodes(list);
      forall i | 0 <= i < |nodes|
        ensures nodes[i].View() == (if i in ns then RemoveExpected.On(old(nodes[i].View()), job.id) else old(nodes[i].View()))
        ensures cache.cacheValid ==> nodes[i].SameFreeness()
      {
        assert nodes[i] in nodes && nodes[i].id == i;
        if i in ns { assert nodes[i] in list && nodes[i].GaveUp(job.id, true); }
      }
    }

    /** An active job gives up nodes above its minimum. */
    method ShrinkJobBy(j: int, ns: seq<int>)
      requires Valid() && 0 <= j < |jobQueue| && AreNumbers(ns) && Distinct(ns) && ns != []
      requires |jobQueue[j].assignedNodes| - |ns| >= jobQueue[j].nodesMin
      requires forall n :: n in ns ==> n in Ids(jobQueue[j].assignedNodes)
      modifies jobQueue[j], nodes, cache`cacheValid
      ensures Valid() && View() == old(View()).ShrinkBy(j, ns)
    {
      hide NodeViews;
      hide JobViews;
      hide JobView.RemoveNodes;
      OthersAreOther(j);
      assert OwnJob(jobQueue[j], j);
      var job := jobQueue[j];
      ghost var sys, nodeViews := View(), NodeViews(nodes);
      TakeFrom(job, ns);
      StaysCoherent(nodeViews);
      OneJobChanged(sys, j, job.View(), AtNodes(nodeViews, ns, RemoveExpected, j));
    }

    method AllocateAll(job: Job, now: real) returns (ranks: map<int, nat>, participants: nat)
      requires IsPlatform(nodes, cache) && job.Valid() && job.platform == nodes && job.cache == cache
      requires job.state.PendingAllocation? && job.assignedNodes != [] && Separate(job.assignedNodes)
      modifies job, nodes, cache`cacheValid
      ensures job.Valid() && job.View() == old(job.View()).SetState(Running, now) && CacheNoticed()
      ensures forall i :: 0 <= i < |nodes| ==> nodes[i].View() == AtNodes(old(NodeViews(nodes)), job.View().executingNodes, Allocate, job.id)[i]
      ensures Ranked(job.View().executingNodes, ranks, participants)
    {
      hide NodeViews;
      hide Ids;
      hide JobView.SetState;
      job.SetState(Running, now);
      IdsDecide(job.executingNodes, job.executingNodes, nodes, cache);
      ghost var same := NodeViews(nodes);
      assert same == old(NodeViews(nodes)) && CacheNoticed();
      PerformAt(job.executingNodes, Allocate, job.id);
      ranks := RankAll(Ids(job.executingNodes));
      participants := |job.executingNodes|;
    }

    /** Forward an allocation: the nodes take the job, numbered by rank. The barrier that they
        share waits for as many participants as there are ranks. */
    method ForwardJobAllocation(j: int, now: real) returns (ranks: map<int, nat>, participants: nat)
      requires Valid() && 0 <= j < |jobQueue| && jobQueue[j].state.PendingAllocation?
      requires jobQueue[j].assignedNodes != [] && Separate(jobQueue[j].assignedNodes)
      modifies jobQueue[j], nodes, cache`cacheValid
      ensures Valid() && View() == old(View()).ForwardAllocation(j, now)
      ensures Ranked(View().jobs[j].executingNodes, ranks, participants)
    {
      hide NodeViews;
      hide JobViews;
      hide Ids;
      hide JobView.SetState;
      hide Ranked;
      OthersAreOther(j);
      assert OwnJob(jobQueue[j], j);
      ghost var sys, nodeViews := View(), NodeViews(nodes);
      ranks, participants := AllocateAll(jobQueue[j], now);
      StaysCoherent(nodeViews);
      OneJobChanged(sys, j, jobQueue[j].View(), AtNodes(nodeViews, jobQueue[j].View().executingNodes, Allocate, j));
    }

    /** Setting the state, seen from the whole node list: taking over or completing makes the
        assigned nodes stop expecting the job. */
    method SetJobState(job: Job, newState: JobState, now: real)
      requires IsPlatform(nodes, cache) && job.Valid() && job.platform == nodes && job.cache == cache
      requires job.Releases(newState) && Separate(job.assignedNodes)
      modifies job, nodes, cache`cacheValid
      ensures job.Valid() && job.View() == old(job.View()).SetState(newState, now) && CacheNoticed()
      ensures job.assignedNodes == old(job.assignedNodes)
      ensures job.executingNodes == if old(job.TakesOver(newState)) then job.assignedNodes else old(job.executingNodes)
      ensures forall i :: 0 <= i < |nodes| ==> nodes[i].View() == AtNodes(old(NodeViews(nodes)), Ids(job.assignedNodes), RemoveExpected, job.id)[i]
    {
      hide NodeViews;
      hide Ids;
      hide JobView.SetState;
      IdsDecide(job.assignedNodes, job.assignedNodes, nodes, cache);
      job.SetState(newState, now);
      forall i | 0 <= i < |nodes|
        ensures nodes[i].View() == (if i in Ids(job.assignedNodes) then RemoveExpected.On(old(nodes[i].View()), job.id) else old(nodes[i].View()))
        ensures cache.cacheValid ==> nodes[i].SameFreeness()
      {
        assert nodes[i] in nodes && nodes[i].id == i;
        if i in Ids(job.assignedNodes) { assert nodes[i] in job.assignedNodes && nodes[i].GaveUp(job.id, true); }
      }
    }

    /** The nodes of `ns` that are not among `others`, in order. */
    method NodesWithout(ns: seq<Node>, others: seq<Node>) returns (r: seq<Node>)
      requires IsPlatform(nodes, cache) && From(ns, nodes) && From(others, nodes)
      ensures From(r, nodes) && Ids(r) == Without(Ids(ns), Ids(others))
      ensures Separate(ns) ==> Separate(r)
    {
      hide Without;
      hide Ids;
      r := [];
      assert Ids(r) == [] by { NoIds(); }
      WithoutGrows(Ids(ns), Ids(others), 0);
      for i := 0 to |ns|
        invariant From(r, nodes) && Ids(r) == Without(Ids(ns)[..i], Ids(others))
      {
        WithoutGrows(Ids(ns), Ids(others), i);
        IdsGrow(r, ns[i]);
        assert ns[i] in others <==> Ids(ns)[i] in Ids(others) by { IsAmong(ns[i], others); }
        if ns[i] !in others {
          r := r + [ns[i]];
        }
      }
      WithoutGrows(Ids(ns), Ids(others), |ns|);
      SeparateByIds(ns, r);
    }

    lemma IsAmong(n: Node, ns: seq<Node>)
      requires IsPlatform(nodes, cache) && From(ns, nodes) && n in nodes
      ensures n in ns <==> n.id in Ids(ns)
    {
    }

    lemma SeparateByIds(ns: seq<Node>, r: seq<Node>)
      requires IsPlatform(nodes, cache) && From(ns, nodes) && From(r, nodes) && (Distinct(Ids(ns)) ==> Distinct(Ids(r)))
      ensures Separate(ns) ==> Separate(r)
    {
    }

    method ReconfigureAll(job: Job, now: real)
      returns (ranks: map<int, nat>, participants: nat, expandRanks: map<int, nat>, expandParticipants: nat)
      requires IsPlatform(nodes, cache) && job.Valid() && job.platform == nodes && job.cache == cache
      requires job.state.PendingReconfiguration? && job.assignedNodes != []
      requires Separate(job.assignedNodes) && Separate(job.executingNodes)
      modifies job, nodes, cache`cacheValid
      ensures job.Valid() && job.View() == old(job.View()).SetState(InReconfiguration, now) && CacheNoticed()
      ensures var v := old(job.View());
        forall i :: 0 <= i < |nodes| ==>
          nodes[i].View() == ReconfigureNodes(old(NodeViews(nodes)), v.executingNodes, v.assignedNodes, job.View().executingNodes, job.id)[i]
      ensures Ranked(job.View().executingNodes, ranks, participants)
      ensures Ranked(Without(job.View().executingNodes, old(job.View()).executingNodes), expandRanks, expandParticipants)
    {
      hide NodeViews;
      hide Ids;
      hide JobView.SetState;
      hide Without;
      var previousNodes := job.executingNodes;
      SetJobState(job, InReconfiguration, now);
      ghost var released := NodeViews(nodes);
      IdsDecide(job.executingNodes, job.executingNodes, nodes, cache);
      ranks := RankAll(Ids(job.executingNodes));
      participants := |job.executingNodes|;
      assert released == AtNodes(old(NodeViews(nodes)), Ids(job.assignedNodes), RemoveExpected, job.id);
      expandRanks, expandParticipants := MoveOver(job.id, previousNodes, job.executingNodes);
    }

    /** New nodes are expanded onto under a barrier of their own, and released nodes complete the job. */
    method MoveOver(j: int, previous: seq<Node>, next: seq<Node>) returns (expandRanks: map<int, nat>, expandParticipants: nat)
      requires IsPlatform(nodes, cache) && From(previous, nodes) && From(next, nodes) && Separate(previous) && Separate(next)
      modifies nodes, cache`cacheValid
      ensures var expanded := AtNodes(old(NodeViews(nodes)), Without(Ids(next), Ids(previous)), Expand, j);
        forall i :: 0 <= i < |nodes| ==> nodes[i].View() == AtNodes(expanded, Without(Ids(previous), Ids(next)), Complete, j)[i]
      ensures CacheNoticed() && Ranked(Without(Ids(next), Ids(previous)), expandRanks, expandParticipants)
    {
      hide NodeViews;
      hide Ids;
      hide Without;
      hide Ranked;
      var expandNodes := NodesWithout(next, previous);
      IdsDecide(expandNodes, expandNodes, nodes, cache);
      expandRanks := RankAll(Ids(expandNodes));
      expandParticipants := |expandNodes|;
      PerformAt(expandNodes, Expand, j);
      ghost var expanded := NodeViews(nodes);
      assert expanded == AtNodes(old(NodeViews(nodes)), Ids(expandNodes), Expand, j);
      var leftNodes := NodesWithout(previous, next);
      PerformAt(leftNodes, Complete, j);
    }

    /** The job takes over its assigned nodes: retained nodes are told their new rank, new nodes
        are expanded onto, and released nodes complete the job. */
    method HandleReconfiguration(j: int, now: real)
      returns (ranks: map<int, nat>, participants: nat, expandRanks: map<int, nat>, expandParticipants: nat)
      requires Valid() && 0 <= j < |jobQueue| && jobQueue[j].state.PendingReconfiguration?
      requires jobQueue[j].assignedNodes != [] && Separate(jobQueue[j].assignedNodes) && Separate(jobQueue[j].executingNodes)
      modifies jobQueue[j], nodes, cache`cacheValid
      ensures Valid() && View() == old(View()).Reconfigure(j, now)
      ensures Ranked(View().jobs[j].executingNodes, ranks, participants)
      ensures Ranked(Without(View().jobs[j].executingNodes, old(View()).jobs[j].executingNodes), expandRanks, expandParticipants)
    {
      hide NodeViews;
      hide JobViews;
      hide Ids;
      hide JobView.SetState;
      hide ReconfigureNodes;
      hide Ranked;
      OthersAreOther(j);
      assert OwnJob(jobQueue[j], j);
      ghost var sys, v, nodeViews := View(), jobQueue[j].View(), NodeViews(nodes);
      ranks, participants, expandRanks, expandParticipants := ReconfigureAll(jobQueue[j], now);
      StaysCoherent(nodeViews);
      OneJobChanged(sys, j, jobQueue[j].View(),
                    ReconfigureNodes(nodeViews, v.executingNodes, v.assignedNodes, jobQueue[j].View().executingNodes, j));
    }

    method HandleSchedulingPoint(j: int, now: real) returns (reconfigured: bool)
      requires Valid() && 0 <= j < |jobQueue|
      requires jobQueue[j].assignedNodes != [] && Separate(jobQueue[j].assignedNodes) && Separate(jobQueue[j].executingNodes)
      modifies jobQueue[j], nodes, cache`cacheValid
      ensures Valid() && View() == old(View()).SchedulingPoint(j, now)
      ensures reconfigured <==> old(jobQueue[j].state.PendingReconfiguration?)
    {
      assert OwnJob(jobQueue[j], j);
      reconfigured := jobQueue[j].state.PendingReconfiguration?;
      if reconfigured {
        var _, _, _, _ := HandleReconfiguration(j, now);
      }
    }

    method CompleteAll(job: Job, now: real)
      requires IsPlatform(nodes, cache) && job.Valid() && job.platform == nodes && job.cache == cache
      requires Separate(job.assignedNodes) && Separate(job.executingNodes)
      modifies job, nodes, cache`cacheValid
      ensures job.Valid() && job.View() == old(job.View()).SetState(Completed, now) && CacheNoticed()
      ensures var v := old(job.View());
        forall i :: 0 <= i < |nodes| ==>
          nodes[i].View() == AtNodes(AtNodes(old(NodeViews(nodes)), v.executingNodes, Complete, job.id), v.assignedNodes, RemoveExpected, job.id)[i]
    {
      hide NodeViews;
      hide Ids;
      hide JobView.SetState;
      PerformAt(job.executingNodes, Complete, job.id);
      ghost var done := NodeViews(nodes);
      assert done == AtNodes(old(NodeViews(nodes)), Ids(job.executingNodes), Complete, job.id);
      SetJobState(job, Completed, now);
    }

    method HandleProcessedWorkload(j: int, now: real)
      requires Valid() && 0 <= j < |jobQueue| && Separate(jobQueue[j].assignedNodes) && Separate(jobQueue[j].executingNodes)
      modifies jobQueue[j], nodes, cache`cacheValid
      ensures Valid() && View() == old(View()).ProcessedWorkload(j, now)
    {
      hide NodeViews;
      hide JobViews;
      hide Ids;
      hide JobView.SetState;
      OthersAreOther(j);
      assert OwnJob(jobQueue[j], j);
      ghost var sys, v, nodeViews := View(), jobQueue[j].View(), NodeViews(nodes);
      CompleteAll(jobQueue[j], now);
      StaysCoherent(nodeViews);
      OneJobChanged(sys, j, jobQueue[j].View(), AtNodes(AtNodes(nodeViews, v.executingNodes, Complete, j), v.assignedNodes, RemoveExpected, j));
    }

    /** Rank 0 of an active job reports that it runs. */
    method HandleApplicationRunning(j: int, now: real)
      requires Valid() && 0 <= j < |jobQueue| && jobQueue[j].View().Active()
      modifies jobQueue[j], nodes, cache`cacheValid
      ensures Valid() && View() == old(View()).ApplicationRunning(j, now)
    {
      hide NodeViews;
      hide JobViews;
      hide Ids;
      OthersAreOther(j);
      assert OwnJob(jobQueue[j], j);
      ghost var sys, nodeViews := View(), NodeViews(nodes);
      jobQueue[j].SetState(Running, now);
      StaysCoherent(nodeViews);
      OneJobChanged(sys, j, jobQueue[j].View(), nodeViews);
    }

    /** A submitted job is numbered and queued. */
    method HandleJobSubmit(v: JobView)
      requires Valid()
      modifies this`jobQueue
      ensures Valid() && View() == old(View()).Submit(v)
      ensures |jobQueue| == |old(jobQueue)| + 1 && jobQueue[..|old(jobQueue)|] == old(jobQueue) && fresh(jobQueue[|old(jobQueue)|])
    {
      ghost var before := View();
      var job := new Job(|jobQueue|, v, nodes, cache);
      jobQueue := jobQueue + [job];
      forall j | 0 <= j < |jobQueue| ensures OwnJob(jobQueue[j], j) {
        if j < |jobQueue| - 1 { assert old(OwnJob(jobQueue[j], j)); }
      }
      assert View() == before.Submit(v);
    }

    // ---- Free nodes --------------------------------------------------------------------------

    method RebuildCache()
      requires IsPlatform(nodes, cache)
      modifies cache
      ensures cache.cacheValid && Coherent()
    {
      hide FreeBelow;
      hide NodeViews;
      hide Ids;
      hide FreeNodes;
      ghost var views := NodeViews(nodes);
      var free: seq<Node> := [];
      assert Ids(free) == [] by { NoIds(); }
      FreeBelowSteps(views, 0);
      for i := 0 to |nodes|
        invariant From(free, nodes) && Ids(free) == FreeBelow(views, i)
      {
        FreeBelowSteps(views, i);
        IdsGrow(free, nodes[i]);
        if nodes[i].state.NodeFree? {
          free := free + [nodes[i]];
        }
      }
      FreeBelowSteps(views, |views|);
      cache.cachedFreeNodes := free;
      cache.cacheValid := true;
    }

    /** The free nodes in list order, from the cache or by a full scan. */
    method GetFreeNodes() returns (free: seq<Node>)
      requires IsPlatform(nodes, cache) && Coherent()
      modifies cache
      ensures Coherent() && cache.cacheValid && free == cache.cachedFreeNodes
      ensures From(free, nodes) && Ids(free) == FreeNodes(NodeViews(nodes))
    {
      if !cache.cacheValid {
        RebuildCache();
      }
      free := cache.cachedFreeNodes;
    }

    /** All nodes check their scheduled transition. */
    method CheckScheduledTransitions(now: real)
      requires Valid()
      modifies nodes, cache`cacheValid
      ensures Valid() && View() == old(View()).(nodes := FireTransitions(old(View()).nodes, now))
    {
      hide NodeViews;
      hide JobViews;
      ghost var views := NodeViews(nodes);
      for i := 0 to |nodes|
        invariant forall k :: 0 <= k < |nodes| ==> nodes[k].View() == if k < i then views[k].CheckScheduledTransition(now) else views[k]
        invariant CacheNoticed()
      {
        nodes[i].CheckScheduledTransition(now);
      }
      StaysCoherent(views);
      assert NodeViews(nodes) == FireTransitions(views, now);
    }

    /** The predictions of the running jobs are brought up to date. */
    method UpdateRunningPredictions(now: real)
      requires Valid()
      modifies jobQueue
      ensures Valid() && View() == Scheduler.UpdateRunningPredictions(old(View()), now)
    {
      hide NodeViews;
      hide JobViews;
      ghost var views := JobViews(jobQueue);
      for j := 0 to |jobQueue|
        invariant forall k :: 0 <= k < |jobQueue| ==> OwnJob(jobQueue[k], k)
        invariant forall k :: 0 <= k < |jobQueue| ==>
          (jobQueue[k].View() == if k < j && views[k].state.Running? then views[k].(prediction := UpdateProgress(views[k].profile, views[k].prediction, now)) else views[k])
      {
        var job := jobQueue[j];
        assert forall k :: 0 <= k < |jobQueue| && k != j ==> jobQueue[k] != job by {
          assert forall k :: 0 <= k < |jobQueue| ==> jobQueue[k].id == k by {
            forall k | 0 <= k < |jobQueue| ensures jobQueue[k].id == k { assert OwnJob(jobQueue[k], k); }
          }
        }
        if job.state.Running? {
          job.prediction := UpdateProgress(job.profile, job.prediction, now);
        }
      }
      assert JobViews(jobQueue) == Scheduler.UpdateRunningPredictions(old(View()), now).jobs;
    }

    /** Search the listed free nodes in order, and stop with just enough. */
    method SearchAmong(cfg: PolicyConfig, policy: PolicyState, options: AllocationOptions, exclude: seq<int>, free: seq<Node>) returns (found: seq<Node>)
      requires IsPlatform(nodes, cache) && From(free, nodes) && Ids(free) == FreeNodes(NodeViews(nodes))
      ensures From(found, nodes)
      ensures Ids(found) == FirstAvailable(Candidates(cfg, policy, options, exclude, NodeViews(nodes)), options.requiredNodes)
    {
      hide NodeViews;
      hide FreeNodes;
      hide CandidatesAmong;
      hide IsNodeAvailable;
      hide Candidates;
      hide FirstAvailable;
      ghost var views := NodeViews(nodes);
      ghost var all := Ids(free);
      found := [];
      var i := 0;
      CandidatesGrow(cfg, policy, options, exclude, views, all, 0);
      while i < |free| && (found == [] || options.requiredNodes < 0 || |found| < options.requiredNodes)
        invariant i <= |free| && From(found, nodes) && Ids(found) == CandidatesAmong(cfg, policy, options, exclude, views, all[..i])
        invariant options.requiredNodes >= 0 ==> |found| <= if options.requiredNodes == 0 then 1 else options.requiredNodes
      {
        CandidatesGrow(cfg, policy, options, exclude, views, all, i);
        assert free[i] in nodes && free[i].id == all[i] && free[i].View() == views[free[i].id];
        if free[i].id !in exclude && IsNodeAvailable(cfg, policy, options, free[i].View(), free[i].id) {
          found := found + [free[i]];
        }
        i := i + 1;
      }
      CandidatesGrow(cfg, policy, options, exclude, views, all, i);
      StoppedRight(Candidates(cfg, policy, options, exclude, views), Ids(found), options.requiredNodes);
      if options.requiredNodes < 0 || |found| < options.requiredNodes {
        found := [];
      }
    }

    /** Search free nodes in list order, from the cache. */
    method FindFreeNodes(cfg: PolicyConfig, policy: PolicyState, options: AllocationOptions, exclude: seq<int>) returns (found: seq<Node>)
      requires IsPlatform(nodes, cache) && Coherent()
      modifies cache
      ensures Coherent() && From(found, nodes)
      ensures Ids(found) == FirstAvailable(Candidates(cfg, policy, options, exclude, NodeViews(nodes)), options.requiredNodes)
    {
      hide NodeViews;
      hide Candidates;
      hide FirstAvailable;
      var free := GetFreeNodes();
      found := SearchAmong(cfg, policy, options, exclude, free);
    }
  }

  /** The listed nodes have the ranks 0, 1, and so on, nobody else has one, and a barrier for as
      many participants waits for exactly them. */
  ghost predicate Ranked(ns: seq<int>, ranks: map<int, nat>, participants: nat) {
    && participants == |ns| && (forall n :: n in ranks <==> n in ns)
    && forall k :: 0 <= k < |ns| ==> ns[k] in ranks && ranks[ns[k]] == k
  }

  method RankAll(ns: seq<int>) returns (ranks: map<int, nat>)
    requires Distinct(ns)
    ensures Ranked(ns, ranks, |ns|)
  {
    ranks := map[];
    for rank := 0 to |ns|
      invariant forall n :: n in ranks <==> n in ns[..rank]
      invariant forall k :: 0 <= k < rank ==> ns[k] in ranks && ranks[ns[k]] == k
    {
      assert ns[..rank + 1] == ns[..rank] + [ns[rank]];
      ranks := ranks[ns[rank] := rank];
    }
    assert ns[..|ns|] == ns;
  }

  lemma AssignOneMore(before: seq<int>, ns: seq<int>, i: nat)
    requires i < |ns|
    ensures before + ns[..i + 1] == (before + ns[..i]) + [ns[i]]
  {
  }
}
