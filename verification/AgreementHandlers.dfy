/** The agreement handlers as mutable objects: two maps and an insertion-order list, updated in
    place. Every method is proved against the operation on values; for the direct and the steal
    handler each keeps the two-way invariant. */
module AgreementHandlers {
  import opened Sequences
  import opened AgreementMaps

  class AgreementHandler {
    var jobToNodeIds: map<int, set<int>>
    var nodeToJobId: map<int, int>
    var nodeAgreementOrder: seq<int>

    constructor ()
      ensures View() == NO_AGREEMENTS && TwoWay(View())
    {
      jobToNodeIds, nodeToJobId, nodeAgreementOrder := map[], map[], [];
    }

    function View(): Agreements
      reads this
    {
      Agreements(jobToNodeIds, nodeToJobId, nodeAgreementOrder)
    }

    /** Erase a node from a job's set, and the job with its last node. */
    method EraseFromJob(j: int, n: int)
      modifies this`jobToNodeIds
      ensures jobToNodeIds == old(View()).EraseFromJob(j, n)
    {
      if j in jobToNodeIds {
        var rest := jobToNodeIds[j] - {n};
        if rest == {} {
          jobToNodeIds := jobToNodeIds - {j};
        } else {
          jobToNodeIds := jobToNodeIds[j := rest];
        }
      }
    }

    method AddOne(j: int, n: int)
      modifies this
      ensures View() == old(View()).AddOne(j, n)
    {
      if n in nodeToJobId {
        var oldJob := nodeToJobId[n];
        if oldJob != j {
          EraseFromJob(oldJob, n);
        }
      } else {
        nodeAgreementOrder := nodeAgreementOrder + [n];
      }
      jobToNodeIds := jobToNodeIds[j := (if j in jobToNodeIds then jobToNodeIds[j] else {}) + {n}];
      nodeToJobId := nodeToJobId[n := j];
    }

    method AddAgreement(j: int, ns: seq<int>)
      modifies this
      ensures View() == old(View()).Add(j, ns, |ns|)
      ensures TwoWay(old(View())) ==> TwoWay(View())
    {
      ghost var before := View();
      for i := 0 to |ns|
        invariant View() == before.Add(j, ns, i)
      {
        AddOne(j, ns[i]);
      }
      if TwoWay(before) { AddKeepsTwoWay(before, j, ns, |ns|); }
    }

    /** Search the node in the order list and erase it. */
    method EraseFromOrder(n: int)
      modifies this`nodeAgreementOrder
      ensures nodeAgreementOrder == RemoveFirst(old(nodeAgreementOrder), n)
    {
      hide RemoveFirst;
      var i := 0;
      while i < |nodeAgreementOrder| && nodeAgreementOrder[i] != n
        invariant i <= |nodeAgreementOrder| && n !in nodeAgreementOrder[..i]
      {
        i := i + 1;
      }
      if i < |nodeAgreementOrder| {
        RemoveFirstAt(nodeAgreementOrder, i);
        nodeAgreementOrder := nodeAgreementOrder[..i] + nodeAgreementOrder[i + 1..];
      } else {
        assert nodeAgreementOrder[..i] == nodeAgreementOrder;
      }
    }

    method RemoveNodeMapping(n: int, updateJobMap: bool)
      modifies this
      ensures View() == old(View()).RemoveNodeMapping(n, updateJobMap)
    {
      if updateJobMap {
        if n in nodeToJobId {
          EraseFromJob(nodeToJobId[n], n);
        }
      }
      nodeToJobId := nodeToJobId - {n};
      EraseFromOrder(n);
    }

    method PopAnyNodeMapping(updateJobMap: bool) returns (n: int)
      modifies this
      ensures View() == old(View()).PopAnyNodeMapping(updateJobMap)
      ensures n == if old(nodeAgreementOrder) == [] then -1 else old(nodeAgreementOrder)[|old(nodeAgreementOrder)| - 1]
    {
      if nodeAgreementOrder == [] {
        return -1;
      }
      n := nodeAgreementOrder[|nodeAgreementOrder| - 1];
      RemoveNodeMapping(n, updateJobMap);
    }

    method RemoveAgreement(j: int)
      modifies this
      ensures View() == old(View()).Remove(j)
      ensures TwoWay(old(View())) ==> TwoWay(View())
    {
      ghost var before := View();
      if j in jobToNodeIds {
        var ns := Ascending(jobToNodeIds[j]);
        for i := 0 to |ns|
          invariant View() == before.RemoveNodeMappings(ns, i)
        {
          RemoveNodeMapping(ns[i], false);
        }
        jobToNodeIds := jobToNodeIds - {j};
      }
      if TwoWay(before) { RemoveKeepsTwoWay(before, j); }
    }

    method SwapNodes(n1: int, n2: int)
      modifies this
      ensures View() == old(View()).Swap(n1, n2)
      ensures TwoWay(old(View())) ==> TwoWay(View())
    {
      ghost var before := View();
      if n1 !in nodeToJobId || n2 !in nodeToJobId {
        return;
      }
      var j1, j2 := nodeToJobId[n1], nodeToJobId[n2];
      if j1 == j2 {
        return;
      }
      if j1 in jobToNodeIds {
        jobToNodeIds := jobToNodeIds[j1 := jobToNodeIds[j1] - {n1} + {n2}];
      }
      if j2 in jobToNodeIds {
        jobToNodeIds := jobToNodeIds[j2 := jobToNodeIds[j2] - {n2} + {n1}];
      }
      nodeToJobId := nodeToJobId[n1 := j2][n2 := j1];
      if TwoWay(before) { SwapKeepsTwoWay(before, n1, n2); }
    }

    /** The job's reserved nodes that are in use, and the free ones that others have reserved. */
    method UsedAndOther(j: int, freeAgreementNodes: seq<int>) returns (used: seq<int>, other: seq<int>)
      requires j in jobToNodeIds
      ensures used == View().UsedReserved(j, freeAgreementNodes) && other == View().FreeOther(j, freeAgreementNodes)
    {
      var agreementNodes := jobToNodeIds[j];
      used, other := [], [];
      var mine := Ascending(agreementNodes);
      assert mine[..0] == [] && freeAgreementNodes[..0] == [];
      for i := 0 to |mine|
        invariant used == Filter(n => n !in freeAgreementNodes, mine[..i])
      {
        assert mine[..i + 1][..i] == mine[..i];
        if mine[i] !in freeAgreementNodes {
          used := used + [mine[i]];
        }
      }
      for i := 0 to |freeAgreementNodes|
        invariant other == Filter(n => n !in agreementNodes, freeAgreementNodes[..i])
      {
        assert freeAgreementNodes[..i + 1][..i] == freeAgreementNodes[..i];
        if freeAgreementNodes[i] !in agreementNodes {
          other := other + [freeAgreementNodes[i]];
        }
      }
      assert mine[..|mine|] == mine && freeAgreementNodes[..|freeAgreementNodes|] == freeAgreementNodes;
    }

    /** Free reserved nodes of other jobs are swapped against the job's own used ones. If the job
        has reserved no more nodes than are free and reserved, all its nodes are free afterwards;
        no job's reservation count and no reserved node is lost. */
    method StealAgreementNodes(j: int, freeAgreementNodes: seq<int>)
      modifies this
      ensures View() == old(View()).Steal(j, freeAgreementNodes)
      ensures TwoWay(old(View())) && Distinct(freeAgreementNodes) && (forall n :: n in freeAgreementNodes ==> n in old(nodeToJobId)) ==>
        TwoWay(View()) && SameReservations(old(View()), View()) &&
        (|old(View()).NodesOf(j)| <= |freeAgreementNodes| ==> forall n :: n in View().NodesOf(j) ==> n in freeAgreementNodes)
    {
      ghost var before := View();
      if TwoWay(before) && Distinct(freeAgreementNodes) && (forall n :: n in freeAgreementNodes ==> n in nodeToJobId) {
        StealSucceeds(before, j, freeAgreementNodes);
      }
      if j !in jobToNodeIds {
        return;
      }
      var used, other := UsedAndOther(j, freeAgreementNodes);
      var swapCount := if |used| < |other| then |used| else |other|;
      for i := 0 to swapCount
        invariant View() == before.SwapPairs(used, other, i)
      {
        SwapNodes(used[i], other[i]);
      }
    }

    /** Nodes for a pooled job: free reserved nodes first, then any free nodes. */
    method SelectNodesFromPool(j: int, free: seq<int>) returns (selected: seq<int>)
      ensures selected == View().SelectFromPool(j, free)
    {
      ghost var view := View();
      var withAgreement, without := [], [];
      assert free[..0] == [];
      for i := 0 to |free|
        invariant withAgreement == Filter(n => view.HasNode(n), free[..i]) && without == Filter(n => !view.HasNode(n), free[..i])
      {
        assert free[..i + 1][..i] == free[..i];
        if free[i] in nodeToJobId {
          withAgreement := withAgreement + [free[i]];
        } else {
          without := without + [free[i]];
        }
      }
      assert free[..|free|] == free;
      var needed := if j in jobToNodeIds then |jobToNodeIds[j]| else 0;
      selected := FirstOf(withAgreement, needed);
      var rest := FirstOf(without, needed - |selected|);
      selected := selected + rest;
    }

    /** The started job's nodes leave the pool, or any other mapping in their place. */
    method FinalizePoolAssignments(j: int, ns: seq<int>)
      modifies this
      ensures View() == old(View()).FinalizePool(j, ns)
    {
      hide Agreements.RemoveNodeMapping;
      hide Agreements.PopAnyNodeMapping;
      ghost var before := View();
      jobToNodeIds := jobToNodeIds - {j};
      for i := 0 to |ns|
        invariant View() == before.(jobToNodeIds := before.jobToNodeIds - {j}).ConsumePool(ns, i)
      {
        if ns[i] in nodeToJobId {
          RemoveNodeMapping(ns[i], false);
        } else if nodeToJobId != map[] {
          var _ := PopAnyNodeMapping(false);
        }
      }
    }
  }

  /** The first elements, at most `limit` of them. */
  method FirstOf(s: seq<int>, limit: nat) returns (r: seq<int>)
    ensures r == s[..if limit < |s| then limit else |s|]
  {
    r := [];
    for i := 0 to if limit < |s| then limit else |s|
      invariant r == s[..i]
    {
      r := r + [s[i]];
    }
  }
}
