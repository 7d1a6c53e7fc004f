/** The reservations of an agreement handler as values: job -> reserved nodes, node -> job, and
    the insertion order of the reserved nodes; with every operation the handlers perform on them. */
module AgreementMaps {
  import opened Sequences

  datatype Agreements = Agreements(jobToNodeIds: map<int, set<int>>, nodeToJobId: map<int, int>, order: seq<int>)
  {
    predicate HasJob(j: int) {
      j in jobToNodeIds
    }

    predicate HasNode(n: int) {
      n in nodeToJobId
    }

    function NodesOf(j: int): set<int> {
      if j in jobToNodeIds then jobToNodeIds[j] else {}
    }

    /** Erase a node from a job's set, and the job with its last node. */
    function EraseFromJob(j: int, n: int): map<int, set<int>> {
      if j !in jobToNodeIds then jobToNodeIds
      else if jobToNodeIds[j] - {n} == {} then jobToNodeIds - {j}
      else jobToNodeIds[j := jobToNodeIds[j] - {n}]
    }

    function AddOne(j: int, n: int): Agreements {
      var jobs := if n in nodeToJobId && nodeToJobId[n] != j then EraseFromJob(nodeToJobId[n], n) else jobToNodeIds;
      Agreements(jobs[j := (if j in jobs then jobs[j] else {}) + {n}], nodeToJobId[n := j],
                 if n in nodeToJobId then order else order + [n])
    }

    /** `addAgreement`, for the first `k` listed nodes. */
    function Add(j: int, ns: seq<int>, k: nat): Agreements
      requires k <= |ns|
    {
      if k == 0 then this else Add(j, ns, k - 1).AddOne(j, ns[k - 1])
    }

    function RemoveNodeMapping(n: int, updateJobMap: bool): Agreements {
      Agreements(if updateJobMap && n in nodeToJobId then EraseFromJob(nodeToJobId[n], n) else jobToNodeIds,
                 nodeToJobId - {n}, RemoveFirst(order, n))
    }

    function RemoveNodeMappings(ns: seq<int>, k: nat): Agreements
      requires k <= |ns|
    {
      if k == 0 then this else RemoveNodeMappings(ns, k - 1).RemoveNodeMapping(ns[k - 1], false)
    }

    function Remove(j: int): Agreements {
      if j !in jobToNodeIds then this
      else
        var ns := Ascending(jobToNodeIds[j]);
        var a := RemoveNodeMappings(ns, |ns|);
        a.(jobToNodeIds := a.jobToNodeIds - {j})
    }

    function PopAnyNodeMapping(updateJobMap: bool): Agreements {
      if order == [] then this else RemoveNodeMapping(order[|order| - 1], updateJobMap)
    }

    function Swap(n1: int, n2: int): Agreements {
      if n1 !in nodeToJobId || n2 !in nodeToJobId || nodeToJobId[n1] == nodeToJobId[n2] then this
      else
        var j1, j2 := nodeToJobId[n1], nodeToJobId[n2];
        var jobs1 := if j1 in jobToNodeIds then jobToNodeIds[j1 := jobToNodeIds[j1] - {n1} + {n2}] else jobToNodeIds;
        var jobs2 := if j2 in jobs1 then jobs1[j2 := jobs1[j2] - {n2} + {n1}] else jobs1;
        this.(jobToNodeIds := jobs2, nodeToJobId := nodeToJobId[n1 := j2][n2 := j1])
    }

    function SwapPairs(ns1: seq<int>, ns2: seq<int>, k: nat): Agreements
      requires k <= |ns1| && k <= |ns2|
    {
      if k == 0 then this else SwapPairs(ns1, ns2, k - 1).Swap(ns1[k - 1], ns2[k - 1])
    }

    /** The job's reserved nodes that are not free, in ascending order. */
    function UsedReserved(j: int, free: seq<int>): seq<int> {
      Filter(n => n !in free, Ascending(NodesOf(j)))
    }

    /** The free reserved nodes that belong to other jobs, in list order. */
    function FreeOther(j: int, free: seq<int>): seq<int> {
      Filter(n => n !in NodesOf(j), free)
    }

    function SwapCount(j: int, free: seq<int>): (k: nat)
      ensures k <= |UsedReserved(j, free)| && k <= |FreeOther(j, free)|
    {
      if |UsedReserved(j, free)| < |FreeOther(j, free)| then |UsedReserved(j, free)| else |FreeOther(j, free)|
    }

    function Steal(j: int, free: seq<int>): Agreements {
      if j !in jobToNodeIds then this
      else SwapPairs(UsedReserved(j, free), FreeOther(j, free), SwapCount(j, free))
    }

    /** `finalizePoolAssignments` after the job's entry is gone, for the first `k` nodes. */
    function ConsumePool(ns: seq<int>, k: nat): Agreements
      requires k <= |ns|
    {
      if k == 0 then this
      else
        var a := ConsumePool(ns, k - 1);
        if a.HasNode(ns[k - 1]) then a.RemoveNodeMapping(ns[k - 1], false)
        else if a.nodeToJobId != map[] then a.PopAnyNodeMapping(false)
        else a
    }

    function FinalizePool(j: int, ns: seq<int>): Agreements {
      this.(jobToNodeIds := jobToNodeIds - {j}).ConsumePool(ns, |ns|)
    }

    /** Nodes for a pooled job: free reserved nodes first, then other free nodes. */
    function SelectFromPool(j: int, free: seq<int>): seq<int> {
      var reserved, others := Filter(n => HasNode(n), free), Filter(n => !HasNode(n), free);
      var needed := |NodesOf(j)|;
      var first := reserved[..if needed < |reserved| then needed else |reserved|];
      first + others[..if needed - |first| < |others| then needed - |first| else |others|]
    }
  }

  const NO_AGREEMENTS := Agreements(map[], map[], [])

  // ---- The two-way invariant of the direct and the steal handler ---------------------------

  ghost predicate OrderEnumerates(a: Agreements) {
    Distinct(a.order) && forall n :: n in a.order <==> n in a.nodeToJobId
  }

  ghost predicate TwoWay(a: Agreements) {
    && (forall j :: j in a.jobToNodeIds ==> a.jobToNodeIds[j] != {})
    && (forall n :: n in a.nodeToJobId ==> a.nodeToJobId[n] in a.jobToNodeIds && n in a.jobToNodeIds[a.nodeToJobId[n]])
    && (forall j, n :: j in a.jobToNodeIds && n in a.jobToNodeIds[j] ==> n in a.nodeToJobId && a.nodeToJobId[n] == j)
    && OrderEnumerates(a)
  }

  lemma AddOneKeepsTwoWay(a: Agreements, j: int, n: int)
    requires TwoWay(a)
    ensures TwoWay(a.AddOne(j, n))
    ensures forall m :: m in a.AddOne(j, n).nodeToJobId <==> m in a.nodeToJobId || m == n
    ensures a.AddOne(j, n).nodeToJobId[n] == j
    ensures forall m :: m in a.nodeToJobId && m != n ==> a.AddOne(j, n).nodeToJobId[m] == a.nodeToJobId[m]
  {
    var b := a.AddOne(j, n);
    if n !in a.nodeToJobId {
      DistinctConcat(a.order, [n]);
    }
    forall k | k in b.jobToNodeIds ensures b.jobToNodeIds[k] != {} {
      if k == j { assert n in b.jobToNodeIds[k]; }
    }
    forall m | m in b.nodeToJobId ensures b.nodeToJobId[m] in b.jobToNodeIds && m in b.jobToNodeIds[b.nodeToJobId[m]] {
      if m != n {
        var k := a.nodeToJobId[m];
        assert m in a.jobToNodeIds[k] - {n};
      }
    }
  }

  /** Reserving nodes adds exactly those nodes, now mapped to the job; every other node keeps
      its job. */
  lemma {:induction false} AddKeepsTwoWay(a: Agreements, j: int, ns: seq<int>, k: nat)
    requires TwoWay(a) && k <= |ns|
    ensures TwoWay(a.Add(j, ns, k))
    ensures forall m :: m in a.Add(j, ns, k).nodeToJobId <==> m in a.nodeToJobId || m in ns[..k]
    ensures forall m :: m in ns[..k] ==> a.Add(j, ns, k).nodeToJobId[m] == j
    ensures forall m :: m in a.nodeToJobId && m !in ns[..k] ==> a.Add(j, ns, k).nodeToJobId[m] == a.nodeToJobId[m]
  {
    hide TwoWay;
    hide Agreements.AddOne;
    if k > 0 {
      AddKeepsTwoWay(a, j, ns, k - 1);
      AddOneKeepsTwoWay(a.Add(j, ns, k - 1), j, ns[k - 1]);
      assert ns[..k] == ns[..k - 1] + [ns[k - 1]];
    }
  }

  /** Under the two-way invariant a job's set is determined by the node map. */
  lemma SetsFromNodeMap(a: Agreements, j: int, n: int)
    requires TwoWay(a)
    ensures n in a.NodesOf(j) <==> n in a.nodeToJobId && a.nodeToJobId[n] == j
  {
  }

  lemma {:induction false} RemoveNodeMappingsEffect(a: Agreements, ns: seq<int>, k: nat)
    requires OrderEnumerates(a) && k <= |ns|
    ensures var b := a.RemoveNodeMappings(ns, k);
      && OrderEnumerates(b) && b.jobToNodeIds == a.jobToNodeIds
      && (forall m :: m in b.nodeToJobId <==> m in a.nodeToJobId && m !in ns[..k])
      && (forall m :: m in b.nodeToJobId ==> b.nodeToJobId[m] == a.nodeToJobId[m])
  {
    if k > 0 {
      RemoveNodeMappingsEffect(a, ns, k - 1);
      assert ns[..k] == ns[..k - 1] + [ns[k - 1]];
    }
  }

  lemma RemoveEffect(a: Agreements, j: int)
    requires OrderEnumerates(a)
    ensures OrderEnumerates(a.Remove(j)) && a.Remove(j).jobToNodeIds == a.jobToNodeIds - {j}
    ensures forall n :: n in a.Remove(j).nodeToJobId <==> n in a.nodeToJobId && n !in a.NodesOf(j)
    ensures forall n :: n in a.Remove(j).nodeToJobId ==> a.Remove(j).nodeToJobId[n] == a.nodeToJobId[n]
  {
    if j in a.jobToNodeIds {
      var ns := Ascending(a.jobToNodeIds[j]);
      AscendingEnumerates(a.jobToNodeIds[j]);
      RemoveNodeMappingsEffect(a, ns, |ns|);
      assert ns[..|ns|] == ns;
    } else {
      assert a.jobToNodeIds - {j} == a.jobToNodeIds;
    }
  }

  /** Removing a job's agreement frees exactly its nodes and touches no other job. */
  lemma RemoveKeepsTwoWay(a: Agreements, j: int)
    requires TwoWay(a)
    ensures TwoWay(a.Remove(j))
    ensures forall n :: n in a.Remove(j).nodeToJobId <==> n in a.nodeToJobId && n !in a.NodesOf(j)
    ensures forall k :: k in a.Remove(j).jobToNodeIds <==> k in a.jobToNodeIds && k != j
    ensures forall k :: k in a.Remove(j).jobToNodeIds ==> a.Remove(j).jobToNodeIds[k] == a.jobToNodeIds[k]
  {
    hide Agreements.Remove;
    hide OrderEnumerates;
    RemoveEffect(a, j);
    var b := a.Remove(j);
    forall n | n in b.nodeToJobId ensures b.nodeToJobId[n] in b.jobToNodeIds && n in b.jobToNodeIds[b.nodeToJobId[n]] {
      assert n in a.nodeToJobId && n !in a.NodesOf(j);
    }
    forall x, n | x in b.jobToNodeIds && n in b.jobToNodeIds[x] ensures n in b.nodeToJobId && b.nodeToJobId[n] == x {
      assert n in a.jobToNodeIds[x] && a.nodeToJobId[n] == x;
    }
  }

  /** Two states of the maps with the same reserved nodes, order, jobs and reservation counts. */
  ghost predicate SameReservations(a: Agreements, b: Agreements) {
    && b.order == a.order
    && (forall n :: n in b.nodeToJobId <==> n in a.nodeToJobId)
    && (forall x :: x in b.jobToNodeIds <==> x in a.jobToNodeIds)
    && (forall x :: x in a.jobToNodeIds ==> |b.NodesOf(x)| == |a.NodesOf(x)|)
  }

  function OwnerOf(a: Agreements, n: int): int {
    if n in a.nodeToJobId then a.nodeToJobId[n] else -1
  }

  lemma SwapEffect(a: Agreements, n1: int, n2: int)
    requires TwoWay(a) && n1 in a.nodeToJobId && n2 in a.nodeToJobId && a.nodeToJobId[n1] != a.nodeToJobId[n2]
    ensures var j1, j2, b := a.nodeToJobId[n1], a.nodeToJobId[n2], a.Swap(n1, n2);
      && b.order == a.order && b.nodeToJobId == a.nodeToJobId[n1 := j2][n2 := j1]
      && (forall x :: x in b.jobToNodeIds <==> x in a.jobToNodeIds)
      && (forall x :: x in a.jobToNodeIds && x != j1 && x != j2 ==> b.jobToNodeIds[x] == a.jobToNodeIds[x])
      && j1 in a.jobToNodeIds && j2 in a.jobToNodeIds
      && b.jobToNodeIds[j1] == a.jobToNodeIds[j1] - {n1} + {n2} && b.jobToNodeIds[j2] == a.jobToNodeIds[j2] - {n2} + {n1}
  {
  }

  lemma SwapKeepsSizes(a: Agreements, n1: int, n2: int)
    requires TwoWay(a) && n1 in a.nodeToJobId && n2 in a.nodeToJobId && a.nodeToJobId[n1] != a.nodeToJobId[n2]
    ensures SameReservations(a, a.Swap(n1, n2))
    ensures forall n :: OwnerOf(a.Swap(n1, n2), n)
                     == if n == n1 then OwnerOf(a, n2) else if n == n2 then OwnerOf(a, n1) else OwnerOf(a, n)
  {
    hide Agreements.Swap;
    SwapEffect(a, n1, n2);
    var j1, j2 := a.nodeToJobId[n1], a.nodeToJobId[n2];
    assert n1 in a.jobToNodeIds[j1] && n2 !in a.jobToNodeIds[j1] && n2 in a.jobToNodeIds[j2] && n1 !in a.jobToNodeIds[j2];
    assert |a.jobToNodeIds[j1] - {n1} + {n2}| == |a.jobToNodeIds[j1]|;
    assert |a.jobToNodeIds[j2] - {n2} + {n1}| == |a.jobToNodeIds[j2]|;
  }

  /** Swapping two nodes of different jobs exchanges their owners and changes no reservation's size. */
  lemma SwapKeepsTwoWay(a: Agreements, n1: int, n2: int)
    requires TwoWay(a) && n1 in a.nodeToJobId && n2 in a.nodeToJobId && a.nodeToJobId[n1] != a.nodeToJobId[n2]
    ensures TwoWay(a.Swap(n1, n2)) && SameReservations(a, a.Swap(n1, n2))
    ensures forall n :: OwnerOf(a.Swap(n1, n2), n)
                     == if n == n1 then OwnerOf(a, n2) else if n == n2 then OwnerOf(a, n1) else OwnerOf(a, n)
  {
    hide Agreements.Swap;
    SwapEffect(a, n1, n2);
    SwapKeepsSizes(a, n1, n2);
    var b := a.Swap(n1, n2);
    var j1, j2 := a.nodeToJobId[n1], a.nodeToJobId[n2];
    forall x | x in b.jobToNodeIds ensures b.jobToNodeIds[x] != {} {
      assert n2 in b.jobToNodeIds[j1] && n1 in b.jobToNodeIds[j2];
    }
    forall x, n | x in b.jobToNodeIds && n in b.jobToNodeIds[x] ensures n in b.nodeToJobId && b.nodeToJobId[n] == x {
      assert x == j1 ==> n == n2 || n in a.jobToNodeIds[j1];
      assert x == j2 ==> n == n1 || n in a.jobToNodeIds[j2];
    }
    forall n | n in b.nodeToJobId ensures b.nodeToJobId[n] in b.jobToNodeIds && n in b.jobToNodeIds[b.nodeToJobId[n]] {
      if n == n1 {
        assert b.nodeToJobId[n] == j2;
      } else if n == n2 {
        assert b.nodeToJobId[n] == j1;
      } else {
        assert b.nodeToJobId[n] == a.nodeToJobId[n] && n in a.jobToNodeIds[a.nodeToJobId[n]];
      }
    }
  }

  /** Who owns node `n` after `k` swaps: ownership is permuted pair by pair. */
  ghost function OwnerAfterSwaps(a: Agreements, used: seq<int>, other: seq<int>, k: nat, n: int): int
    requires k <= |used| && k <= |other|
    decreases k
  {
    if k == 0 then OwnerOf(a, n)
    else OwnerAfterSwaps(a, used, other, k - 1,
                         if n == used[k - 1] then other[k - 1] else if n == other[k - 1] then used[k - 1] else n)
  }

  /** With disjoint pairs, the partners go to the job, its used nodes to the partners' owners,
      and every other node stays. */
  lemma {:induction false} SwapsPermuteOwners(a: Agreements, j: int, used: seq<int>, other: seq<int>, k: nat, n: int)
    requires k <= |used| && k <= |other| && Distinct(used) && Distinct(other)
    requires forall m :: m in used ==> OwnerOf(a, m) == j
    requires forall m :: m in other ==> OwnerOf(a, m) != j
    ensures forall i :: 0 <= i < k && n == other[i] ==> OwnerAfterSwaps(a, used, other, k, n) == j
    ensures forall i :: 0 <= i < k && n == used[i] ==> OwnerAfterSwaps(a, used, other, k, n) == OwnerOf(a, other[i])
    ensures n !in used[..k] && n !in other[..k] ==> OwnerAfterSwaps(a, used, other, k, n) == OwnerOf(a, n)
    decreases k
  {
    if k > 0 {
      var u, o := used[k - 1], other[k - 1];
      assert u in used && o in other;
      var m := if n == u then o else if n == o then u else n;
      SwapsPermuteOwners(a, j, used, other, k - 1, m);
      assert u !in used[..k - 1] && o !in other[..k - 1];
      assert o !in used[..k - 1] by { assert forall x :: x in used[..k - 1] ==> x in used; }
      assert u !in other[..k - 1] by { assert forall x :: x in other[..k - 1] ==> x in other; }
      assert used[..k] == used[..k - 1] + [u] && other[..k] == other[..k - 1] + [o];
    }
  }

  lemma {:induction false} SwapPairsEffect(a: Agreements, j: int, used: seq<int>, other: seq<int>, k: nat)
    requires TwoWay(a) && k <= |used| && k <= |other| && Distinct(used) && Distinct(other)
    requires forall n :: n in used ==> n in a.nodeToJobId && OwnerOf(a, n) == j
    requires forall n :: n in other ==> n in a.nodeToJobId && OwnerOf(a, n) != j
    ensures TwoWay(a.SwapPairs(used, other, k)) && SameReservations(a, a.SwapPairs(used, other, k))
    ensures forall n :: OwnerOf(a.SwapPairs(used, other, k), n) == OwnerAfterSwaps(a, used, other, k, n)
  {
    if k > 0 {
      SwapPairsEffect(a, j, used, other, k - 1);
      var b := a.SwapPairs(used, other, k - 1);
      var u, o := used[k - 1], other[k - 1];
      assert u in used && o in other;
      assert OwnerOf(b, u) == j by {
        SwapsPermuteOwners(a, j, used, other, k - 1, u);
        assert u !in other[..k - 1] by { assert forall x :: x in other[..k - 1] ==> x in other; }
      }
      assert OwnerOf(b, o) != j by {
        SwapsPermuteOwners(a, j, used, other, k - 1, o);
        assert o !in used[..k - 1] by { assert forall x :: x in used[..k - 1] ==> x in used; }
      }
      SwapKeepsTwoWay(b, u, o);
    }
  }

  lemma {:induction false} FilterSplits(p: int -> bool, q: int -> bool, s: seq<int>)
    requires forall x :: x in s ==> p(x) != q(x)
    ensures |Filter(p, s)| + |Filter(q, s)| == |s|
  {
    if s != [] {
      FilterSplits(p, q, s[..|s| - 1]);
      assert s[|s| - 1] in s;
    }
  }

  lemma SameMembersSameLength(a: seq<int>, b: seq<int>)
    requires Distinct(a) && Distinct(b) && forall x :: x in a <==> x in b
    ensures |a| == |b|
  {
    SetEqualByMembers(SetOf(a), SetOf(b));
    DistinctSize(a);
    DistinctSize(b);
  }

  /** Enough free reserved nodes mean enough partners for all used ones. */
  lemma SwapCountSuffices(a: Agreements, j: int, free: seq<int>)
    requires Distinct(free) && |a.NodesOf(j)| <= |free|
    ensures a.SwapCount(j, free) == |a.UsedReserved(j, free)|
  {
    var mine := Ascending(a.NodesOf(j));
    AscendingEnumerates(a.NodesOf(j));
    FilterSplits(n => n !in free, n => n in free, mine);
    FilterSplits(n => n !in a.NodesOf(j), n => n in a.NodesOf(j), free);
    FilterDistinct(n => n in free, mine);
    FilterDistinct(n => n in a.NodesOf(j), free);
    SameMembersSameLength(Filter(n => n in free, mine), Filter(n => n in a.NodesOf(j), free));
  }

  /** Stealing keeps the reserved nodes, their order and every job's reservation count, and
      when there are at least as many free reserved nodes as the job has reserved, its whole
      reservation is free afterwards. Free nodes taken from other jobs are paid back with the
      job's own used ones. */
  lemma StealSucceeds(a: Agreements, j: int, free: seq<int>)
    requires TwoWay(a) && Distinct(free) && forall n :: n in free ==> n in a.nodeToJobId
    ensures TwoWay(a.Steal(j, free)) && SameReservations(a, a.Steal(j, free))
    ensures |a.NodesOf(j)| <= |free| ==> forall n :: n in a.Steal(j, free).NodesOf(j) ==> n in free
    ensures forall n :: n !in free && OwnerOf(a, n) != j ==> OwnerOf(a.Steal(j, free), n) == OwnerOf(a, n)
    ensures forall n :: n in a.NodesOf(j) && n in free ==> n in a.Steal(j, free).NodesOf(j)
  {
    var b := a.Steal(j, free);
    StealKeepsReservations(a, j, free);
    forall n
      ensures n !in free && OwnerOf(a, n) != j ==> OwnerOf(b, n) == OwnerOf(a, n)
      ensures n in a.NodesOf(j) && n in free ==> n in b.NodesOf(j)
      ensures |a.NodesOf(j)| <= |free| && n in b.NodesOf(j) ==> n in free
    {
      OwnerAfterSteal(a, j, free, n);
      SetsFromNodeMap(a, j, n);
      SetsFromNodeMap(b, j, n);
    }
  }

  lemma PartnersAreDistinct(a: Agreements, j: int, free: seq<int>)
    requires Distinct(free)
    ensures Distinct(a.UsedReserved(j, free)) && Distinct(a.FreeOther(j, free))
    ensures forall n :: n in a.UsedReserved(j, free) ==> n in a.NodesOf(j)
  {
    AscendingEnumerates(a.NodesOf(j));
    FilterDistinct(n => n !in free, Ascending(a.NodesOf(j)));
    FilterDistinct(n => n !in a.NodesOf(j), free);
  }

  lemma PartnersHaveOwners(a: Agreements, j: int, free: seq<int>)
    requires TwoWay(a) && forall n :: n in free ==> n in a.nodeToJobId
    ensures forall n :: n in a.UsedReserved(j, free) ==> OwnerOf(a, n) == j
    ensures forall n :: n in a.FreeOther(j, free) ==> OwnerOf(a, n) != j
  {
    AscendingEnumerates(a.NodesOf(j));
  }

  lemma StealKeepsReservations(a: Agreements, j: int, free: seq<int>)
    requires TwoWay(a) && Distinct(free) && forall n :: n in free ==> n in a.nodeToJobId
    ensures TwoWay(a.Steal(j, free)) && SameReservations(a, a.Steal(j, free))
    ensures j in a.jobToNodeIds ==> (forall n ::
      OwnerOf(a.Steal(j, free), n) == OwnerAfterSwaps(a, a.UsedReserved(j, free), a.FreeOther(j, free), a.SwapCount(j, free), n))
  {
    if j in a.jobToNodeIds {
      PartnersAreDistinct(a, j, free);
      SwapPairsEffect(a, j, a.UsedReserved(j, free), a.FreeOther(j, free), a.SwapCount(j, free));
    }
  }

  /** Nodes outside the swapped pairs keep their owner. */
  lemma OwnerKeptBySteal(a: Agreements, j: int, free: seq<int>, n: int)
    requires TwoWay(a) && Distinct(free) && forall m :: m in free ==> m in a.nodeToJobId
    ensures n !in free && OwnerOf(a, n) != j ==> OwnerOf(a.Steal(j, free), n) == OwnerOf(a, n)
    ensures n in free && n in a.nodeToJobId && OwnerOf(a, n) == j ==> OwnerOf(a.Steal(j, free), n) == j
  {
    if j in a.jobToNodeIds {
      var used, other, k := a.UsedReserved(j, free), a.FreeOther(j, free), a.SwapCount(j, free);
      PartnersAreDistinct(a, j, free);
      StealKeepsReservations(a, j, free);
      SwapsPermuteOwners(a, j, used, other, k, n);
      assert forall x :: x in used[..k] ==> x in used;
      assert forall x :: x in other[..k] ==> x in other;
    }
  }

  /** With enough free nodes every used node of the job is given away. */
  lemma UsedGivenBySteal(a: Agreements, j: int, free: seq<int>, n: int)
    requires TwoWay(a) && Distinct(free) && forall m :: m in free ==> m in a.nodeToJobId
    requires |a.NodesOf(j)| <= |free| && n !in free && n in a.NodesOf(j)
    ensures OwnerOf(a.Steal(j, free), n) != j
  {
    var used, other, k := a.UsedReserved(j, free), a.FreeOther(j, free), a.SwapCount(j, free);
    PartnersAreDistinct(a, j, free);
    PartnersHaveOwners(a, j, free);
    SwapCountSuffices(a, j, free);
    assert n in used by { AscendingEnumerates(a.NodesOf(j)); }
    var i := IndexIn(used, n);
    hide Agreements.UsedReserved;
    hide Agreements.FreeOther;
    hide TwoWay;
    assert OwnerAfterSwaps(a, used, other, k, n) == OwnerOf(a, other[i]) != j by {
      SwapsPermuteOwners(a, j, used, other, k, n);
      assert other[i] in other;
    }
    StealKeepsReservations(a, j, free);
  }

  lemma OwnerAfterSteal(a: Agreements, j: int, free: seq<int>, n: int)
    requires TwoWay(a) && Distinct(free) && forall m :: m in free ==> m in a.nodeToJobId
    ensures n !in free && OwnerOf(a, n) != j ==> OwnerOf(a.Steal(j, free), n) == OwnerOf(a, n)
    ensures n in free && n in a.nodeToJobId && OwnerOf(a, n) == j ==> OwnerOf(a.Steal(j, free), n) == j
    ensures |a.NodesOf(j)| <= |free| && n in a.nodeToJobId && OwnerOf(a.Steal(j, free), n) == j ==> n in free
  {
    OwnerKeptBySteal(a, j, free, n);
    if |a.NodesOf(j)| <= |free| && n !in free && n in a.NodesOf(j) {
      UsedGivenBySteal(a, j, free, n);
    }
  }

  /** Which nodes change hands: the job's used nodes in ascending order and the others' free nodes in
      list order, one against the other as far as both go. */
  lemma StealPairsInOrder(a: Agreements, j: int, free: seq<int>, i: nat)
    requires TwoWay(a) && Distinct(free) && (forall n :: n in free ==> n in a.nodeToJobId) && a.HasJob(j)
    requires i < |a.UsedReserved(j, free)| && i < |a.FreeOther(j, free)|
    ensures var used, other, b := a.UsedReserved(j, free), a.FreeOther(j, free), a.Steal(j, free);
      && AscendingOrder(used) && (forall n :: n in used <==> n in a.NodesOf(j) && n !in free)
      && ListedInOrder(other, free) && (forall n :: n in other <==> n in free && n !in a.NodesOf(j))
      && OwnerOf(b, other[i]) == j && OwnerOf(b, used[i]) == OwnerOf(a, other[i])
  {
    var used, other, k := a.UsedReserved(j, free), a.FreeOther(j, free), a.SwapCount(j, free);
    AscendingEnumerates(a.NodesOf(j));
    FilterAscends(n => n !in free, Ascending(a.NodesOf(j)));
    FilterKeepsOrder(n => n !in a.NodesOf(j), free);
    PartnersAreDistinct(a, j, free);
    PartnersHaveOwners(a, j, free);
    StealKeepsReservations(a, j, free);
    hide TwoWay;
    hide ListedInOrder;
    hide Agreements.UsedReserved;
    hide Agreements.FreeOther;
    SwapsPermuteOwners(a, j, used, other, k, other[i]);
    SwapsPermuteOwners(a, j, used, other, k, used[i]);
  }

  /** After a successful steal, the free nodes the job owns are its whole reservation: the list
      of nodes to assign is exactly as long as the reservation. */
  lemma StolenNodesSuffice(b: Agreements, j: int, free: seq<int>)
    requires Distinct(free) && forall n :: n in b.NodesOf(j) ==> n in free
    ensures |Filter(n => n in b.NodesOf(j), free)| == |b.NodesOf(j)|
  {
    AscendingEnumerates(b.NodesOf(j));
    FilterDistinct(n => n in b.NodesOf(j), free);
    SameMembersSameLength(Filter(n => n in b.NodesOf(j), free), Ascending(b.NodesOf(j)));
  }

  // ---- Conservation in the pool handler ----------------------------------------------------

  /** The reservation sizes of all jobs with a number below `jobCount`. */
  function TotalReserved(a: Agreements, jobCount: nat): nat {
    if jobCount == 0 then 0 else TotalReserved(a, jobCount - 1) + |a.NodesOf(jobCount - 1)|
  }

  /** The pool's maps may disagree on who owns a node, but never on how many are reserved. */
  ghost predicate Pooled(a: Agreements, jobCount: nat) {
    && (forall j :: j in a.jobToNodeIds ==> 0 <= j < jobCount && a.jobToNodeIds[j] != {})
    && OrderEnumerates(a)
    && TotalReserved(a, jobCount) == |a.order|
  }

  lemma OrderCountsNodes(a: Agreements)
    requires OrderEnumerates(a)
    ensures |a.order| == |a.nodeToJobId|
  {
    SetEqualByMembers(SetOf(a.order), a.nodeToJobId.Keys);
    DistinctSize(a.order);
  }

  lemma {:induction false} TotalReservedChange(a: Agreements, b: Agreements, j: int, jobCount: nat)
    requires forall x :: x != j ==> a.NodesOf(x) == b.NodesOf(x)
    ensures TotalReserved(b, jobCount) - TotalReserved(a, jobCount)
         == if 0 <= j < jobCount then |b.NodesOf(j)| - |a.NodesOf(j)| else 0
  {
    if jobCount > 0 {
      TotalReservedChange(a, b, j, jobCount - 1);
    }
  }

  /** Reserving one node that is not reserved yet, for a job that does not list it. */
  lemma AddOneKeepsPooled(a: Agreements, j: int, n: int, jobCount: nat)
    requires Pooled(a, jobCount) && 0 <= j < jobCount && n !in a.nodeToJobId && n !in a.NodesOf(j)
    ensures Pooled(a.AddOne(j, n), jobCount)
  {
    var b := a.AddOne(j, n);
    DistinctConcat(a.order, [n]);
    assert b.NodesOf(j) == a.NodesOf(j) + {n};
    assert n in b.NodesOf(j);
    TotalReservedChange(a, b, j, jobCount);
  }

  lemma AddOneEffect(a: Agreements, j: int, n: int)
    requires n !in a.nodeToJobId || a.nodeToJobId[n] == j
    ensures a.AddOne(j, n).nodeToJobId == a.nodeToJobId[n := j]
    ensures a.AddOne(j, n).NodesOf(j) == a.NodesOf(j) + {n}
    ensures forall x :: x != j ==> a.AddOne(j, n).NodesOf(x) == a.NodesOf(x)
    ensures forall x :: x in a.AddOne(j, n).jobToNodeIds ==> x in a.jobToNodeIds || x == j
  {
  }

  lemma {:induction false} AddEffect(a: Agreements, j: int, ns: seq<int>, k: nat)
    requires k <= |ns| && forall n :: n in ns ==> n !in a.nodeToJobId || a.nodeToJobId[n] == j
    ensures forall m :: m in a.Add(j, ns, k).nodeToJobId <==> m in a.nodeToJobId || m in ns[..k]
    ensures forall m :: m in ns[..k] ==> a.Add(j, ns, k).nodeToJobId[m] == j
    ensures forall m :: m in a.nodeToJobId && m !in ns[..k] ==> a.Add(j, ns, k).nodeToJobId[m] == a.nodeToJobId[m]
    ensures forall m :: m in a.Add(j, ns, k).NodesOf(j) <==> m in a.NodesOf(j) || m in ns[..k]
    ensures forall x :: x != j ==> a.Add(j, ns, k).NodesOf(x) == a.NodesOf(x)
    ensures forall x :: x in a.Add(j, ns, k).jobToNodeIds ==> x in a.jobToNodeIds || x == j
  {
    hide Agreements.AddOne;
    if k > 0 {
      AddEffect(a, j, ns, k - 1);
      assert ns[..k] == ns[..k - 1] + [ns[k - 1]] && ns[k - 1] in ns;
      AddOneEffect(a.Add(j, ns, k - 1), j, ns[k - 1]);
    }
  }

  lemma LastIsNew(ns: seq<int>, k: nat)
    requires Distinct(ns) && k < |ns|
    ensures ns[k] in ns && ns[k] !in ns[..k]
  {
  }

  lemma {:induction false} AddKeepsPooled(a: Agreements, j: int, ns: seq<int>, k: nat, jobCount: nat)
    requires Pooled(a, jobCount) && 0 <= j < jobCount && k <= |ns| && Distinct(ns)
    requires forall n :: n in ns ==> n !in a.nodeToJobId && n !in a.NodesOf(j)
    ensures Pooled(a.Add(j, ns, k), jobCount)
  {
    hide Pooled;
    hide Agreements.AddOne;
    if k > 0 {
      AddKeepsPooled(a, j, ns, k - 1, jobCount);
      AddEffect(a, j, ns, k - 1);
      LastIsNew(ns, k - 1);
      AddOneKeepsPooled(a.Add(j, ns, k - 1), j, ns[k - 1], jobCount);
    }
  }

  /** Consuming `k` nodes takes exactly `k` mappings out of the pool as long as it holds them,
      so the pool never runs empty before the last node. */
  lemma {:induction false} ConsumePoolTakesOneEach(a: Agreements, ns: seq<int>, k: nat)
    requires OrderEnumerates(a) && k <= |ns| && k <= |a.order|
    ensures var b := a.ConsumePool(ns, k);
      && OrderEnumerates(b) && |b.order| == |a.order| - k && b.jobToNodeIds == a.jobToNodeIds
      && (forall n :: n in b.nodeToJobId ==> n in a.nodeToJobId && n !in ns[..k])
  {
    if k > 0 {
      ConsumePoolTakesOneEach(a, ns, k - 1);
      var b := a.ConsumePool(ns, k - 1);
      assert ns[..k] == ns[..k - 1] + [ns[k - 1]];
      var last: int := b.order[|b.order| - 1];
      assert last in b.order;
      assert last in b.nodeToJobId;
    }
  }

  /** The first assigned node takes its own mapping out if it has one, else the youngest mapping. */
  lemma OneAssignedNodeConsumes(a: Agreements, n: int)
    requires OrderEnumerates(a) && a.order != []
    ensures var b, youngest := a.ConsumePool([n], 1), a.order[|a.order| - 1];
      && b.nodeToJobId == a.nodeToJobId - {if n in a.nodeToJobId then n else youngest} && b.jobToNodeIds == a.jobToNodeIds
      && (n !in a.nodeToJobId ==> b.order == a.order[..|a.order| - 1])
  {
    var youngest := a.order[|a.order| - 1];
    assert youngest in a.order;
    assert a.ConsumePool([n], 0) == a;
    RemovingLast(a.order);
  }

  lemma {:induction false} RemovingLast(s: seq<int>)
    requires Distinct(s) && s != []
    ensures RemoveFirst(s, s[|s| - 1]) == s[..|s| - 1]
  {
    RemoveFirstAt(s, |s| - 1);
  }

  /** Starting a job from the pool conserves the pool: reservations and reserved nodes shrink by
      the same number, whichever nodes were handed out. */
  lemma FinalizeKeepsPooled(a: Agreements, j: int, ns: seq<int>, jobCount: nat)
    requires Pooled(a, jobCount) && j in a.jobToNodeIds && |ns| == |a.NodesOf(j)|
    ensures Pooled(a.FinalizePool(j, ns), jobCount)
    ensures |a.FinalizePool(j, ns).order| == |a.order| - |ns|
    ensures forall x :: x in a.FinalizePool(j, ns).jobToNodeIds <==> x in a.jobToNodeIds && x != j
    ensures forall x :: x != j ==> a.FinalizePool(j, ns).NodesOf(x) == a.NodesOf(x)
    ensures forall n :: n in a.FinalizePool(j, ns).nodeToJobId ==> n in a.nodeToJobId && n !in ns
  {
    var erased := a.(jobToNodeIds := a.jobToNodeIds - {j});
    TotalReservedChange(a, erased, j, jobCount);
    assert erased.NodesOf(j) == {};
    ConsumePoolTakesOneEach(erased, ns, |ns|);
    assert ns[..|ns|] == ns;
    var b := a.FinalizePool(j, ns);
    TotalReservedChange(erased, b, j, jobCount);
  }

  lemma SelectionIsSplit(a: Agreements, j: int, free: seq<int>)
    requires Distinct(free)
    ensures var reserved, others := Filter(n => a.HasNode(n), free), Filter(n => !a.HasNode(n), free);
      exists k: nat, m: nat :: k <= |reserved| && m <= |others| && a.SelectFromPool(j, free) == reserved[..k] + others[..m]
        && k + m <= |a.NodesOf(j)| && (k + m == |a.NodesOf(j)| <==> |a.NodesOf(j)| <= |free|) && (m > 0 ==> k == |reserved|)
  {
    var reserved, others := Filter(n => a.HasNode(n), free), Filter(n => !a.HasNode(n), free);
    FilterSplits(n => a.HasNode(n), n => !a.HasNode(n), free);
    var needed := |a.NodesOf(j)|;
    var k := if needed < |reserved| then needed else |reserved|;
    var m := if needed - k < |others| then needed - k else |others|;
    assert a.SelectFromPool(j, free) == reserved[..k] + others[..m];
  }

  /** A selection is duplicate-free, free, and as long as the reservation exactly when that many
      nodes are free; it uses unreserved nodes only after every free reserved node. */
  lemma SelectionIsSound(a: Agreements, j: int, free: seq<int>)
    requires Distinct(free)
    ensures var r := a.SelectFromPool(j, free);
      && Distinct(r) && |r| <= |a.NodesOf(j)| && (forall n :: n in r ==> n in free)
      && (|r| == |a.NodesOf(j)| <==> |a.NodesOf(j)| <= |free|)
      && ((exists n :: n in r && !a.HasNode(n)) ==> forall n :: n in free && a.HasNode(n) ==> n in r)
  {
    var reserved, others := Filter(n => a.HasNode(n), free), Filter(n => !a.HasNode(n), free);
    SelectionIsSplit(a, j, free);
    var k: nat, m: nat :| k <= |reserved| && m <= |others| && a.SelectFromPool(j, free) == reserved[..k] + others[..m]
      && k + m <= |a.NodesOf(j)| && (k + m == |a.NodesOf(j)| <==> |a.NodesOf(j)| <= |free|) && (m > 0 ==> k == |reserved|);
    FilterDistinct(n => a.HasNode(n), free);
    FilterDistinct(n => !a.HasNode(n), free);
    DistinctPrefix(reserved, k);
    DistinctPrefix(others, m);
    DistinctConcat(reserved[..k], others[..m]);
  }
}
