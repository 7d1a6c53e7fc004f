/** Communication matrices: how a payload is spread over the node pairs of a pattern, and that for
    the all-to-all and ring patterns the entries add up to the payload again. */
module CommunicationMatrix {

  datatype Pattern = AllToAll | Gather | Scatter | Ring | RingClockwise | RingCounterClockwise | MasterWorker

  /** How many of the equal messages go from `i` to `j` among `n` nodes. */
  function Messages(pattern: Pattern, n: int, i: int, j: int): int
    requires n > 0
  {
    match pattern
    case AllToAll => if i == j then 0 else 1
    case Gather => if i >= 1 && j == 0 then 1 else 0
    case Scatter => if i == 0 && j >= 1 then 1 else 0
    case Ring => (if j == (i - 1) % n then 1 else 0) + (if j == (i + 1) % n then 1 else 0)
    case RingClockwise => if j == (i + 1) % n then 1 else 0
    case RingCounterClockwise => if j == (i - 1) % n then 1 else 0
    case MasterWorker => if (i == 0 && j >= 1) || (i >= 1 && j == 0) then 1 else 0
  }

  /** Who sends to whom: clockwise to the next node and from the last to the first, gathering from
      every other node to the first; the opposite patterns are the transposed ones, and the two-way
      patterns send both. */
  lemma PatternsRelate(n: int, i: int, j: int)
    requires n >= 2 && 0 <= i < n && 0 <= j < n
    ensures Messages(RingClockwise, n, i, j) == if j == i + 1 || (i == n - 1 && j == 0) then 1 else 0
    ensures Messages(Gather, n, i, j) == if j == 0 && i != 0 then 1 else 0
    ensures Messages(RingCounterClockwise, n, i, j) == Messages(RingClockwise, n, j, i) && Messages(Scatter, n, i, j) == Messages(Gather, n, j, i)
    ensures Messages(Ring, n, i, j) == Messages(RingClockwise, n, i, j) + Messages(RingCounterClockwise, n, i, j)
    ensures Messages(MasterWorker, n, i, j) == Messages(Gather, n, i, j) + Messages(Scatter, n, i, j)
    ensures Messages(AllToAll, n, i, j) == 1 <==> i != j
  {
    Neighbours(n, i);
    Neighbours(n, j);
  }

  /** By how much the code divides the size to get the payload of one message. */
  function Divisor(pattern: Pattern, n: int): (d: real)
    requires n >= 2
    ensures d > 0.0
  {
    match pattern
    case AllToAll => assert n * n - n == n * (n - 1) >= 1; (n * n - n) as real
    case Gather | Scatter | RingClockwise | RingCounterClockwise => n as real
    case Ring => (n * 2) as real
    case MasterWorker => (n - 1) as real / 2.0
  }

  // ---- Counting messages -----------------------------------------------------------------

  function RowMessages(pattern: Pattern, n: int, i: int, columns: nat): int
    requires n > 0
  {
    if columns == 0 then 0 else RowMessages(pattern, n, i, columns - 1) + Messages(pattern, n, i, columns - 1)
  }

  function AllMessages(pattern: Pattern, n: nat, rows: nat): int
    requires n > 0
  {
    if rows == 0 then 0 else AllMessages(pattern, n, rows - 1) + RowMessages(pattern, n, rows - 1, n)
  }

  function MessageCount(pattern: Pattern, n: int): int {
    match pattern
    case AllToAll => n * (n - 1)
    case Gather | Scatter => n - 1
    case Ring => 2 * n
    case RingClockwise | RingCounterClockwise => n
    case MasterWorker => 2 * (n - 1)
  }

  lemma {:induction false} RowCount(pattern: Pattern, n: nat, i: nat, columns: nat)
    requires n >= 2 && i < n && columns <= n
    ensures RowMessages(pattern, n, i, columns) == match pattern
      case AllToAll => columns - (if i < columns then 1 else 0)
      case Gather => if i >= 1 && columns >= 1 then 1 else 0
      case Scatter => if i == 0 && columns >= 1 then columns - 1 else 0
      case Ring => (if (i - 1) % n < columns then 1 else 0) + (if (i + 1) % n < columns then 1 else 0)
      case RingClockwise => if (i + 1) % n < columns then 1 else 0
      case RingCounterClockwise => if (i - 1) % n < columns then 1 else 0
      case MasterWorker => if columns == 0 then 0 else if i == 0 then columns - 1 else 1
  {
    if columns > 0 {
      RowCount(pattern, n, i, columns - 1);
    }
  }

  lemma {:induction false} TotalCount(pattern: Pattern, n: nat, rows: nat)
    requires n >= 2 && rows <= n
    ensures AllMessages(pattern, n, rows) == match pattern
      case AllToAll => rows * (n - 1)
      case Gather => if rows == 0 then 0 else rows - 1
      case Scatter => if rows == 0 then 0 else n - 1
      case Ring => 2 * rows
      case RingClockwise | RingCounterClockwise => rows
      case MasterWorker => if rows == 0 then 0 else n - 1 + rows - 1
  {
    if rows > 0 {
      RowCount(pattern, n, rows - 1, n);
      TotalCount(pattern, n, rows - 1);
    }
  }

  // ---- Matrices --------------------------------------------------------------------------

  function Sum(m: seq<real>): real {
    if m == [] then 0.0 else Sum(m[..|m| - 1]) + m[|m| - 1]
  }

  /** Where the entry of row `i` and column `j` stands in the flat vector. */
  function At(n: int, i: int, j: int): int {
    i * n + j
  }

  function Scaled(count: int, payload: real): real {
    count as real * payload
  }

  lemma ScaledAdds(a: int, b: int, payload: real)
    ensures Scaled(a + b, payload) == Scaled(a, payload) + Scaled(b, payload)
    ensures Scaled(0, payload) == 0.0 && Scaled(1, payload) == payload
  {
  }

  lemma AtIsInside(n: int, i: int, j: int)
    requires 0 <= i < n && 0 <= j < n
    ensures 0 <= At(n, i, j) < At(n, n, 0)
    ensures At(n, i, j + 1) == At(n, i, j) + 1 && At(n, i + 1, 0) == At(n, i, n) && At(n, 0, 0) == 0
  {
    assert (n - 1 - i) * n >= 0;
  }

  lemma {:induction false} RowsAreApart(n: int, i: int, k: int)
    requires i < k && n > 0
    ensures At(n, i, 0) + n <= At(n, k, 0)
    decreases k - i
  {
    if i + 1 < k { RowsAreApart(n, i + 1, k); }
    assert (i + 1) * n == i * n + n;
  }

  lemma AtIsInjective(n: int, i: int, j: int, k: int, l: int)
    requires 0 <= j < n && 0 <= l < n && At(n, i, j) == At(n, k, l)
    ensures i == k && j == l
  {
    assert At(n, i, j) == At(n, i, 0) + j && At(n, k, l) == At(n, k, 0) + l;
    if i < k { RowsAreApart(n, i, k); }
    if k < i { RowsAreApart(n, k, i); }
  }

  /** The flat matrix in which every message of the pattern carries `payload`. */
  ghost predicate Spreads(m: seq<real>, pattern: Pattern, n: nat, payload: real) {
    && n > 0 && |m| == At(n, n, 0)
    && forall i, j :: 0 <= i < n && 0 <= j < n ==> 0 <= At(n, i, j) < |m| && m[At(n, i, j)] == Scaled(Messages(pattern, n, i, j), payload)
  }

  lemma {:induction false} RowSum(m: seq<real>, pattern: Pattern, n: nat, payload: real, i: nat, columns: nat)
    requires Spreads(m, pattern, n, payload) && i < n && columns <= n
    ensures 0 <= At(n, i, 0) <= At(n, i, columns) <= |m|
    ensures Sum(m[..At(n, i, columns)]) == Sum(m[..At(n, i, 0)]) + Scaled(RowMessages(pattern, n, i, columns), payload)
  {
    hide At;
    hide Scaled;
    hide Messages;
    AtIsInside(n, i, 0);
    if columns == 0 {
      ScaledAdds(0, 0, payload);
    } else {
      var k := At(n, i, columns - 1);
      RowSum(m, pattern, n, payload, i, columns - 1);
      AtIsInside(n, i, columns - 1);
      assert m[..k + 1][..k] == m[..k];
      ScaledAdds(RowMessages(pattern, n, i, columns - 1), Messages(pattern, n, i, columns - 1), payload);
    }
  }

  lemma {:induction false} RowsSum(m: seq<real>, pattern: Pattern, n: nat, payload: real, rows: nat)
    requires Spreads(m, pattern, n, payload) && rows <= n
    ensures 0 <= At(n, rows, 0) <= |m| && Sum(m[..At(n, rows, 0)]) == Scaled(AllMessages(pattern, n, rows), payload)
  {
    hide At;
    hide Scaled;
    hide RowMessages;
    AtIsInside(n, 0, 0);
    if rows == 0 {
      ScaledAdds(0, 0, payload);
    } else {
      RowsSum(m, pattern, n, payload, rows - 1);
      RowSum(m, pattern, n, payload, rows - 1, n);
      AtIsInside(n, rows - 1, 0);
      ScaledAdds(AllMessages(pattern, n, rows - 1), RowMessages(pattern, n, rows - 1, n), payload);
    }
  }

  /** What the entries of a matrix for `size` add up to. */
  function Total(size: real, pattern: Pattern, n: nat): real
    requires n > 0
  {
    if n == 1 then 0.0
    else match pattern
      case AllToAll | Ring | RingClockwise | RingCounterClockwise => size
      case Gather | Scatter => size - size / n as real
      case MasterWorker => 4.0 * size
  }

  /** All messages together carry the total. */
  lemma MessagesCarryTotal(size: real, pattern: Pattern, n: nat)
    requires n >= 2
    ensures Scaled(MessageCount(pattern, n), size / Divisor(pattern, n)) == Total(size, pattern, n)
  {
  }

  /** The total over all entries. For all-to-all and the rings it is the requested size; the other
      three patterns are not normalised by the code. */
  lemma TrafficTotal(m: seq<real>, size: real, pattern: Pattern, n: nat)
    requires n >= 2 && Spreads(m, pattern, n, size / Divisor(pattern, n))
    ensures Sum(m) == Total(size, pattern, n)
  {
    hide Scaled;
    hide At;
    hide Divisor;
    RowsSum(m, pattern, n, size / Divisor(pattern, n), n);
    assert m[..At(n, n, 0)] == m;
    TotalCount(pattern, n, n);
    assert AllMessages(pattern, n, n) == MessageCount(pattern, n);
    MessagesCarryTotal(size, pattern, n);
  }

  /** A pattern conserves every size exactly when it is all-to-all or one of the rings. */
  lemma ConservingPatterns(pattern: Pattern, n: nat)
    requires n >= 2
    ensures (forall size: real :: Total(size, pattern, n) == size) <==> pattern.AllToAll? || pattern.Ring? || pattern.RingClockwise? || pattern.RingCounterClockwise?
  {
    if pattern.Gather? || pattern.Scatter? {
      assert Total(n as real, pattern, n) == n as real - n as real / n as real;
      assert n as real / n as real == 1.0;
    } else if pattern.MasterWorker? {
      assert Total(1.0, pattern, n) == 4.0;
    }
  }

  // ---- Filling the vector ----------------------------------------------------------------

  /** Entry by entry: the pattern's share where `done` holds, zero elsewhere. */
  ghost predicate Filled(m: seq<real>, pattern: Pattern, n: nat, payload: real, done: (int, int) -> bool) {
    && n > 0 && |m| == At(n, n, 0)
    && (forall i, j :: 0 <= i < n && 0 <= j < n ==> 0 <= At(n, i, j) < |m|)
    && (forall i, j :: 0 <= i < n && 0 <= j < n ==>
          m[At(n, i, j)] == if done(i, j) then Scaled(Messages(pattern, n, i, j), payload) else 0.0)
  }

  lemma OneEntry(m: seq<real>, pattern: Pattern, n: nat, payload: real, done: (int, int) -> bool, i: int, j: int, x: real, after: (int, int) -> bool)
    requires Filled(m, pattern, n, payload, done) && 0 <= i < n && 0 <= j < n
    requires x == if after(i, j) then Scaled(Messages(pattern, n, i, j), payload) else 0.0
    requires forall k, l :: 0 <= k < n && 0 <= l < n && (k, l) != (i, j) ==> after(k, l) == done(k, l) || Messages(pattern, n, k, l) == 0
    ensures 0 <= At(n, i, j) < |m| && Filled(m[At(n, i, j) := x], pattern, n, payload, after)
  {
    var next := m[At(n, i, j) := x];
    forall k, l | 0 <= k < n && 0 <= l < n
      ensures next[At(n, k, l)] == if after(k, l) then Scaled(Messages(pattern, n, k, l), payload) else 0.0
    {
      ScaledAdds(0, 0, payload);
      if At(n, k, l) == At(n, i, j) { AtIsInjective(n, k, l, i, j); }
    }
  }

  lemma NothingFilled(m: seq<real>, pattern: Pattern, n: nat, payload: real)
    requires n > 0 && |m| == At(n, n, 0) && forall k :: 0 <= k < |m| ==> m[k] == 0.0
    ensures Filled(m, pattern, n, payload, (k, l) => false)
  {
    forall k, l | 0 <= k < n && 0 <= l < n ensures 0 <= At(n, k, l) < |m| {
      AtIsInside(n, k, l);
    }
  }

  /** Where the pattern sends nothing, done or not makes no difference. */
  lemma SameFilled(m: seq<real>, pattern: Pattern, n: nat, payload: real, done: (int, int) -> bool, after: (int, int) -> bool)
    requires Filled(m, pattern, n, payload, done)
    requires forall k, l :: 0 <= k < n && 0 <= l < n ==> after(k, l) == done(k, l) || Messages(pattern, n, k, l) == 0
    ensures Filled(m, pattern, n, payload, after)
  {
  }

  method FillAllToAll(sizes: array<real>, n: nat, payload: real)
    requires n >= 2 && Filled(sizes[..], AllToAll, n, payload, (k, l) => false)
    modifies sizes
    ensures Spreads(sizes[..], AllToAll, n, payload)
  {
    for i := 0 to n
      invariant Filled(sizes[..], AllToAll, n, payload, (k, l) => k < i)
    {
      SameFilled(sizes[..], AllToAll, n, payload, (k, l) => k < i, (k, l) => k < i || (k == i && l < 0));
      for j := 0 to n
        invariant Filled(sizes[..], AllToAll, n, payload, (k, l) => k < i || (k == i && l < j))
      {
        if i == j {
          SameFilled(sizes[..], AllToAll, n, payload, (k, l) => k < i || (k == i && l < j), (k, l) => k < i || (k == i && l < j + 1));
          continue;
        }
        ScaledAdds(0, 0, payload);
        OneEntry(sizes[..], AllToAll, n, payload, (k, l) => k < i || (k == i && l < j), i, j, payload, (k, l) => k < i || (k == i && l < j + 1));
        sizes[At(n, i, j)] := payload;
      }
      SameFilled(sizes[..], AllToAll, n, payload, (k, l) => k < i || (k == i && l < n), (k, l) => k < i + 1);
    }
  }

  method FillGather(sizes: array<real>, n: nat, payload: real)
    requires n >= 2 && Filled(sizes[..], Gather, n, payload, (k, l) => false)
    modifies sizes
    ensures Spreads(sizes[..], Gather, n, payload)
  {
    ScaledAdds(0, 0, payload);
    SameFilled(sizes[..], Gather, n, payload, (k, l) => false, (k, l) => k < 1);
    for i := 1 to n
      invariant Filled(sizes[..], Gather, n, payload, (k, l) => k < i)
    {
      OneEntry(sizes[..], Gather, n, payload, (k, l) => k < i, i, 0, payload, (k, l) => k < i + 1);
      sizes[At(n, i, 0)] := payload;
    }
  }

  method FillScatter(sizes: array<real>, n: nat, payload: real)
    requires n >= 2 && Filled(sizes[..], Scatter, n, payload, (k, l) => false)
    modifies sizes
    ensures Spreads(sizes[..], Scatter, n, payload)
  {
    ScaledAdds(0, 0, payload);
    SameFilled(sizes[..], Scatter, n, payload, (k, l) => false, (k, l) => k == 0 && l < 1);
    for i := 1 to n
      invariant Filled(sizes[..], Scatter, n, payload, (k, l) => k == 0 && l < i)
    {
      OneEntry(sizes[..], Scatter, n, payload, (k, l) => k == 0 && l < i, 0, i, payload, (k, l) => k == 0 && l < i + 1);
      sizes[At(n, 0, i)] := payload;
    }
    SameFilled(sizes[..], Scatter, n, payload, (k, l) => k == 0 && l < n, (k, l) => true);
  }

  /** The ring in one or both directions; with two nodes both neighbours are the same node. */
  method FillRing(sizes: array<real>, pattern: Pattern, n: nat, payload: real)
    requires pattern.Ring? || pattern.RingClockwise? || pattern.RingCounterClockwise?
    requires n >= 2 && Filled(sizes[..], pattern, n, payload, (k, l) => false)
    modifies sizes
    ensures Spreads(sizes[..], pattern, n, payload)
  {
    SameFilled(sizes[..], pattern, n, payload, (k, l) => false, (k, l) => k < 0);
    for i := 0 to n
      invariant Filled(sizes[..], pattern, n, payload, (k, l) => k < i)
    {
      ghost var before := sizes[..];
      var left, right := (i - 1) % n, (i + 1) % n;
      RingRow(before, pattern, n, payload, i);
      if !pattern.RingClockwise? {
        sizes[At(n, i, left)] := sizes[At(n, i, left)] + payload;
      }
      if !pattern.RingCounterClockwise? {
        sizes[At(n, i, right)] := sizes[At(n, i, right)] + payload;
      }
      assert sizes[..] == RingUpdate(before, pattern, n, payload, i);
    }
  }

  ghost function RingUpdate(m: seq<real>, pattern: Pattern, n: nat, payload: real, i: int): seq<real>
    requires n >= 2 && 0 <= At(n, i, (i - 1) % n) < |m| && 0 <= At(n, i, (i + 1) % n) < |m|
  {
    var left, right := At(n, i, (i - 1) % n), At(n, i, (i + 1) % n);
    var m1 := if pattern.RingClockwise? then m else m[left := m[left] + payload];
    if pattern.RingCounterClockwise? then m1 else m1[right := m1[right] + payload]
  }

  lemma RingRow(m: seq<real>, pattern: Pattern, n: nat, payload: real, i: nat)
    requires pattern.Ring? || pattern.RingClockwise? || pattern.RingCounterClockwise?
    requires n >= 2 && i < n && Filled(m, pattern, n, payload, (k, l) => k < i)
    ensures 0 <= At(n, i, (i - 1) % n) < |m| && 0 <= At(n, i, (i + 1) % n) < |m|
    ensures Filled(RingUpdate(m, pattern, n, payload, i), pattern, n, payload, (k, l) => k < i + 1)
  {
    hide At;
    hide Scaled;
    var left, right := (i - 1) % n, (i + 1) % n;
    ScaledAdds(0, 0, payload);
    ScaledAdds(1, 1, payload);
    if pattern.RingClockwise? {
      OneEntry(m, pattern, n, payload, (k, l) => k < i, i, right, payload, (k, l) => k < i + 1);
    } else if pattern.RingCounterClockwise? {
      OneEntry(m, pattern, n, payload, (k, l) => k < i, i, left, payload, (k, l) => k < i + 1);
    } else if left == right {
      OneEntry(m, pattern, n, payload, (k, l) => k < i, i, left, payload + payload, (k, l) => k < i + 1);
      assert m[At(n, i, left) := payload][At(n, i, left) := payload + payload] == m[At(n, i, left) := payload + payload];
    } else {
      var half := (k: int, l: int) => k < i || (k == i && l == left);
      OneEntry(m, pattern, n, payload, (k, l) => k < i, i, left, payload, half);
      var m1 := m[At(n, i, left) := payload];
      assert m1[At(n, i, right)] == 0.0;
      OneEntry(m1, pattern, n, payload, half, i, right, payload, (k, l) => k < i + 1);
    }
  }

  method FillMasterWorker(sizes: array<real>, n: nat, payload: real)
    requires n >= 2 && Filled(sizes[..], MasterWorker, n, payload, (k, l) => false)
    modifies sizes
    ensures Spreads(sizes[..], MasterWorker, n, payload)
  {
    ScaledAdds(0, 0, payload);
    SameFilled(sizes[..], MasterWorker, n, payload, (k, l) => false, (k, l) => k < 1 && l < 1);
    for i := 1 to n
      invariant Filled(sizes[..], MasterWorker, n, payload, (k, l) => k < i && l < i)
    {
      OneEntry(sizes[..], MasterWorker, n, payload, (k, l) => k < i && l < i, 0, i, payload, (k, l) => k < i && l < i + 1);
      sizes[At(n, 0, i)] := payload;
      OneEntry(sizes[..], MasterWorker, n, payload, (k, l) => k < i && l < i + 1, i, 0, payload, (k, l) => k < i + 1 && l < i + 1);
      sizes[At(n, i, 0)] := payload;
    }
  }

  /** The matrix of one level. A single node exchanges nothing. */
  method CreateMatrix(size: real, pattern: Pattern, numNodes: nat) returns (sizes: array<real>)
    requires numNodes >= 1
    ensures numNodes == 1 ==> sizes[..] == [0.0]
    ensures numNodes >= 2 ==> Spreads(sizes[..], pattern, numNodes, size / Divisor(pattern, numNodes))
    ensures Sum(sizes[..]) == Total(size, pattern, numNodes)
  {
    if numNodes == 1 {
      sizes := new real[1](_ => 0.0);
      assert sizes[..] == [0.0];
      assert Sum([0.0]) == Sum([0.0][..0]) + 0.0;
      return;
    }
    AtIsInside(numNodes, numNodes - 1, 0);
    sizes := new real[At(numNodes, numNodes, 0)](_ => 0.0);
    var payload := size / Divisor(pattern, numNodes);
    NothingFilled(sizes[..], pattern, numNodes, payload);
    match pattern {
      case AllToAll => FillAllToAll(sizes, numNodes, payload);
      case Gather => FillGather(sizes, numNodes, payload);
      case Scatter => FillScatter(sizes, numNodes, payload);
      case MasterWorker => FillMasterWorker(sizes, numNodes, payload);
      case _ => FillRing(sizes, pattern, numNodes, payload);
    }
    TrafficTotal(sizes[..], size, pattern, numNodes);
  }

  // ---- Two levels: GPUs within nodes -----------------------------------------------------

  predicate GpuPattern(pattern: Pattern) {
    pattern.AllToAll? || pattern.Ring? || pattern.RingClockwise? || pattern.RingCounterClockwise?
  }

  /** Messages of one GPU to the GPUs `lo` up to `hi`, of `gpus` GPUs in all. */
  function RangeMessages(pattern: Pattern, gpus: int, g: int, lo: int, hi: int): int
    requires gpus > 0
    decreases hi - lo
  {
    if hi <= lo then 0 else RangeMessages(pattern, gpus, g, lo, hi - 1) + Messages(pattern, gpus, g, hi - 1)
  }

  /** Messages from the GPUs `lo` up to `to` to the GPUs `lo` up to `hi`. */
  function BlockMessages(pattern: Pattern, gpus: int, lo: int, upTo: int, hi: int): int
    requires gpus > 0
    decreases upTo - lo
  {
    if upTo <= lo then 0 else BlockMessages(pattern, gpus, lo, upTo - 1, hi) + RangeMessages(pattern, gpus, upTo - 1, lo, hi)
  }

  /** Messages from the GPUs of one node to GPUs of the same node. */
  function NodeMessages(pattern: Pattern, numNodes: int, perNode: int, node: int): int {
    var gpus := At(perNode, numNodes, 0);
    if gpus > 0 then BlockMessages(pattern, gpus, At(perNode, node, 0), At(perNode, node + 1, 0), At(perNode, node + 1, 0)) else 0
  }

  /** How many messages stay within one node of `perNode` GPUs. */
  function IntraCount(pattern: Pattern, numNodes: nat, perNode: nat): int {
    match pattern
    case Ring => if numNodes == 1 then 2 * perNode else 2 * (perNode - 1)
    case RingClockwise | RingCounterClockwise => if numNodes == 1 then perNode else perNode - 1
    case _ => perNode * (perNode - 1)
  }

  lemma {:induction false} RangeCount(pattern: Pattern, gpus: int, g: int, lo: int, hi: int)
    requires gpus >= 2 && GpuPattern(pattern) && 0 <= lo <= hi <= gpus && 0 <= g < gpus
    ensures RangeMessages(pattern, gpus, g, lo, hi) == match pattern
      case Ring => (if lo <= (g - 1) % gpus < hi then 1 else 0) + (if lo <= (g + 1) % gpus < hi then 1 else 0)
      case RingClockwise => if lo <= (g + 1) % gpus < hi then 1 else 0
      case RingCounterClockwise => if lo <= (g - 1) % gpus < hi then 1 else 0
      case _ => (hi - lo) - (if lo <= g < hi then 1 else 0)
    decreases hi - lo
  {
    if lo < hi {
      RangeCount(pattern, gpus, g, lo, hi - 1);
    }
  }

  /** The neighbours of a GPU in the ring. */
  lemma Neighbours(gpus: int, g: int)
    requires gpus >= 2 && 0 <= g < gpus
    ensures (g + 1) % gpus == if g + 1 == gpus then 0 else g + 1
    ensures (g - 1) % gpus == if g == 0 then gpus - 1 else g - 1
  {
  }

  lemma {:induction false} BlockCount(pattern: Pattern, gpus: int, lo: int, upTo: int, hi: int)
    requires gpus >= 2 && GpuPattern(pattern) && 0 <= lo <= upTo <= hi <= gpus && lo < hi
    ensures var whole := hi - lo == gpus; var k := upTo - lo;
      BlockMessages(pattern, gpus, lo, upTo, hi) == match pattern
      case Ring => if k == 0 then 0 else k - (if whole then 0 else 1) + k - (if upTo == hi && !whole then 1 else 0)
      case RingClockwise => k - (if upTo == hi && !whole then 1 else 0)
      case RingCounterClockwise => if k == 0 then 0 else k - (if whole then 0 else 1)
      case _ => k * (hi - lo - 1)
    decreases upTo - lo
  {
    if lo < upTo {
      BlockCount(pattern, gpus, lo, upTo - 1, hi);
      RangeCount(pattern, gpus, upTo - 1, lo, hi);
      Neighbours(gpus, upTo - 1);
      assert (upTo - lo) * (hi - lo - 1) == (upTo - 1 - lo) * (hi - lo - 1) + (hi - lo - 1);
    }
  }

  /** Counted GPU by GPU, every node keeps the same number of messages to itself. */
  lemma NodeKeepsIntraCount(pattern: Pattern, numNodes: nat, perNode: nat, node: nat)
    requires GpuPattern(pattern) && perNode >= 2 && node < numNodes
    ensures At(perNode, numNodes, 0) >= 2
    ensures NodeMessages(pattern, numNodes, perNode, node) == IntraCount(pattern, numNodes, perNode)
  {
    var gpus, lo, hi := At(perNode, numNodes, 0), At(perNode, node, 0), At(perNode, node + 1, 0);
    RowsAreApart(perNode, 0, numNodes);
    if node > 0 { RowsAreApart(perNode, 0, node); }
    RowsAreApart(perNode, node, node + 1);
    if node + 1 < numNodes { RowsAreApart(perNode, node + 1, numNodes); }
    assert hi == lo + perNode;
    BlockCount(pattern, gpus, lo, hi, hi);
  }

  /** Traffic within all nodes and on the network together. */
  function Everywhere(numNodes: nat, withinNode: real, network: real): real {
    numNodes as real * withinNode + network
  }

  lemma SharesAddUp(size: real, pattern: Pattern, numNodes: nat, perNode: nat)
    requires GpuPattern(pattern) && perNode >= 2 && numNodes >= 1 && At(perNode, numNodes, 0) >= 2
    ensures var gpus := At(perNode, numNodes, 0); var payload := size / Divisor(pattern, gpus);
      Everywhere(numNodes, Scaled(IntraCount(pattern, numNodes, perNode), payload),
                 Scaled(MessageCount(pattern, gpus) - numNodes * IntraCount(pattern, numNodes, perNode), payload)) == size
  {
  }

  /** The two payloads as the code computes them. */
  function IntraSize(size: real, pattern: Pattern, numNodes: nat, perNode: nat): real
    requires numNodes >= 1 && perNode >= 2 && At(perNode, numNodes, 0) >= 2
  {
    var gpus := At(perNode, numNodes, 0);
    var payload := size / Divisor(pattern, gpus);
    match pattern
    case Ring => if numNodes == 1 then payload * perNode as real * 2.0 else payload * (perNode - 1) as real * 2.0
    case RingClockwise | RingCounterClockwise => if numNodes == 1 then payload * perNode as real else payload * (perNode - 1) as real
    case _ => ((gpus * (perNode - 1)) as real * payload) / numNodes as real
  }

  function InterSize(size: real, pattern: Pattern, numNodes: nat, perNode: nat): real
    requires numNodes >= 1 && perNode >= 2 && At(perNode, numNodes, 0) >= 2
  {
    var gpus := At(perNode, numNodes, 0);
    var payload := size / Divisor(pattern, gpus);
    match pattern
    case Ring => if numNodes == 1 then 0.0 else payload * numNodes as real * 2.0
    case RingClockwise | RingCounterClockwise => if numNodes == 1 then 0.0 else payload * numNodes as real
    case _ => (gpus * (gpus - perNode)) as real * payload
  }

  lemma IntraSizeIsShare(size: real, pattern: Pattern, numNodes: nat, perNode: nat)
    requires GpuPattern(pattern) && numNodes >= 1 && perNode >= 2 && At(perNode, numNodes, 0) >= 2
    ensures IntraSize(size, pattern, numNodes, perNode) == Scaled(IntraCount(pattern, numNodes, perNode), size / Divisor(pattern, At(perNode, numNodes, 0)))
  {
  }

  lemma InterSizeIsShare(size: real, pattern: Pattern, numNodes: nat, perNode: nat)
    requires GpuPattern(pattern) && numNodes >= 1 && perNode >= 2 && At(perNode, numNodes, 0) >= 2
    ensures var gpus := At(perNode, numNodes, 0);
      InterSize(size, pattern, numNodes, perNode)
        == Scaled(MessageCount(pattern, gpus) - numNodes * IntraCount(pattern, numNodes, perNode), size / Divisor(pattern, gpus))
  {
  }

  lemma SingleNode(size: real, pattern: Pattern, numNodes: nat, perNode: nat)
    requires GpuPattern(pattern) && numNodes == 1 && perNode >= 2 && At(perNode, numNodes, 0) >= 2
    ensures InterSize(size, pattern, numNodes, perNode) == 0.0
  {
    assert At(perNode, 1, 0) * (At(perNode, 1, 0) - perNode) == 0;
  }

  /** The matrices within a node and between nodes. With one GPU per node everything goes between
      nodes; an unsupported pattern ends the simulation. Each node's matrix carries exactly the
      messages that stay within the node, and all nodes together with the network carry the
      requested size. */
  method CreateMatrices(size: real, pattern: Pattern, numNodes: nat, perNode: nat) returns (ok: bool, intra: array<real>, inter: array<real>)
    requires numNodes >= 1 && perNode >= 1
    ensures ok <==> perNode == 1 || GpuPattern(pattern)
    ensures ok && perNode == 1 ==> Sum(intra[..]) == 0.0 && Sum(inter[..]) == Total(size, pattern, numNodes)
    ensures ok && perNode >= 2 ==> At(perNode, numNodes, 0) >= 2
    ensures ok && perNode >= 2 ==> forall node :: 0 <= node < numNodes ==>
      (Sum(intra[..]) == Scaled(NodeMessages(pattern, numNodes, perNode, node), size / Divisor(pattern, At(perNode, numNodes, 0))))
    ensures ok && perNode >= 2 ==> Everywhere(numNodes, Sum(intra[..]), Sum(inter[..])) == size
  {
    if perNode == 1 {
      intra := CreateMatrix(0.0, pattern, 1);
      inter := CreateMatrix(size, pattern, numNodes);
      return true, intra, inter;
    }
    if !GpuPattern(pattern) {
      return false, new real[0], new real[0];
    }
    hide Scaled;
    hide Spreads;
    hide NodeMessages;
    hide IntraCount;
    NodeKeepsIntraCount(pattern, numNodes, perNode, 0);
    if numNodes == 1 { SingleNode(size, pattern, numNodes, perNode); }
    hide At;
    hide IntraSize;
    hide InterSize;
    hide Divisor;
    hide Everywhere;
    var intraSize, interSize := IntraSize(size, pattern, numNodes, perNode), InterSize(size, pattern, numNodes, perNode);
    intra := CreateMatrix(intraSize, pattern, perNode);
    inter := CreateMatrix(interSize, pattern, numNodes);
    ok := true;
    IntraSizeIsShare(size, pattern, numNodes, perNode);
    InterSizeIsShare(size, pattern, numNodes, perNode);
    SharesAddUp(size, pattern, numNodes, perNode);
    forall node | 0 <= node < numNodes
      ensures Sum(intra[..]) == Scaled(NodeMessages(pattern, numNodes, perNode, node), size / Divisor(pattern, At(perNode, numNodes, 0)))
    {
      NodeKeepsIntraCount(pattern, numNodes, perNode, node);
    }
  }
}
