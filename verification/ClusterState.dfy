/** The state of the simulated cluster as values, and what each operation of a compute node, a
    job and the scheduler does to it. A job is its number in the job queue, a node its number in
    the platform's node list. `xbt_die` ends the simulation; it is the sticky flag `died` of the
    object that would call it. */
module ClusterState {
  import opened Sequences
  import opened RuntimePrediction

  datatype NodeState =
    | NodeFree | NodeAllocated | NodeReserved
    | NodeDraining | NodeShuttingDown | NodeOff | NodeBooting

  datatype NodeView = NodeView(state: NodeState, running: set<int>, expected: set<int>,
                               transitionTime: real, target: NodeState, died: bool)
  {
    predicate IsIdle() {
      running == {} && expected == {}
    }

    function AllocateJob(j: int): NodeView {
      if running != {} then this.(died := true)
      else this.(running := running + {j}, state := NodeAllocated)
    }

    function ExpandJob(j: int): NodeView {
      this.(running := running + {j}, state := NodeAllocated)
    }

    function CompleteJob(j: int): NodeView {
      this.(running := running - {j}, state := if running - {j} == {} then NodeFree else state)
    }

    function ExpectJob(j: int): NodeView {
      if (j !in running && running != {}) || (j !in expected && expected != {}) then this.(died := true)
      else this.(expected := expected + {j}, state := if state.NodeFree? then NodeReserved else state)
    }

    function RemoveExpectedJob(j: int): NodeView {
      this.(expected := expected - {j},
            state := if expected - {j} == {} && state.NodeReserved? then NodeFree else state)
    }

    function ScheduleTransition(to: NodeState, delaySeconds: int, now: real): NodeView {
      this.(target := to, transitionTime := now + delaySeconds as real)
    }

    function CheckScheduledTransition(now: real): NodeView {
      if transitionTime > 0.0 && now >= transitionTime then this.(state := target, transitionTime := -1.0)
      else this
    }
  }

  const NEW_NODE := NodeView(NodeFree, {}, {}, -1.0, NodeFree, false)

  datatype JobType = Rigid | Moldable | Malleable

  datatype JobState =
    | PendingSubmission | Pending | PendingAllocation | Running
    | PendingReconfiguration | InReconfiguration | Completed

  /** `nodesMin` and `nodesMax` are what the getters return, hence equal for a rigid job. */
  datatype JobView = JobView(kind: JobType, nodesMin: int, nodesMax: int, nodesPref: int, profile: JobProfile,
                             state: JobState, assignedNodes: seq<int>, executingNodes: seq<int>,
                             prediction: Prediction, died: bool)
  {
    predicate Active() {
      state.Running? || state.PendingReconfiguration? || state.InReconfiguration?
    }

    predicate Executes(n: int) {
      Active() && n in executingNodes
    }

    predicate Awaits(n: int) {
      Active() && n in assignedNodes && n !in executingNodes
    }

    /** The job claims the node: runs there, is expected there, or is about to start there. */
    predicate Holds(n: int) {
      (Active() && (n in executingNodes || n in assignedNodes)) || (state.PendingAllocation? && n in assignedNodes)
    }

    /** Take over the assigned nodes and synchronise the prediction with them. */
    function TakeOver(now: real): JobView {
      if assignedNodes == [] then this.(died := true)
      else this.(executingNodes := assignedNodes, prediction := Synchronize(profile, prediction, now, |assignedNodes|))
    }

    /** The job's own part of `setState`; the expected-job bookkeeping of nodes is separate. */
    function SetState(newState: JobState, now: real): JobView {
      var v := if (state.PendingAllocation? && newState.Running?) ||
                  (state.PendingReconfiguration? && newState.InReconfiguration?) then TakeOver(now) else this;
      if newState.Completed? then v.(state := newState, prediction := NoPrediction)
      else v.(state := newState)
    }

    function UpdateState(): JobView {
      if assignedNodes != executingNodes then
        (if state.Pending? then this.(state := PendingAllocation)
         else if state.Running? then this.(state := PendingReconfiguration)
         else this)
      else
        if state.PendingReconfiguration? then this.(state := Running) else this
    }

    /** The job's own part of `removeNodes`, for a non-empty list. */
    function RemoveNodes(ns: seq<int>): JobView {
      if |assignedNodes| - |ns| < nodesMin then this.(died := true)
      else this.(assignedNodes := RemoveEach(assignedNodes, ns), state := if state.Running? then PendingReconfiguration else state)
    }
  }

  datatype NodeOp = Allocate | Expand | Complete | Expect | RemoveExpected
  {
    function On(v: NodeView, j: int): NodeView {
      match this
      case Allocate => v.AllocateJob(j)
      case Expand => v.ExpandJob(j)
      case Complete => v.CompleteJob(j)
      case Expect => v.ExpectJob(j)
      case RemoveExpected => v.RemoveExpectedJob(j)
    }
  }

  /** Apply a node operation for job `j` once at each node listed in `ns`. */
  function AtNodes(nodes: seq<NodeView>, ns: seq<int>, op: NodeOp, j: int): (r: seq<NodeView>)
    ensures |r| == |nodes|
    ensures forall i :: 0 <= i < |nodes| ==> r[i] == if i in ns then op.On(nodes[i], j) else nodes[i]
  {
    seq(|nodes|, i requires 0 <= i < |nodes| => if i in ns then op.On(nodes[i], j) else nodes[i])
  }

  /** All nodes when job `j` moves from `previous` to `next`: none of its assigned nodes expects it
      any more, new nodes are expanded onto, released nodes complete it. */
  function ReconfigureNodes(nodes: seq<NodeView>, previous: seq<int>, assignedNodes: seq<int>, next: seq<int>, j: int): (r: seq<NodeView>)
    ensures |r| == |nodes|
  {
    var released := AtNodes(nodes, assignedNodes, RemoveExpected, j);
    var expanded := AtNodes(released, Without(next, previous), Expand, j);
    AtNodes(expanded, Without(previous, next), Complete, j)
  }

  datatype Sys = Sys(nodes: seq<NodeView>, jobs: seq<JobView>)
  {
    function WithJob(j: int, v: JobView): Sys
      requires 0 <= j < |jobs|
    {
      this.(jobs := jobs[j := v])
    }

    /** A check on behalf of job `j` ends the simulation. */
    function Die(j: int): Sys
      requires 0 <= j < |jobs|
    {
      WithJob(j, jobs[j].(died := true))
    }

    /** A pending job gets its nodes and waits for the allocation message. */
    function Start(j: int, ns: seq<int>): Sys
      requires 0 <= j < |jobs|
    {
      WithJob(j, jobs[j].(assignedNodes := jobs[j].assignedNodes + ns, state := PendingAllocation))
    }

    /** An active malleable job gets additional nodes, which from now on expect it. */
    function ExpandBy(j: int, ns: seq<int>): Sys
      requires 0 <= j < |jobs|
    {
      Sys(AtNodes(nodes, ns, Expect, j), jobs[j := jobs[j].(assignedNodes := jobs[j].assignedNodes + ns).UpdateState()])
    }

    /** An active malleable job gives up nodes it is assigned. */
    function ShrinkBy(j: int, ns: seq<int>): Sys
      requires 0 <= j < |jobs|
    {
      Sys(AtNodes(nodes, ns, RemoveExpected, j), jobs[j := jobs[j].RemoveNodes(ns)])
    }

    function Submit(v: JobView): Sys {
      this.(jobs := jobs + [v.(state := Pending, assignedNodes := [], executingNodes := [], prediction := NoPrediction, died := false)])
    }

    function ForwardAllocation(j: int, now: real): Sys
      requires 0 <= j < |jobs|
    {
      var v := jobs[j].SetState(Running, now);
      Sys(AtNodes(nodes, v.executingNodes, Allocate, j), jobs[j := v])
    }

    function Reconfigure(j: int, now: real): Sys
      requires 0 <= j < |jobs|
    {
      var previous := jobs[j].executingNodes;
      var v := jobs[j].SetState(InReconfiguration, now);
      Sys(ReconfigureNodes(nodes, previous, jobs[j].assignedNodes, v.executingNodes, j), jobs[j := v])
    }

    function SchedulingPoint(j: int, now: real): Sys
      requires 0 <= j < |jobs|
    {
      if jobs[j].state.PendingReconfiguration? then Reconfigure(j, now) else this
    }

    function ProcessedWorkload(j: int, now: real): Sys
      requires 0 <= j < |jobs|
    {
      var done := AtNodes(nodes, jobs[j].executingNodes, Complete, j);
      Sys(AtNodes(done, jobs[j].assignedNodes, RemoveExpected, j), jobs[j := jobs[j].SetState(Completed, now)])
    }

    /** Rank 0 of the application reports that the job runs, whatever state it is in by then. */
    function ApplicationRunning(j: int, now: real): Sys
      requires 0 <= j < |jobs|
    {
      WithJob(j, jobs[j].SetState(Running, now))
    }
  }

  /** The elements of `a` that are not in `b`, in order. */
  function Without(a: seq<int>, b: seq<int>): seq<int> {
    Filter(n => n !in b, a)
  }
}
