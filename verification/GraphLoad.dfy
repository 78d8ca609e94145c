/** Each actor's busy fraction, and its share of the whole graph's. */
module GraphLoad {
  import opened Rings
  import opened Arithmetic
  import opened Windows
  import opened StatsComputers

  /** `graph_share_load`. */
  function GraphShareLoad(mcpu: nat, totalMcpu: nat): nat {
    if totalMcpu == 0 then 0 else Min(Floor(100 * mcpu, totalMcpu), 100)
  }

  datatype WorkInfo = WorkInfo(mcpu: nat, load: nat)

  /** A node of the diagram: whether an actor is defined there, and its last known work. */
  datatype Node = Node(defined: bool, work: Option<WorkInfo>)

  /** What a node adds to the graph total. */
  function Mcpus(nodes: seq<Node>): seq<nat> {
    if nodes == [] then []
    else
      var front, last := Mcpus(nodes[..|nodes| - 1]), nodes[|nodes| - 1];
      if last.defined && last.work.Some? then front + [last.work.value.mcpu] else front
  }

  /** The loads now shown, in the same order. */
  function Loads(nodes: seq<Node>): seq<nat> {
    if nodes == [] then []
    else
      var front, last := Loads(nodes[..|nodes| - 1]), nodes[|nodes| - 1];
      if last.defined && last.work.Some? then front + [last.work.value.load] else front
  }

  function WithShare(node: Node, total: nat): Node {
    if node.work.None? then node
    else node.(work := Some(node.work.value.(load := GraphShareLoad(node.work.value.mcpu, total))))
  }

  function Refreshed(node: Node, total: nat): Node {
    if node.defined then WithShare(node, total) else node
  }

  /** What is handed to the rolling statistics of a node. */
  function Emitted(node: Node, accumulate: bool): seq<ActorFrame> {
    if accumulate && node.work.Some? then [ActorFrame(node.work.value.mcpu, node.work.value.load)] else []
  }

  predicate InRange(mcpu: nat, load: nat) {
    mcpu <= 1024 && load <= 100
  }

  class DotState {
    var nodes: seq<Node>
    /** The rolling statistics of each node. */
    const computers: seq<ActorStatsComputer>

    /** mCPU never leaves 0 to 1024 and load never leaves 0 to 100, in the nodes and in every recorded
        frame, and the statistics of every node are those of its frames. */
    ghost predicate Valid()
      reads this, computers
    {
      |computers| == |nodes|
      && (forall i, j :: 0 <= i < j < |computers| ==> computers[i] != computers[j])
      && (forall i :: 0 <= i < |nodes| && nodes[i].work.Some? ==>
            InRange(nodes[i].work.value.mcpu, nodes[i].work.value.load))
      && forall i :: 0 <= i < |computers| ==> Recorded(computers[i])
    }

    ghost predicate Recorded(c: ActorStatsComputer)
      reads c
    {
      c.Valid() && forall k :: 0 <= k < |c.frames| ==> InRange(c.frames[k].mcpu, c.frames[k].load)
    }

    constructor (defined: seq<bool>, refreshRateInBits: nat, windowBucketInBits: nat)
      ensures Valid() && |nodes| == |defined|
      ensures forall i :: 0 <= i < |nodes| ==>
                nodes[i] == Node(defined[i], None) && fresh(computers[i]) && computers[i].frames == []
    {
      var made: seq<ActorStatsComputer> := [];
      for i := 0 to |defined|
        invariant |made| == i && forall j, k :: 0 <= j < k < i ==> made[j] != made[k]
        invariant forall j :: 0 <= j < i ==> fresh(made[j]) && made[j].Valid() && made[j].frames == []
      {
        var c := new ActorStatsComputer(refreshRateInBits, windowBucketInBits);
        made := made + [c];
      }
      nodes := seq(|defined|, i requires 0 <= i < |defined| => Node(defined[i], None));
      computers := made;
    }

    /** `apply_local_mcpu`: the busy fraction of the reported unit, scaled to 1024 and rounded down. */
    method ApplyLocalMcpu(index: nat, awaitNs: nat, unitNs: nat) returns (updated: bool)
      requires Valid() && index < |nodes| && (unitNs != 0 ==> awaitNs <= unitNs)
      modifies this`nodes
      ensures Valid() && updated == (unitNs != 0)
      ensures |nodes| == old(|nodes|) && nodes[index].defined == old(nodes[index].defined)
      ensures forall i :: 0 <= i < |nodes| && i != index ==> nodes[i] == old(nodes[i])
      ensures if updated then nodes[index].work.Some?
                              && nodes[index].work.value.mcpu * unitNs <= 1024 * (unitNs - awaitNs)
                                 < (nodes[index].work.value.mcpu + 1) * unitNs
                              && nodes[index].work.value.load
                                 == (if old(nodes[index].work).Some? then old(nodes[index].work.value.load) else 0)
              else nodes[index] == old(nodes[index])
    {
      if unitNs == 0 {
        return false;
      }
      var busy := unitNs - awaitNs;
      FloorBounds(1024 * busy, unitNs, 1025);
      var mcpu := Min(Floor(1024 * busy, unitNs), 1024);
      var priorLoad := if nodes[index].work.Some? then nodes[index].work.value.load else 0;
      nodes := nodes[index := nodes[index].(work := Some(WorkInfo(mcpu, priorLoad)))];
      updated := true;
    }

    /** `graph_mcpu_total`. */
    method GraphMcpuTotal() returns (total: nat)
      ensures total == Sum(Mcpus(nodes))
    {
      total := 0;
      for i := 0 to |nodes|
        invariant total == Sum(Mcpus(nodes[..i]))
      {
        assert nodes[..i + 1][..i] == nodes[..i];
        if nodes[i].defined && nodes[i].work.Some? {
          var front := Mcpus(nodes[..i]);
          assert (front + [nodes[i].work.value.mcpu])[..|front|] == front;
          total := total + nodes[i].work.value.mcpu;
        }
      }
      assert nodes[..|nodes|] == nodes;
    }

    /** `refresh_actor_loads`: every defined node with work gets its share of the current total; the
        touched ones add a frame to their rolling statistics, whose assertion on mCPU thus never fails. */
    method RefreshActorLoads(touched: set<nat>)
      requires Valid()
      modifies this`nodes, computers
      ensures Valid() && |nodes| == old(|nodes|)
      ensures forall i :: 0 <= i < |nodes| ==> nodes[i] == Refreshed(old(nodes[i]), Sum(Mcpus(old(nodes))))
      ensures forall i :: 0 <= i < |nodes| ==>
                computers[i].frames == old(computers[i].frames) + Emitted(nodes[i], i in touched && nodes[i].defined)
      ensures forall i :: 0 <= i < |nodes| && i in touched && nodes[i].defined && nodes[i].work.Some? ==>
                var frames, n := computers[i].frames, |old(computers[i].frames)|;
                |frames| == n + 1 && frames[n].mcpu == nodes[i].work.value.mcpu
                && frames[n].load == nodes[i].work.value.load
      ensures forall i :: 0 <= i < |nodes| && nodes[i].work.Some? ==>
                old(nodes[i]).work.Some? && nodes[i].work.value.mcpu == old(nodes[i]).work.value.mcpu
                && (nodes[i].defined ==> IsShare(nodes[i].work.value, Sum(Mcpus(nodes))))
      ensures |Loads(nodes)| == |Mcpus(nodes)| && Mcpus(nodes) == Mcpus(old(nodes))
      ensures if Sum(Mcpus(nodes)) == 0 then Sum(Loads(nodes)) == 0
              else 100 - |Loads(nodes)| < Sum(Loads(nodes)) <= 100
    {
      hide Mcpus, Loads, Sum, GraphShareLoad, StatsComputers.ActorStatsComputer.Valid;
      var total := GraphMcpuTotal();
      ghost var before := nodes;
      for i := 0 to |nodes|
        invariant |nodes| == |before| && Valid()
        invariant forall j :: 0 <= j < |nodes| ==> nodes[j] == if j < i then Refreshed(before[j], total) else before[j]
        invariant forall j :: 0 <= j < |nodes| ==>
                    computers[j].frames
                    == old(computers[j].frames)
                       + if j < i then Emitted(nodes[j], j in touched && nodes[j].defined) else []
      {
        if nodes[i].defined && nodes[i].work.Some? {
          ApplyGraphLoad(i, total, i in touched);
        }
      }
      LoadsAreShares(before, nodes, total);
      forall i | 0 <= i < |nodes| && nodes[i].defined && nodes[i].work.Some?
        ensures IsShare(nodes[i].work.value, total)
      {
        SharesNode(before, i);
      }
      LoadsAddUp(Mcpus(nodes));
    }

    /** `apply_graph_load_and_emit`: without known work there is nothing to share or to record. */
    method ApplyGraphLoad(index: nat, total: nat, accumulate: bool)
      requires Valid() && index < |nodes|
      modifies this`nodes, computers[index]
      ensures Valid() && nodes == old(nodes)[index := WithShare(old(nodes)[index], total)]
      ensures computers[index].frames == old(computers[index].frames) + Emitted(nodes[index], accumulate)
      ensures accumulate && nodes[index].work.Some? ==>
                var frames, n := computers[index].frames, |old(computers[index].frames)|;
                |frames| == n + 1 && frames[n].mcpu == nodes[index].work.value.mcpu
                && frames[n].load == nodes[index].work.value.load
    {
      hide GraphShareLoad, StatsComputers.ActorStatsComputer.Valid;
      if nodes[index].work.Some? {
        var mcpu := nodes[index].work.value.mcpu;
        var load := GraphShareLoad(mcpu, total);
        LoadAtMostHundred(mcpu, total);
        nodes := nodes[index := nodes[index].(work := Some(WorkInfo(mcpu, load)))];
        if accumulate {
          computers[index].AccumulateDataFrame(mcpu, load);
        }
      }
    }
  }

  /** The load is the percentage of the total, rounded down; zero on an idle graph. */
  predicate IsShare(work: WorkInfo, total: nat) {
    if total == 0 then work.load == 0 else total * work.load <= 100 * work.mcpu < total * (work.load + 1)
  }

  /** A defined node's mCPU is part of the total. */
  lemma {:induction false} NodeAtMostTotal(nodes: seq<Node>, i: nat)
    requires i < |nodes| && nodes[i].defined && nodes[i].work.Some?
    ensures nodes[i].work.value.mcpu <= Sum(Mcpus(nodes))
  {
    var n := |nodes| - 1;
    var front := Mcpus(nodes[..n]);
    assert nodes[n].defined && nodes[n].work.Some? ==> Mcpus(nodes)[..|front|] == front;
    if i == n {
    } else {
      NodeAtMostTotal(nodes[..n], i);
    }
  }

  lemma SharesNode(nodes: seq<Node>, i: nat)
    requires i < |nodes| && nodes[i].defined && nodes[i].work.Some?
    ensures IsShare(WithShare(nodes[i], Sum(Mcpus(nodes))).work.value, Sum(Mcpus(nodes)))
  {
    hide Mcpus, Sum;
    NodeAtMostTotal(nodes, i);
    if Sum(Mcpus(nodes)) != 0 {
      ShareBounds(nodes[i].work.value.mcpu, Sum(Mcpus(nodes)));
    }
  }

  function Part(node: Node): nat {
    if node.defined && node.work.Some? then node.work.value.mcpu else 0
  }

  /** A status update moves the total by what it moves that node, if an actor is defined there. */
  lemma {:induction false} UpdateMovesTotal(nodes: seq<Node>, i: nat, node: Node)
    requires i < |nodes|
    ensures Sum(Mcpus(nodes[i := node])) + Part(nodes[i]) == Sum(Mcpus(nodes)) + Part(node)
  {
    var n := |nodes| - 1;
    LastPart(nodes);
    LastPart(nodes[i := node]);
    if i == n {
      assert nodes[i := node][..n] == nodes[..n];
    } else {
      UpdateMovesTotal(nodes[..n], i, node);
      assert nodes[i := node][..n] == nodes[..n][i := node];
    }
  }

  lemma LastPart(nodes: seq<Node>)
    requires nodes != []
    ensures Sum(Mcpus(nodes)) == Sum(Mcpus(nodes[..|nodes| - 1])) + Part(nodes[|nodes| - 1])
  {
    var n := |nodes| - 1;
    var front := Mcpus(nodes[..n]);
    assert nodes[n].defined && nodes[n].work.Some? ==> Mcpus(nodes)[..|front|] == front;
  }

  /** After a refresh the loads shown are the shares of the total. */
  lemma {:induction false} LoadsAreShares(before: seq<Node>, after: seq<Node>, total: nat)
    requires |before| == |after| && forall i :: 0 <= i < |after| ==> after[i] == Refreshed(before[i], total)
    ensures Mcpus(after) == Mcpus(before) && Loads(after) == Shares(Mcpus(before), total)
  {
    hide GraphShareLoad;
    if after == [] {
    } else {
      var n := |after| - 1;
      LoadsAreShares(before[..n], after[..n], total);
      assert after[n] == Refreshed(before[n], total);
    }
  }

  lemma LoadsAddUp(mcpus: seq<nat>)
    ensures var loads := Shares(mcpus, Sum(mcpus));
            if Sum(mcpus) == 0 then Sum(loads) == 0 else 100 - |loads| < Sum(loads) <= 100
  {
    if Sum(mcpus) == 0 {
      NoShares(mcpus);
    } else {
      SharesAddUp(mcpus);
    }
  }

  lemma {:induction false} NoShares(mcpus: seq<nat>)
    ensures Sum(Shares(mcpus, 0)) == 0
  {
    if mcpus == [] {
    } else {
      NoShares(mcpus[..|mcpus| - 1]);
      assert Shares(mcpus, 0)[..|mcpus| - 1] == Shares(mcpus[..|mcpus| - 1], 0);
    }
  }

  lemma LoadAtMostHundred(mcpu: nat, total: nat)
    ensures GraphShareLoad(mcpu, total) <= 100
  {
  }

  function Shares(mcpus: seq<nat>, total: nat): (r: seq<nat>)
    ensures |r| == |mcpus|
  {
    seq(|mcpus|, i requires 0 <= i < |mcpus| => GraphShareLoad(mcpus[i], total))
  }

  lemma {:induction false} MemberAtMostSum(xs: seq<nat>, i: nat)
    requires i < |xs|
    ensures xs[i] <= Sum(xs)
  {
    if i == |xs| - 1 {
    } else {
      MemberAtMostSum(xs[..|xs| - 1], i);
    }
  }

  lemma {:induction false} SharesBracket(mcpus: seq<nat>, total: nat)
    requires 0 < total && forall i :: 0 <= i < |mcpus| ==> mcpus[i] <= total
    ensures total * Sum(Shares(mcpus, total)) <= 100 * Sum(mcpus)
    ensures mcpus != [] ==> 100 * Sum(mcpus) < total * (Sum(Shares(mcpus, total)) + |mcpus|)
  {
    if mcpus == [] {
    } else {
      var n := |mcpus| - 1;
      var front, last := mcpus[..n], mcpus[n];
      SharesBracket(front, total);
      ShareBounds(last, total);
      assert Shares(mcpus, total)[..n] == Shares(front, total);
      var s, t := Sum(Shares(front, total)), GraphShareLoad(last, total);
      assert total * (s + t) == total * s + total * t;
      assert total * (s + t + n + 1) == total * (s + n) + total * (t + 1);
    }
  }

  /** For an actor that is part of the total the clamp to 100 does nothing. */
  lemma ShareBounds(mcpu: nat, total: nat)
    requires 0 < total && mcpu <= total
    ensures GraphShareLoad(mcpu, total) == Floor(100 * mcpu, total)
    ensures total * GraphShareLoad(mcpu, total) <= 100 * mcpu < total * (GraphShareLoad(mcpu, total) + 1)
  {
    FloorBounds(100 * mcpu, total, 101);
    assert total * (Floor(100 * mcpu, total) + 1) == total * Floor(100 * mcpu, total) + total;
  }

  /** Rounding down loses less than one percent per actor: the shares of a busy graph add up to at
      most 100 and to more than 100 minus the number of actors, and no share is clamped. */
  lemma SharesAddUp(mcpus: seq<nat>)
    requires 0 < Sum(mcpus)
    ensures 100 - |mcpus| < Sum(Shares(mcpus, Sum(mcpus))) <= 100
    ensures forall i :: 0 <= i < |mcpus| ==>
              Shares(mcpus, Sum(mcpus))[i] == Floor(100 * mcpus[i], Sum(mcpus))
  {
    hide GraphShareLoad, Floor;
    var total := Sum(mcpus);
    forall i | 0 <= i < |mcpus|
      ensures mcpus[i] <= total
      ensures Shares(mcpus, total)[i] == Floor(100 * mcpus[i], total)
    {
      MemberAtMostSum(mcpus, i);
      ShareBounds(mcpus[i], total);
    }
    SharesBracket(mcpus, total);
    RoundedTotal(total, Sum(Shares(mcpus, total)), |mcpus|);
  }

  lemma RoundedTotal(total: nat, shares: nat, n: nat)
    requires 0 < total && total * shares <= 100 * total < total * (shares + n)
    ensures 100 - n < shares <= 100
  {
    assert total * (100 - shares) == 100 * total - total * shares;
    assert total * (shares + n - 100) == total * (shares + n) - 100 * total;
    Sign(total, 100 - shares);
    Sign(total, shares + n - 100);
  }
}
