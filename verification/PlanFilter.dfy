/** Filtering a query plan to its selected operators and their root paths
    (extensions/storybook/src/query-plan.tsx). */
module PlanFilter {
  import opened Wrappers

  datatype Mode = Full | Hotspot | Mismatch

  datatype State = Normal | Hot | EstimateMismatch

  datatype Header = Header(id: string, operation: string, caption: string, relation: string, state: State,
                           detail: string, metrics: map<string, real>)

  datatype Plan = Plan(header: Header, children: seq<Plan>)

  predicate Selected(node: Plan, mode: Mode) {
    mode == Full ||
    (mode == Hotspot && node.header.state == Hot) ||
    (mode == Mismatch && node.header.state == EstimateMismatch)
  }

  function Filter(node: Plan, mode: Mode): Option<Plan>
    decreases node, 1
  {
    var children := FilterAll(node.children, mode);
    if Selected(node, mode) || |children| > 0 then Some(node.(children := children)) else None
  }

  /** `map` then `filter` over the children. */
  function FilterAll(nodes: seq<Plan>, mode: Mode): seq<Plan>
    decreases nodes, 0
  {
    if nodes == [] then []
    else (match Filter(nodes[0], mode) case Some(kept) => [kept] case None => []) + FilterAll(nodes[1..], mode)
  }

  function Count(node: Plan): nat
    decreases node, 1
  {
    1 + CountAll(node.children)
  }

  function CountAll(nodes: seq<Plan>): nat
    decreases nodes, 0
  {
    if nodes == [] then 0 else Count(nodes[0]) + CountAll(nodes[1..])
  }

  // -------------------------------------------------------------- reference

  /** Whether the subtree holds a selected node. */
  predicate Reaches(node: Plan, mode: Mode)
    decreases node, 1
  {
    Selected(node, mode) || ReachesAny(node.children, mode)
  }

  predicate ReachesAny(nodes: seq<Plan>, mode: Mode)
    decreases nodes, 0
  {
    nodes != [] && (Reaches(nodes[0], mode) || ReachesAny(nodes[1..], mode))
  }

  /** A node seen from the root: the headers down to it. */
  datatype Trail = Trail(path: seq<Header>, reaches: bool)

  /** All nodes in preorder, each with its root path and whether its subtree holds a selected node. */
  function Trails(node: Plan, mode: Mode, above: seq<Header>): (t: seq<Trail>)
    ensures |t| == Count(node)
    decreases node, 1
  {
    [Trail(above + [node.header], Reaches(node, mode))] + TrailsAll(node.children, mode, above + [node.header])
  }

  function TrailsAll(nodes: seq<Plan>, mode: Mode, above: seq<Header>): (t: seq<Trail>)
    ensures |t| == CountAll(nodes)
    decreases nodes, 0
  {
    if nodes == [] then [] else Trails(nodes[0], mode, above) + TrailsAll(nodes[1..], mode, above)
  }

  function Reaching(trails: seq<Trail>): seq<Trail> {
    if trails == [] then []
    else (if trails[0].reaches then [trails[0]] else []) + Reaching(trails[1..])
  }

  lemma ReachingFirst(first: Trail, rest: seq<Trail>)
    ensures Reaching([first] + rest) == (if first.reaches then [first] else []) + Reaching(rest)
  {
    assert ([first] + rest)[1..] == rest;
  }

  lemma {:induction false} ReachingAppend(a: seq<Trail>, b: seq<Trail>)
    ensures Reaching(a + b) == Reaching(a) + Reaching(b)
  {
    if a == [] {
      assert a + b == b;
    } else {
      assert a + b == [a[0]] + (a[1..] + b);
      ReachingFirst(a[0], a[1..] + b);
      ReachingAppend(a[1..], b);
      Associate(if a[0].reaches then [a[0]] else [], Reaching(a[1..]), Reaching(b));
    }
  }

  lemma Associate(a: seq<Trail>, b: seq<Trail>, c: seq<Trail>)
    ensures a + (b + c) == a + b + c
  {
  }

  /** The filter keeps exactly the nodes whose subtree holds a selected node, in the original order
      and with their whole root paths; it keeps nothing exactly when nothing is selected. */
  lemma {:induction false} KeepsReachingTrails(node: Plan, mode: Mode, above: seq<Header>)
    ensures Filter(node, mode).Some? <==> Reaches(node, mode)
    ensures (if Filter(node, mode).Some? then Trails(Filter(node, mode).value, mode, above) else []) ==
            Reaching(Trails(node, mode, above))
    decreases node, 1
  {
    var below := above + [node.header];
    KeepsReachingTrailsAll(node.children, mode, below);
    var first := Trail(below, Reaches(node, mode));
    ReachingAppend([first], TrailsAll(node.children, mode, below));
    assert Reaching([first][1..]) == [];
    if !Reaches(node, mode) {
      assert Reaching(TrailsAll(node.children, mode, below)) == [];
    }
  }

  lemma {:induction false} KeepsReachingTrailsAll(nodes: seq<Plan>, mode: Mode, above: seq<Header>)
    ensures FilterAll(nodes, mode) != [] <==> ReachesAny(nodes, mode)
    ensures ReachesAny(FilterAll(nodes, mode), mode) <==> ReachesAny(nodes, mode)
    ensures TrailsAll(FilterAll(nodes, mode), mode, above) == Reaching(TrailsAll(nodes, mode, above))
    decreases nodes, 0
  {
    if nodes != [] {
      KeepsReachingTrails(nodes[0], mode, above);
      KeepsReachingTrailsAll(nodes[1..], mode, above);
      ReachingAppend(Trails(nodes[0], mode, above), TrailsAll(nodes[1..], mode, above));
      var kept := Filter(nodes[0], mode);
      var rest := FilterAll(nodes[1..], mode);
      if kept.Some? {
        KeptReaches(nodes[0], mode);
        assert FilterAll(nodes, mode) == [kept.value] + rest;
        assert ([kept.value] + rest)[1..] == rest;
      } else {
        assert FilterAll(nodes, mode) == rest;
        assert Reaching(Trails(nodes[0], mode, above)) == [];
      }
    }
  }

  lemma {:induction false} KeptReaches(node: Plan, mode: Mode)
    requires Filter(node, mode).Some?
    ensures Reaches(Filter(node, mode).value, mode)
    decreases node, 1
  {
    if !Selected(node, mode) {
      KeptReachesAny(node.children, mode);
    }
  }

  lemma {:induction false} KeptReachesAny(nodes: seq<Plan>, mode: Mode)
    requires FilterAll(nodes, mode) != []
    ensures ReachesAny(FilterAll(nodes, mode), mode)
    decreases nodes, 0
  {
    var kept := Filter(nodes[0], mode);
    if kept.Some? {
      KeptReaches(nodes[0], mode);
      assert FilterAll(nodes, mode)[0] == kept.value;
    } else {
      assert FilterAll(nodes, mode) == FilterAll(nodes[1..], mode);
      KeptReachesAny(nodes[1..], mode);
    }
  }

  /** The operator count shown is the number of nodes on a path to a selected one. */
  lemma CountsKept(node: Plan, mode: Mode)
    requires Filter(node, mode).Some?
    ensures Count(Filter(node, mode).value) == |Reaching(Trails(node, mode, []))|
  {
    KeepsReachingTrails(node, mode, []);
  }

  // -------------------------------------------------------------- the modes

  /** The node itself or a node below it. */
  ghost predicate Within(node: Plan, d: Plan)
    decreases node
  {
    d == node || exists i :: 0 <= i < |node.children| && Within(node.children[i], d)
  }

  lemma {:induction false} ReachesAnyMeans(nodes: seq<Plan>, mode: Mode)
    ensures ReachesAny(nodes, mode) <==> exists i :: 0 <= i < |nodes| && Reaches(nodes[i], mode)
    decreases nodes
  {
    if nodes != [] {
      ReachesAnyMeans(nodes[1..], mode);
      assert forall i :: 1 <= i < |nodes| ==> nodes[i] == nodes[1..][i - 1];
    }
  }

  lemma {:induction false} ReachesState(node: Plan, mode: Mode, state: State)
    requires (mode == Hotspot && state == Hot) || (mode == Mismatch && state == EstimateMismatch)
    ensures Reaches(node, mode) <==> exists d :: Within(node, d) && d.header.state == state
    decreases node
  {
    ReachesAnyMeans(node.children, mode);
    forall i | 0 <= i < |node.children|
      ensures Reaches(node.children[i], mode) <==> exists d :: Within(node.children[i], d) && d.header.state == state
    {
      ReachesState(node.children[i], mode, state);
    }
    if Selected(node, mode) {
      assert Within(node, node);
    } else if Reaches(node, mode) {
      var i :| 0 <= i < |node.children| && Reaches(node.children[i], mode);
      var d :| Within(node.children[i], d) && d.header.state == state;
      assert Within(node, d);
    }
  }

  /** What the modes ask for: hot operators, or wrongly estimated ones; the full mode keeps every plan. */
  lemma ModesKeep(node: Plan)
    ensures Filter(node, Hotspot).Some? <==> exists d :: Within(node, d) && d.header.state == Hot
    ensures Filter(node, Mismatch).Some? <==> exists d :: Within(node, d) && d.header.state == EstimateMismatch
    ensures Filter(node, Full) == Some(node)
  {
    KeepsReachingTrails(node, Hotspot, []);
    ReachesState(node, Hotspot, Hot);
    KeepsReachingTrails(node, Mismatch, []);
    ReachesState(node, Mismatch, EstimateMismatch);
    FullIsIdentity(node);
  }

  // ---------------------------------------------------------- consequences

  predicate LeavesSelected(node: Plan, mode: Mode)
    decreases node, 1
  {
    (node.children == [] ==> Selected(node, mode)) && AllLeavesSelected(node.children, mode)
  }

  predicate AllLeavesSelected(nodes: seq<Plan>, mode: Mode)
    decreases nodes, 0
  {
    nodes == [] || (LeavesSelected(nodes[0], mode) && AllLeavesSelected(nodes[1..], mode))
  }

  lemma {:induction false} KeptLeavesSelected(node: Plan, mode: Mode)
    ensures Filter(node, mode).Some? ==> LeavesSelected(Filter(node, mode).value, mode)
    decreases node, 1
  {
    AllKeptLeavesSelected(node.children, mode);
  }

  lemma {:induction false} AllKeptLeavesSelected(nodes: seq<Plan>, mode: Mode)
    ensures AllLeavesSelected(FilterAll(nodes, mode), mode)
    decreases nodes, 0
  {
    if nodes != [] {
      KeptLeavesSelected(nodes[0], mode);
      AllKeptLeavesSelected(nodes[1..], mode);
      assert Filter(nodes[0], mode).Some? ==>
               FilterAll(nodes, mode)[0] == Filter(nodes[0], mode).value &&
               FilterAll(nodes, mode)[1..] == FilterAll(nodes[1..], mode);
      assert Filter(nodes[0], mode).None? ==> FilterAll(nodes, mode) == FilterAll(nodes[1..], mode);
    }
  }

  /** A plan is left as it is exactly when every leaf is selected. */
  lemma {:induction false} FixedPoints(node: Plan, mode: Mode)
    ensures Filter(node, mode) == Some(node) <==> LeavesSelected(node, mode)
    decreases node, 1
  {
    FixedPointsAll(node.children, mode);
    KeptLeavesSelected(node, mode);
  }

  lemma {:induction false} FixedPointsAll(nodes: seq<Plan>, mode: Mode)
    ensures AllLeavesSelected(nodes, mode) ==> FilterAll(nodes, mode) == nodes
    decreases nodes, 0
  {
    if nodes != [] && AllLeavesSelected(nodes, mode) {
      FixedPoints(nodes[0], mode);
      FixedPointsAll(nodes[1..], mode);
      assert nodes == [nodes[0]] + nodes[1..];
    }
  }

  lemma {:induction false} FullIsIdentity(node: Plan)
    ensures Filter(node, Full) == Some(node)
    decreases node, 1
  {
    FullIsIdentityAll(node.children);
  }

  lemma {:induction false} FullIsIdentityAll(nodes: seq<Plan>)
    ensures FilterAll(nodes, Full) == nodes
    decreases nodes, 0
  {
    if nodes != [] {
      FullIsIdentity(nodes[0]);
      FullIsIdentityAll(nodes[1..]);
      assert nodes == [nodes[0]] + nodes[1..];
    }
  }

  /** Filtering twice is filtering once. */
  lemma Idempotent(node: Plan, mode: Mode)
    requires Filter(node, mode).Some?
    ensures Filter(Filter(node, mode).value, mode) == Filter(node, mode)
  {
    KeptLeavesSelected(node, mode);
    FixedPoints(Filter(node, mode).value, mode);
  }
}
