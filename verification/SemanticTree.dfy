/** The explicit-stack search for a semantic node (extensions/top/src/terminals.tsx). */
module SemanticTree {
  import opened Wrappers
  import opened JsText

  datatype SemanticNode = SemanticNode(id: int, children: seq<SemanticNode>)

  const MAX_SAFE_INTEGER: nat := 9_007_199_254_740_991

  /** The grammar `0|[1-9][0-9]*`, restricted to safe integers. */
  function NodeNumber(value: string): Option<nat> {
    if value == "" || !AllDigits(value) || (|value| > 1 && value[0] == '0') then None
    else if Number(value) > MAX_SAFE_INTEGER then None
    else Some(Number(value))
  }

  /** Preorder that visits children from last to first. */
  function RightToLeft(node: SemanticNode): (order: seq<SemanticNode>)
    ensures |order| > 0
    decreases node, 1
  {
    [node] + RightToLeftAll(node.children)
  }

  function RightToLeftAll(nodes: seq<SemanticNode>): seq<SemanticNode>
    decreases nodes, 0
  {
    if nodes == [] then []
    else RightToLeft(nodes[|nodes| - 1]) + RightToLeftAll(nodes[..|nodes| - 1])
  }

  function FirstWith(order: seq<SemanticNode>, id: int): Option<SemanticNode> {
    if order == [] then None
    else if order[0].id == id then Some(order[0])
    else FirstWith(order[1..], id)
  }

  lemma {:induction false} StackOrder(a: seq<SemanticNode>, b: seq<SemanticNode>)
    ensures RightToLeftAll(a + b) == RightToLeftAll(b) + RightToLeftAll(a)
  {
    if b == [] {
      assert a + b == a;
    } else {
      var last := b[|b| - 1];
      assert (a + b)[..|a + b| - 1] == a + b[..|b| - 1];
      StackOrder(a, b[..|b| - 1]);
    }
  }

  method SemanticTarget(root: SemanticNode, value: string) returns (found: Option<SemanticNode>)
    ensures NodeNumber(value).None? ==> found == None
    ensures NodeNumber(value).Some? ==> found == FirstWith(RightToLeft(root), NodeNumber(value).value)
  {
    var number := NodeNumber(value);
    if number.None? {
      return None;
    }
    var wanted := number.value;
    var pending := [root];
    assert RightToLeftAll([]) == [];
    assert RightToLeftAll(pending) == RightToLeft(root);
    while |pending| > 0
      invariant FirstWith(RightToLeftAll(pending), wanted) == FirstWith(RightToLeft(root), wanted)
      decreases |RightToLeftAll(pending)|
    {
      var node := pending[|pending| - 1];
      ghost var rest := RightToLeftAll(pending[..|pending| - 1]);
      assert RightToLeftAll(pending) == [node] + (RightToLeftAll(node.children) + rest);
      pending := pending[..|pending| - 1];
      if node.id == wanted {
        return Some(node);
      }
      StackOrder(pending, node.children);
      pending := pending + node.children;
    }
    return None;
  }

  // ------------------------------------------------------------ references

  /** The same search written recursively. */
  function Search(node: SemanticNode, id: int): Option<SemanticNode>
    decreases node, 1
  {
    if node.id == id then Some(node) else SearchAll(node.children, id)
  }

  function SearchAll(nodes: seq<SemanticNode>, id: int): Option<SemanticNode>
    decreases nodes, 0
  {
    if nodes == [] then None
    else match Search(nodes[|nodes| - 1], id)
         case Some(node) => Some(node)
         case None => SearchAll(nodes[..|nodes| - 1], id)
  }

  lemma {:induction false} FirstInAppend(a: seq<SemanticNode>, b: seq<SemanticNode>, id: int)
    ensures FirstWith(a + b, id) == if FirstWith(a, id).Some? then FirstWith(a, id) else FirstWith(b, id)
  {
    if a == [] {
      assert a + b == b;
    } else {
      assert (a + b)[1..] == a[1..] + b;
      FirstInAppend(a[1..], b, id);
    }
  }

  /** The stack search finds what the recursive search finds. */
  lemma {:induction false} SearchIsFirst(node: SemanticNode, id: int)
    ensures Search(node, id) == FirstWith(RightToLeft(node), id)
    decreases node, 1
  {
    SearchAllIsFirst(node.children, id);
    assert RightToLeft(node)[1..] == RightToLeftAll(node.children);
  }

  lemma {:induction false} SearchAllIsFirst(nodes: seq<SemanticNode>, id: int)
    ensures SearchAll(nodes, id) == FirstWith(RightToLeftAll(nodes), id)
    decreases nodes, 0
  {
    if nodes != [] {
      SearchIsFirst(nodes[|nodes| - 1], id);
      SearchAllIsFirst(nodes[..|nodes| - 1], id);
      FirstInAppend(RightToLeft(nodes[|nodes| - 1]), RightToLeftAll(nodes[..|nodes| - 1]), id);
    }
  }

  /** The node is the root or below one of its children. */
  ghost predicate Within(node: SemanticNode, root: SemanticNode)
    decreases root
  {
    node == root || exists k :: 0 <= k < |root.children| && Within(node, root.children[k])
  }

  /** The visiting order contains exactly the nodes of the tree. */
  lemma {:induction false} OrderIsTree(root: SemanticNode, node: SemanticNode)
    ensures node in RightToLeft(root) <==> Within(node, root)
    decreases root, 1
  {
    ForestIsTree(root.children, node);
  }

  lemma {:induction false} ForestIsTree(nodes: seq<SemanticNode>, node: SemanticNode)
    ensures node in RightToLeftAll(nodes) <==> exists k :: 0 <= k < |nodes| && Within(node, nodes[k])
    decreases nodes, 0
  {
    if nodes != [] {
      var last := |nodes| - 1;
      OrderIsTree(nodes[last], node);
      ForestIsTree(nodes[..last], node);
      assert forall k :: 0 <= k < last ==> nodes[..last][k] == nodes[k];
    }
  }

  lemma {:induction false} FirstIsFound(order: seq<SemanticNode>, id: int)
    ensures FirstWith(order, id).None? <==> forall i :: 0 <= i < |order| ==> order[i].id != id
    ensures FirstWith(order, id).Some? ==> FirstWith(order, id).value in order && FirstWith(order, id).value.id == id
  {
    if order != [] {
      FirstIsFound(order[1..], id);
      assert forall i :: 1 <= i < |order| ==> order[i] == order[1..][i - 1];
    }
  }

  /** The search fails exactly when no node of the tree has the id, and otherwise returns one that does. */
  lemma SearchComplete(root: SemanticNode, id: int)
    ensures FirstWith(RightToLeft(root), id).None? <==> forall node :: Within(node, root) ==> node.id != id
    ensures var r := FirstWith(RightToLeft(root), id);
            r.Some? ==> r.value.id == id && Within(r.value, root)
  {
    var order := RightToLeft(root);
    FirstIsFound(order, id);
    if FirstWith(order, id).Some? {
      OrderIsTree(root, FirstWith(order, id).value);
    } else {
      forall node | Within(node, root) ensures node.id != id {
        OrderIsTree(root, node);
      }
    }
  }

  /** Entering a node's own id finds a node with that id. */
  lemma NodeNumberOfDecimal(id: nat)
    ensures NodeNumber(Decimal(id)) == if id <= MAX_SAFE_INTEGER then Some(id) else None
  {
    NumberOfDecimal(id);
    if id == 0 {
      assert Decimal(id) == "0";
    }
  }

  /** Exactly the printed safe integers are read, as themselves. */
  lemma NodeNumberExactly(value: string, id: nat)
    ensures NodeNumber(value) == Some(id) <==> id <= 9007199254740991 && value == Decimal(id)
  {
    NodeNumberOfDecimal(id);
    if NodeNumber(value).Some? {
      DecimalOfNumber(value);
    }
  }
}
