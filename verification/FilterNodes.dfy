/** The filter tree in memory: ff_eval_node, ff_new_node, ff_duplicate_node and ff_branch_node
    (src/ffilter/ffilter.c:925-1026, 1187-1227, 1269-1344) on linked nodes. */
module FilterNodes {
  import Bytes
  import opened FilterTree
  import opened TableSpec

  class FNode {
    var oper: Oper
    var opcode: Attr
    var field: nat
    var vsize: nat
    var value: Val
    var left: FNode?
    var right: FNode?

    constructor (oper: Oper, opcode: Attr, field: nat, vsize: nat, value: Val, left: FNode?, right: FNode?)
      ensures this.oper == oper && this.opcode == opcode && this.field == field && this.vsize == vsize
      ensures this.value == value && this.left == left && this.right == right
    {
      this.oper, this.opcode, this.field, this.vsize := oper, opcode, field, vsize;
      this.value, this.left, this.right := value, left, right;
    }
  }

  /** n is the root of tree t, and everything of it is in r. */
  ghost predicate Shows(n: FNode?, t: Tree, r: set<FNode>)
    reads r
    decreases t
  {
    match t
    case Nil => n == null
    case Node(oper, opcode, field, vsize, value, left, right) =>
      && n != null && n in r
      && n.oper == oper && n.opcode == opcode && n.field == field && n.vsize == vsize && n.value == value
      && Shows(n.left, left, r - {n}) && Shows(n.right, right, r - {n})
  }

  lemma {:induction false} ShowsMore(n: FNode?, t: Tree, r: set<FNode>, s: set<FNode>)
    requires Shows(n, t, r) && r <= s
    ensures Shows(n, t, s)
    decreases t
  {
    if t.Node? {
      ShowsMore(n.left, t.left, r - {n}, s - {n});
      ShowsMore(n.right, t.right, r - {n}, s - {n});
    }
  }

  /** The do-while loop over the values of a list. */
  method EvalList(list: FNode, data: seq<Bytes.byte>, test: Test, ghost t: Tree, ghost r: set<FNode>) returns (res: int)
    requires Shows(list, t, r) && t.Node?
    ensures res == InList(t, data, test)
  {
    var node: FNode? := list;
    ghost var rest, foot := t, r;
    res := test(node.opcode, node.value, data);
    rest, foot := rest.right, foot - {node};
    node := node.right;
    while res <= 0 && node != null
      invariant Shows(node, rest, foot)
      invariant InList(t, data, test) == if res <= 0 && rest.Node? then InList(rest, data, test) else res
      decreases rest
    {
      res := test(node.opcode, node.value, data);
      rest, foot := rest.right, foot - {node};
      node := node.right;
    }
  }

  /** The end of ff_eval_node. */
  method EvalFieldOf(node: FNode, fetch: Fetch, test: Test, ghost t: Tree, ghost r: set<FNode>) returns (res: int)
    requires Shows(node, t, r) && Complete(t) && node.oper != Yes
    ensures res == EvalField(t, fetch, test)
  {
    var got := fetch(node.field);
    var exist := got.Some?;
    var data := DataFor(fetch, node.field, node.vsize);
    match node.oper
    case Exist =>
      res := Truth(exist);
    case In =>
      res := EvalList(node.right, data, test, t.right, r - {node});
    case Not | Or | And =>
      res := -1;
    case Eq | Lt | Gt | Isset | Isnset =>
      res := test(node.opcode, node.value, data);
    case Yes =>
  }

  /** ff_eval_node. */
  method EvalNode(node: FNode?, fetch: Fetch, test: Test, ghost t: Tree, ghost r: set<FNode>) returns (res: int)
    requires Shows(node, t, r) && Complete(t)
    ensures res == Eval(t, fetch, test)
    decreases t
  {
    if node == null {
      return -1;
    }
    var left := 0;
    if node.oper == Yes {
      return 1;
    }
    if node.left != null {
      left := EvalNode(node.left, fetch, test, t.left, r - {node});
      if node.oper == Not {
        return Truth(left <= 0);
      }
      if node.oper == Or && left > 0 {
        return 1;
      }
      if node.oper == And && left <= 0 {
        return 0;
      }
    }
    if node.right != null {
      var right := EvalNode(node.right, fetch, test, t.right, r - {node});
      match node.oper
      case Not => return Truth(right <= 0);
      case Or => return Truth(left > 0 || right > 0);
      case And => return Truth(left > 0 && right > 0);
      case _ =>
    }
    res := EvalFieldOf(node, fetch, test, t, r);
  }

  /** ff_new_node: NOT rewrites the opcode of its child in place when it can. */
  method NewNodeOf(left: FNode?, oper: Oper, right: FNode?, ghost lt: Tree, ghost rt: Tree, ghost r: set<FNode>) returns (node: FNode?)
    requires Shows(left, lt, r) && Shows(right, rt, r)
    modifies r`opcode
    ensures node == null <==> NewNode(lt, oper, rt) == None
    ensures node != null ==> Shows(node, NewNode(lt, oper, rt).value, r + {node}) && (node in r || fresh(node))
    ensures forall n :: n in r && n != node ==> n.opcode == old(n.opcode)
    ensures oper != Not ==> fresh(node) && unchanged(r)
  {
    node := null;
    if oper == Not {
      if right != null && left == null {
        node := right;
      } else if left != null && right == null {
        node := left;
      } else {
        return null;
      }
      var neg := Negate(node.opcode);
      if neg != Err {
        node.opcode := neg;
        assert r + {node} == r;
        return;
      }
    }
    node := new FNode(oper, Err, 0, 0, NoVal, left, right);
    assert r + {node} - {node} == r;
  }

  /** ff_duplicate_node: a tree of its own that shows the same. */
  method Duplicate(original: FNode, ghost t: Tree, ghost r: set<FNode>) returns (copy: FNode, ghost s: set<FNode>)
    requires Shows(original, t, r)
    ensures Shows(copy, t, s) && fresh(s)
    decreases t
  {
    var lc: FNode?, rc: FNode? := null, null;
    ghost var ls: set<FNode>, rs: set<FNode> := {}, {};
    if original.left != null {
      lc, ls := Duplicate(original.left, t.left, r - {original});
    }
    if original.right != null {
      rc, rs := Duplicate(original.right, t.right, r - {original});
    }
    copy := new FNode(original.oper, original.opcode, original.field, original.vsize, original.value, lc, rc);
    s := ls + rs + {copy};
    ShowsMore(lc, t.left, ls, s - {copy});
    ShowsMore(rc, t.right, rs, s - {copy});
  }

  // ---------- pair fields ----------

  /** One round of the loop that pairs the leaves, from leaf i on. */
  function Paired(ts: seq<Tree>, oper: Oper, forked: nat, i: nat): (r: seq<Tree>)
    requires |ts| == MULTINODE_MAX && forked <= MULTINODE_MAX && i % 2 == 0
    ensures |r| == MULTINODE_MAX
    decreases forked - i
  {
    if i >= forked then ts else Paired(ts[i / 2 := Joined(oper, ts[i], ts[i + 1])], oper, forked, i + 2)
  }

  function Rounds(ts: seq<Tree>, oper: Oper, forked: nat): (r: seq<Tree>)
    requires |ts| == MULTINODE_MAX && forked <= MULTINODE_MAX
    ensures |r| == MULTINODE_MAX
    decreases forked
  {
    if forked <= 1 then ts else Rounds(Paired(ts, oper, forked, 0), oper, forked / 2)
  }

  /** The template and its copies, one for every further id. */
  function Leaves(t: Tree, ids: seq<nat>, n: nat): (r: seq<Tree>)
    requires t.Node? && |ids| == MULTINODE_MAX && 1 <= n <= MULTINODE_MAX
    ensures |r| == MULTINODE_MAX
  {
    seq(MULTINODE_MAX, i requires 0 <= i < MULTINODE_MAX => if i < n then Fork(t, ids, i) else Nil)
  }

  lemma RoundsAreBranch(t: Tree, oper: Oper, ids: seq<nat>)
    requires t.Node? && |ids| == MULTINODE_MAX
    ensures Rounds(Leaves(t, ids, Forked(ids)), oper, Forked(ids))[0] == Branch(t, oper, ids)
  {}

  /** leaf[i] is the root of ts[i], for every i. */
  ghost predicate AllShow(leaf: array<FNode?>, ts: seq<Tree>, r: set<FNode>)
    reads leaf, r
  {
    leaf.Length == |ts| && forall i :: 0 <= i < |ts| ==> Shows(leaf[i], ts[i], r)
  }

  lemma AllShowMore(leaf: array<FNode?>, ts: seq<Tree>, r: set<FNode>, s: set<FNode>)
    requires AllShow(leaf, ts, r) && r <= s
    ensures AllShow(leaf, ts, s)
  {
    forall i | 0 <= i < |ts| ensures Shows(leaf[i], ts[i], s) {
      ShowsMore(leaf[i], ts[i], r, s);
    }
  }

  /** A copy of the template for one more id. */
  method ForkLeaf(node: FNode, id: nat, leaf: array<FNode?>, x: nat, ghost t: Tree, ghost ts: seq<Tree>, ghost r: set<FNode>)
    returns (ghost s: set<FNode>)
    requires AllShow(leaf, ts, r) && x < |ts| && Shows(node, t, r)
    modifies leaf
    ensures AllShow(leaf, ts[x := t.(field := id)], s) && r <= s && fresh(s - r)
  {
    var copy, foot := Duplicate(node, t, r);
    copy.field := id;
    AllShowMore(leaf, ts, r, r + foot);
    ShowsMore(copy, t.(field := id), foot, r + foot);
    leaf[x] := copy;
    s := r + foot;
  }

  /** leaf[i / 2] becomes the node over leaf[i] and leaf[i + 1]. */
  method JoinPair(leaf: array<FNode?>, oper: Oper, i: nat, ghost ts: seq<Tree>, ghost r: set<FNode>) returns (ghost s: set<FNode>)
    requires AllShow(leaf, ts, r) && i + 1 < |ts| && oper != Not
    modifies leaf
    ensures AllShow(leaf, ts[i / 2 := Joined(oper, ts[i], ts[i + 1])], s) && r <= s && fresh(s - r)
  {
    var node := new FNode(oper, Err, 0, 0, NoVal, leaf[i], leaf[i + 1]);
    s := r + {node};
    assert s - {node} == r;
    AllShowMore(leaf, ts, r, s);
    leaf[i / 2] := node;
  }

  /** The first loop: the leaves of a pair field. */
  method ForkAll(node: FNode, ids: seq<nat>, leaf: array<FNode?>, ghost t: Tree, ghost r: set<FNode>)
    returns (forked: nat, ghost s: set<FNode>)
    requires Shows(node, t, r) && |ids| == MULTINODE_MAX == leaf.Length
    requires forall i :: 0 <= i < leaf.Length ==> leaf[i] == null
    modifies leaf
    ensures forked == Forked(ids) && AllShow(leaf, Leaves(t, ids, forked), s) && r <= s && fresh(s - r)
  {
    leaf[0] := node;
    s := r;
    forked := 1;
    while forked < MULTINODE_MAX && ids[forked] != 0
      invariant 1 <= forked <= Forked(ids) && r <= s && fresh(s - r)
      invariant AllShow(leaf, Leaves(t, ids, forked), s) && Shows(node, t, s)
    {
      ghost var was, ts := s, Leaves(t, ids, forked);
      s := ForkLeaf(node, ids[forked], leaf, forked, t, ts, s);
      ShowsMore(node, t, was, s);
      assert ts[forked := t.(field := ids[forked])] == Leaves(t, ids, forked + 1);
      forked := forked + 1;
    }
  }

  /** One round of the second loop. */
  method JoinRound(leaf: array<FNode?>, oper: Oper, forked: nat, ghost ts0: seq<Tree>, ghost r: set<FNode>) returns (ghost s: set<FNode>)
    requires AllShow(leaf, ts0, r) && |ts0| == MULTINODE_MAX && forked <= MULTINODE_MAX && oper != Not
    modifies leaf
    ensures AllShow(leaf, Paired(ts0, oper, forked, 0), s) && r <= s && fresh(s - r)
  {
    var i := 0;
    ghost var ts := ts0;
    s := r;
    while i < forked
      invariant i % 2 == 0 && |ts| == MULTINODE_MAX && Paired(ts, oper, forked, i) == Paired(ts0, oper, forked, 0)
      invariant AllShow(leaf, ts, s) && r <= s && fresh(s - r)
    {
      s := JoinPair(leaf, oper, i, ts, s);
      ts := ts[i / 2 := Joined(oper, ts[i], ts[i + 1])];
      i := i + 2;
    }
  }

  /** ff_branch_node, with memory at hand. */
  method BranchNode(node: FNode, oper: Oper, ids: seq<nat>, ghost t: Tree, ghost r: set<FNode>)
    returns (root: FNode?, ghost s: set<FNode>)
    requires Shows(node, t, r) && |ids| == MULTINODE_MAX && oper != Not
    ensures Shows(root, Branch(t, oper, ids), s) && r <= s && fresh(s - r)
  {
    var leaf := new FNode?[MULTINODE_MAX](_ => null);
    var forked: nat;
    forked, s := ForkAll(node, ids, leaf, t, r);
    ghost var ts := Leaves(t, ids, forked);
    RoundsAreBranch(t, oper, ids);
    while forked > 1
      invariant 0 <= forked <= MULTINODE_MAX && |ts| == MULTINODE_MAX && Rounds(ts, oper, forked)[0] == Branch(t, oper, ids)
      invariant AllShow(leaf, ts, s) && r <= s && fresh(s - r)
    {
      s := JoinRound(leaf, oper, forked, ts, s);
      ts := Paired(ts, oper, forked, 0);
      forked := forked / 2;
    }
    root := leaf[0];
  }
}
