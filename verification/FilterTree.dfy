/** Filter trees and what they mean: ff_eval_node, ff_new_node, ff_branch_node (src/ffilter/ffilter.c) and
    ff_negate (src/ffilter/fcore.c).  The comparison of a leaf, ff_oper_eval_V2, is a parameter here. */
module FilterTree {
  import opened Bytes
  import opened TableSpec

  /** ff_attr_t: FFAT_<rel>_<ty>. */
  datatype Rel = EQ | GT | LT | IS | INS

  datatype Ty =
    | UI | UIBE | UI8 | UI4 | UI2 | UI1 | I | IBE | I8 | I4 | I2 | I1
    | RE | STR | TSB | TS | MAC | AD4 | AD6 | ADP | ML | MLX | MEX | MES

  datatype Attr = Err | Attr(rel: Rel, ty: Ty) | AttrExist | AttrIn

  datatype Oper = Not | Or | And | In | Yes | Eq | Lt | Gt | Isset | Isnset | Exist

  /** The value of a leaf: an integer, a string, a network, an MPLS field with its label number. */
  datatype Val = NoVal | Num(n: nat) | Text(s: Data) | Net(ip: Bits, mask: Bits, ver: nat) | Mpls(val: nat, which: nat)

  /** ff_node_t; Nil is the null pointer. */
  datatype Tree =
    | Nil
    | Node(oper: Oper, opcode: Attr, field: nat, vsize: nat, value: Val, left: Tree, right: Tree)

  /** The data callback: what a record has in a field, or nothing. */
  type Fetch = nat -> Option<Data>

  /** ff_oper_eval_V2: positive for a match, 0 for none, negative for an error. */
  type Test = (Attr, Val, Data) -> int

  function Negate(a: Attr): Attr {
    match a
    case Attr(IS, ty) => Attr(INS, ty)
    case Attr(INS, ty) => Attr(IS, ty)
    case _ => Err
  }

  // ---------- evaluation ----------

  function ZeroData(n: nat): Data {
    seq(n, _ => 0)
  }

  /** The data a node is compared with: zeros of the value's size when the record has none. */
  function DataFor(fetch: Fetch, field: nat, vsize: nat): Data {
    match fetch(field)
    case Some(d) => d
    case None => ZeroData(vsize)
  }

  /** Every list operator has a list. */
  predicate Complete(t: Tree) {
    t.Node? ==> (t.oper == In ==> t.right.Node?) && Complete(t.left) && Complete(t.right)
  }

  /** The loop over the values of a list. */
  function InList(list: Tree, d: Data, test: Test): int
    requires list.Node?
  {
    var res := test(list.opcode, list.value, d);
    if res <= 0 && list.right.Node? then InList(list.right, d, test) else res
  }

  function Truth(b: bool): int {
    if b then 1 else 0
  }

  /** The end of ff_eval_node: what the record has in the field is looked at. */
  function EvalField(t: Tree, fetch: Fetch, test: Test): int
    requires t.Node? && Complete(t)
  {
    match t.oper
    case Exist => Truth(fetch(t.field).Some?)
    case In => InList(t.right, DataFor(fetch, t.field, t.vsize), test)
    case Not | Or | And => -1
    case _ => test(t.opcode, t.value, DataFor(fetch, t.field, t.vsize))
  }

  /** ff_eval_node, branch by branch. */
  function Eval(t: Tree, fetch: Fetch, test: Test): int
    requires Complete(t)
  {
    if t == Nil then -1
    else if t.oper == Yes then 1
    else
      var left := if t.left == Nil then 0 else Eval(t.left, fetch, test);
      if t.left != Nil && t.oper == Not then Truth(left <= 0)
      else if t.left != Nil && t.oper == Or && left > 0 then 1
      else if t.left != Nil && t.oper == And && left <= 0 then 0
      else if t.right != Nil && t.oper == Not then Truth(Eval(t.right, fetch, test) <= 0)
      else if t.right != Nil && t.oper == Or then Truth(left > 0 || Eval(t.right, fetch, test) > 0)
      else if t.right != Nil && t.oper == And then Truth(left > 0 && Eval(t.right, fetch, test) > 0)
      else EvalField(t, fetch, test)
  }

  // ---------- meaning ----------

  predicate IsList(t: Tree) {
    t.Node? && t.oper == Eq && t.left == Nil && (t.right == Nil || IsList(t.right))
  }

  /** The trees the constructors build. */
  predicate WellFormed(t: Tree) {
    t.Node? &&
    match t.oper
    case Yes => t.left == Nil && t.right == Nil
    case Not => if t.left == Nil then WellFormed(t.right) else t.right == Nil && WellFormed(t.left)
    case Or | And => WellFormed(t.left) && WellFormed(t.right)
    case In => t.left == Nil && IsList(t.right)
    case _ => t.left == Nil && t.right == Nil
  }

  function Values(list: Tree): seq<Tree> {
    if list == Nil then [] else [list] + Values(list.right)
  }

  predicate Matches(value: Tree, d: Data, test: Test) {
    value.Node? && test(value.opcode, value.value, d) > 0
  }

  /** Some value of the list matches. */
  ghost predicate AnyMatches(list: Tree, d: Data, test: Test) {
    exists i :: 0 <= i < |Values(list)| && Matches(Values(list)[i], d, test)
  }

  /** The plain boolean meaning; an error is not a match. */
  ghost predicate Means(t: Tree, fetch: Fetch, test: Test)
    requires WellFormed(t)
  {
    match t.oper
    case Yes => true
    case Not => if t.left == Nil then !Means(t.right, fetch, test) else !Means(t.left, fetch, test)
    case Or => Means(t.left, fetch, test) || Means(t.right, fetch, test)
    case And => Means(t.left, fetch, test) && Means(t.right, fetch, test)
    case Exist => fetch(t.field).Some?
    case In => AnyMatches(t.right, DataFor(fetch, t.field, t.vsize), test)
    case _ => test(t.opcode, t.value, DataFor(fetch, t.field, t.vsize)) > 0
  }

  lemma {:induction false} ListComplete(t: Tree)
    requires IsList(t)
    ensures Complete(t)
  {
    if t.right != Nil {
      ListComplete(t.right);
    }
  }

  lemma {:induction false} FormedComplete(t: Tree)
    requires WellFormed(t)
    ensures Complete(t)
  {
    if t.oper == In {
      ListComplete(t.right);
    } else {
      if t.left != Nil { FormedComplete(t.left); }
      if t.right != Nil { FormedComplete(t.right); }
    }
  }

  lemma AnyCons(list: Tree, d: Data, test: Test)
    requires list.Node?
    ensures AnyMatches(list, d, test) <==> Matches(list, d, test) || AnyMatches(list.right, d, test)
  {
    var vs, rest := Values(list), Values(list.right);
    assert vs == [list] + rest;
    if i :| 0 <= i < |rest| && Matches(rest[i], d, test) {
      assert vs[i + 1] == rest[i];
    }
    if Matches(list, d, test) {
      assert vs[0] == list;
    }
    if i :| 0 <= i < |vs| && Matches(vs[i], d, test) {
      assert i > 0 ==> rest[i - 1] == vs[i];
    }
  }

  /** The list loop stops at the first match, and that is the disjunction over the list. */
  lemma {:induction false} InListIsAny(list: Tree, d: Data, test: Test)
    requires IsList(list)
    ensures InList(list, d, test) > 0 <==> AnyMatches(list, d, test)
  {
    AnyCons(list, d, test);
    if list.right.Node? {
      InListIsAny(list.right, d, test);
    }
  }

  /** Short-circuiting, errors and the evaluation of list values that nobody asks for change nothing: a tree
      evaluates above 0 exactly when its plain meaning is true. */
  lemma {:induction false} EvalIsMeaning(t: Tree, fetch: Fetch, test: Test)
    requires WellFormed(t)
    ensures Complete(t) && (Eval(t, fetch, test) > 0 <==> Means(t, fetch, test))
  {
    FormedComplete(t);
    match t.oper
    case Not =>
      EvalIsMeaning(if t.left == Nil then t.right else t.left, fetch, test);
    case Or | And =>
      EvalIsMeaning(t.left, fetch, test);
      EvalIsMeaning(t.right, fetch, test);
    case In =>
      InListIsAny(t.right, DataFor(fetch, t.field, t.vsize), test);
    case _ =>
  }

  /** A value of a list as a leaf of its own on the same field. */
  function Alone(value: Tree, field: nat): Tree
    requires value.Node?
  {
    Node(Eq, value.opcode, field, value.vsize, value.value, Nil, Nil)
  }

  ghost predicate MatchesAlone(value: Tree, field: nat, fetch: Fetch, test: Test) {
    value.Node? && Means(Alone(value, field), fetch, test)
  }

  /** With data in the record, IN is the disjunction of single comparisons. */
  lemma InIsDisjunction(t: Tree, fetch: Fetch, test: Test)
    requires WellFormed(t) && t.oper == In && fetch(t.field).Some?
    ensures Means(t, fetch, test)
            <==> exists i :: 0 <= i < |Values(t.right)| && MatchesAlone(Values(t.right)[i], t.field, fetch, test)
  {}

  // ---------- construction ----------

  /** ff_new_node: NOT over a node whose opcode has an opposite is folded into that node.  The opcode of a
      new interior node is not set; it is taken as FFAT_ERR. */
  function NewNode(left: Tree, oper: Oper, right: Tree): Option<Tree> {
    if oper == Not && (left == Nil) == (right == Nil) then None
    else
      var child := if right != Nil then right else left;
      if oper == Not && Negate(child.opcode) != Err then Some(child.(opcode := Negate(child.opcode)))
      else Some(Node(oper, Err, 0, 0, NoVal, left, right))
  }

  /** NOT over anything without an opposite opcode is the exact complement. */
  lemma NotIsComplement(t: Tree, fetch: Fetch, test: Test)
    requires WellFormed(t) && Negate(t.opcode) == Err
    ensures var n := NewNode(Nil, Not, t);
            n.Some? && WellFormed(n.value) && (Means(n.value, fetch, test) <==> !Means(t, fetch, test))
  {}

  /** NOT twice over a foldable leaf gives the leaf back. */
  lemma FoldedTwice(t: Tree)
    requires t.Node? && Negate(t.opcode) != Err
    ensures NewNode(Nil, Not, t).Some? && NewNode(Nil, Not, NewNode(Nil, Not, t).value) == Some(t)
  {}

  // ---------- pair fields ----------

  const MULTINODE_MAX := 4

  /** How many leaves the ids give: the first always, the others up to the first 0. */
  function Forked(ids: seq<nat>): (n: nat)
    requires |ids| == MULTINODE_MAX
    ensures 1 <= n <= MULTINODE_MAX
  {
    if ids[1] == 0 then 1 else if ids[2] == 0 then 2 else if ids[3] == 0 then 3 else 4
  }

  function Fork(t: Tree, ids: seq<nat>, i: nat): Tree
    requires t.Node? && i < |ids|
  {
    if i == 0 then t else t.(field := ids[i])
  }

  function Joined(oper: Oper, l: Tree, r: Tree): Tree {
    Node(oper, Err, 0, 0, NoVal, l, r)
  }

  /** What the code makes of a template leaf and up to four ids.  With three of them it returns a pair of
      the first two. */
  function Branch(t: Tree, oper: Oper, ids: seq<nat>): Tree
    requires t.Node? && |ids| == MULTINODE_MAX
  {
    match Forked(ids)
    case 1 => t
    case 2 | 3 => Joined(oper, Fork(t, ids, 0), Fork(t, ids, 1))
    case _ => Joined(oper, Joined(oper, Fork(t, ids, 0), Fork(t, ids, 1)), Joined(oper, Fork(t, ids, 2), Fork(t, ids, 3)))
  }

  /** How many of the forked leaves are in the tree. */
  function Reached(ids: seq<nat>): nat
    requires |ids| == MULTINODE_MAX
  {
    if Forked(ids) == 3 then 2 else Forked(ids)
  }

  ghost predicate Every(t: Tree, ids: seq<nat>, n: nat, fetch: Fetch, test: Test)
    requires WellFormed(t) && n <= |ids|
  {
    forall i :: 0 <= i < n ==> WellFormed(Fork(t, ids, i)) && Means(Fork(t, ids, i), fetch, test)
  }

  ghost predicate AnyOf(t: Tree, ids: seq<nat>, n: nat, fetch: Fetch, test: Test)
    requires WellFormed(t) && n <= |ids|
  {
    exists i :: 0 <= i < n && WellFormed(Fork(t, ids, i)) && Means(Fork(t, ids, i), fetch, test)
  }

  predicate IsLeaf(t: Tree) {
    t.Node? && t.oper !in {Yes, Not, Or, And}
  }

  /** The test on a pair field holds for some of its fields (OR), or for all of them (AND), as far as they
      are reached. */
  lemma BranchMeans(t: Tree, oper: Oper, ids: seq<nat>, fetch: Fetch, test: Test)
    requires WellFormed(t) && IsLeaf(t) && |ids| == MULTINODE_MAX && oper in {Or, And}
    ensures WellFormed(Branch(t, oper, ids))
    ensures Means(Branch(t, oper, ids), fetch, test)
            <==> if Forked(ids) == 1 then Means(t, fetch, test)
                 else if oper == Or then AnyOf(t, ids, Reached(ids), fetch, test)
                 else Every(t, ids, Reached(ids), fetch, test)
  {}

  /** The pair is true of the record exactly when the test holds for one of all the fields given. */
  ghost predicate SameAsAny(t: Tree, ids: seq<nat>, fetch: Fetch, test: Test)
    requires WellFormed(t) && |ids| == MULTINODE_MAX
  {
    WellFormed(Branch(t, Or, ids)) && (Means(Branch(t, Or, ids), fetch, test) <==> AnyOf(t, ids, Forked(ids), fetch, test))
  }

  /** The pair is true of the record exactly when the test holds for every field given. */
  ghost predicate SameAsEvery(t: Tree, ids: seq<nat>, fetch: Fetch, test: Test)
    requires WellFormed(t) && |ids| == MULTINODE_MAX
  {
    WellFormed(Branch(t, And, ids)) && (Means(Branch(t, And, ids), fetch, test) <==> Every(t, ids, Forked(ids), fetch, test))
  }

  /** On one record that is the test on all of its fields unless there are three and the third one decides. */
  lemma ThirdDecides(t: Tree, ids: seq<nat>, fetch: Fetch, test: Test)
    requires WellFormed(t) && IsLeaf(t) && |ids| == MULTINODE_MAX && Forked(ids) > 1
    ensures WellFormed(Branch(t, Or, ids)) && WellFormed(Branch(t, And, ids)) && WellFormed(Fork(t, ids, 2))
    ensures var third := Means(Fork(t, ids, 2), fetch, test);
            && (SameAsAny(t, ids, fetch, test) <==> Forked(ids) != 3 || !third || AnyOf(t, ids, 2, fetch, test))
            && (SameAsEvery(t, ids, fetch, test) <==> Forked(ids) != 3 || third || !Every(t, ids, 2, fetch, test))
  {
    BranchMeans(t, Or, ids, fetch, test);
    BranchMeans(t, And, ids, fetch, test);
  }

  /** A leaf looks at nothing but what the record has in its field. */
  ghost predicate LeafMatches(t: Tree, o: Option<Data>, test: Test)
    requires WellFormed(t) && IsLeaf(t)
  {
    Means(t, f => o, test)
  }

  lemma ForkMeans(t: Tree, ids: seq<nat>, i: nat, fetch: Fetch, test: Test)
    requires WellFormed(t) && IsLeaf(t) && i < |ids|
    ensures WellFormed(Fork(t, ids, i))
    ensures Means(Fork(t, ids, i), fetch, test) <==> LeafMatches(t, fetch(Fork(t, ids, i).field), test)
  {}

  /** The third field is one of the first two. */
  predicate ThirdRepeats(t: Tree, ids: seq<nat>)
    requires t.Node? && |ids| == MULTINODE_MAX
  {
    ids[2] == t.field || ids[2] == ids[1]
  }

  /** A record that has a in the third field and b in the others. */
  function Telling(third: nat, a: Option<Data>, b: Option<Data>): Fetch {
    f => if f == third then a else b
  }

  lemma TellingSplits(t: Tree, ids: seq<nat>, a: Option<Data>, b: Option<Data>, test: Test)
    requires WellFormed(t) && IsLeaf(t) && |ids| == MULTINODE_MAX && Forked(ids) == 3 && !ThirdRepeats(t, ids)
    requires LeafMatches(t, a, test) != LeafMatches(t, b, test)
    ensures var fetch := Telling(ids[2], a, b);
            if LeafMatches(t, a, test) then !SameAsAny(t, ids, fetch, test) else !SameAsEvery(t, ids, fetch, test)
  {
    var fetch := Telling(ids[2], a, b);
    ForkMeans(t, ids, 0, fetch, test);
    ForkMeans(t, ids, 1, fetch, test);
    ForkMeans(t, ids, 2, fetch, test);
    ThirdDecides(t, ids, fetch, test);
  }

  lemma RepeatedThird(t: Tree, ids: seq<nat>, fetch: Fetch, test: Test)
    requires WellFormed(t) && IsLeaf(t) && |ids| == MULTINODE_MAX && Forked(ids) > 1
    requires Forked(ids) != 3 || ThirdRepeats(t, ids)
    ensures SameAsAny(t, ids, fetch, test) && SameAsEvery(t, ids, fetch, test)
  {
    ThirdDecides(t, ids, fetch, test);
    if Forked(ids) == 3 {
      var j := if ids[2] == t.field then 0 else 1;
      ForkMeans(t, ids, j, fetch, test);
      ForkMeans(t, ids, 2, fetch, test);
    }
  }

  /** For a test that accepts one thing (yes) and rejects another (no): the tree is the test on some, and on
      every, of the given fields for all records exactly when there are not three of them or the third is one
      of the other two. */
  lemma BranchExact(t: Tree, ids: seq<nat>, yes: Option<Data>, no: Option<Data>, test: Test)
    requires WellFormed(t) && IsLeaf(t) && |ids| == MULTINODE_MAX && Forked(ids) > 1
    requires LeafMatches(t, yes, test) && !LeafMatches(t, no, test)
    ensures (forall fetch :: SameAsAny(t, ids, fetch, test)) <==> Forked(ids) != 3 || ThirdRepeats(t, ids)
    ensures (forall fetch :: SameAsEvery(t, ids, fetch, test)) <==> Forked(ids) != 3 || ThirdRepeats(t, ids)
  {
    if Forked(ids) != 3 || ThirdRepeats(t, ids) {
      forall fetch ensures SameAsAny(t, ids, fetch, test) && SameAsEvery(t, ids, fetch, test) {
        RepeatedThird(t, ids, fetch, test);
      }
    } else {
      TellingSplits(t, ids, yes, no, test);
      TellingSplits(t, ids, no, yes, test);
    }
  }

  /** A pair of fields 1, 2 and 3 misses a record that only field 3 matches. */
  lemma ThirdIsDropped()
    ensures var t := Node(Eq, Attr(EQ, UI1), 1, 8, Num(7), Nil, Nil);
            var fetch: Fetch := f => if f == 3 then Some([7]) else Some([0]);
            var test: Test := (a, v, d) => if d == [7] then 1 else 0;
            Means(Fork(t, [1, 2, 3, 0], 2), fetch, test) && !Means(Branch(t, Or, [1, 2, 3, 0]), fetch, test)
  {}

  // ---------- whole expressions ----------

  /** What the grammar can build its tree from. */
  datatype Expr = Any | Leaf(tree: Tree) | NotE(e: Expr) | OrE(l: Expr, r: Expr) | AndE(l: Expr, r: Expr)

  predicate LeavesFormed(e: Expr) {
    match e
    case Any => true
    case Leaf(t) => WellFormed(t)
    case NotE(x) => LeavesFormed(x)
    case OrE(l, r) => LeavesFormed(l) && LeavesFormed(r)
    case AndE(l, r) => LeavesFormed(l) && LeavesFormed(r)
  }

  lemma NotFormed(t: Tree)
    requires WellFormed(t)
    ensures NewNode(Nil, Not, t).Some? && WellFormed(NewNode(Nil, Not, t).value)
  {}

  /** The constructor calls of the grammar's rules. */
  function Build(e: Expr): (t: Tree)
    requires LeavesFormed(e)
    ensures WellFormed(t)
  {
    match e
    case Any => NewNode(Nil, Yes, Nil).value
    case Leaf(t) => t
    case NotE(x) => NotFormed(Build(x)); NewNode(Nil, Not, Build(x)).value
    case OrE(l, r) => NewNode(Build(l), Or, Build(r)).value
    case AndE(l, r) => NewNode(Build(l), And, Build(r)).value
  }

  ghost predicate Plain(e: Expr, fetch: Fetch, test: Test)
    requires LeavesFormed(e)
  {
    match e
    case Any => true
    case Leaf(t) => Means(t, fetch, test)
    case NotE(x) => !Plain(x, fetch, test)
    case OrE(l, r) => Plain(l, fetch, test) || Plain(r, fetch, test)
    case AndE(l, r) => Plain(l, fetch, test) && Plain(r, fetch, test)
  }

  /** Folding NOT into t is exact for this record. */
  ghost predicate FoldExact(t: Tree, fetch: Fetch, test: Test)
    requires WellFormed(t)
  {
    Negate(t.opcode) == Err
    || (WellFormed(t.(opcode := Negate(t.opcode))) && (Means(t.(opcode := Negate(t.opcode)), fetch, test) <==> !Means(t, fetch, test)))
  }

  /** NOT, folded or not, is the complement where folding is exact. */
  lemma NotMeans(t: Tree, fetch: Fetch, test: Test)
    requires WellFormed(t) && FoldExact(t, fetch, test)
    ensures var n := NewNode(Nil, Not, t);
            n.Some? && WellFormed(n.value) && (Means(n.value, fetch, test) <==> !Means(t, fetch, test))
  {
    if Negate(t.opcode) == Err {
      NotIsComplement(t, fetch, test);
    }
  }

  lemma NotLeafMeans(t: Tree, fetch: Fetch, test: Test)
    requires WellFormed(t)
    ensures (Means(Build(NotE(Leaf(t))), fetch, test) <==> Plain(NotE(Leaf(t)), fetch, test)) <==> FoldExact(t, fetch, test)
  {
    assert Build(Leaf(t)) == t && Plain(Leaf(t), fetch, test) == Means(t, fetch, test);
    NotFormed(t);
    if Negate(t.opcode) == Err {
      NotIsComplement(t, fetch, test);
    }
  }
}
