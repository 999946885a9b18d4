/** The query evaluator: set algebra over a tree of keys, computed by an explicit-stack
traversal into postfix order and a stack machine over the postfix code.

`Meaning` is the recursive definition the machine is proved against.
 */
module Query {

  import opened Basics
  import opened Registers
  import opened KeyValueCaches

  // ------------------------------------------------------------------- set operations

  /** Inserts the smaller set into the bigger one. */
  method Union<T(==)>(left: set<T>, right: set<T>) returns (result: set<T>)
    ensures result == left + right
  {
    var small := if |left| <= |right| then left else right;
    var big := if |left| <= |right| then right else left;
    result := big;
    var rest := small;
    while rest != {}
      invariant rest <= small
      invariant result == big + (small - rest)
      decreases rest
    {
      var element :| element in rest;
      result := result + {element};
      rest := rest - {element};
    }
  }

  /** Erases from the smaller set what is not in the bigger one. */
  method Intersection<T(==)>(left: set<T>, right: set<T>) returns (result: set<T>)
    ensures result == left * right
  {
    var small := if |left| <= |right| then left else right;
    var big := if |left| <= |right| then right else left;
    result := small;
    var rest := small;
    while rest != {}
      invariant rest <= small
      invariant result == rest + (small - rest) * big
      decreases rest
    {
      var element :| element in rest;
      if element !in big {
        result := result - {element};
      }
      rest := rest - {element};
    }
  }

  /** Erases the elements of the right set from the left one. */
  method Difference<T(==)>(left: set<T>, right: set<T>) returns (result: set<T>)
    ensures result == left - right
  {
    result := left;
    var rest := right;
    while rest != {}
      invariant rest <= right
      invariant result == left - (right - rest)
      decreases rest
    {
      var element :| element in rest;
      result := result - {element};
      rest := rest - {element};
    }
  }

  // -------------------------------------------------------------------------- the tree

  datatype Operator = UnionOp | IntersectionOp | DifferenceOp

  datatype Node =
    | ValueNode(key: Key)
    | OpNode(op: Operator, left: Node, right: Node)

  /** A query as the parser leaves it. */
  datatype Parsed = EmptyQuery | SyntaxError | Tree(root: Node)

  function Combine(op: Operator, left: set<Val>, right: set<Val>): set<Val> {
    match op
    case UnionOp => left + right
    case IntersectionOp => left * right
    case DifferenceOp => left - right
  }

  function Meaning(node: Node, lookup: Key -> set<Val>): set<Val> {
    match node
    case ValueNode(key) => lookup(key)
    case OpNode(op, left, right) => Combine(op, Meaning(left, lookup), Meaning(right, lookup))
  }

  /** The meaning of a tree element by element. */
  lemma {:induction false} MeaningByElement(x: Node, y: Node, k: Key, f: Key -> set<Val>, v: Val)
    ensures v in Meaning(ValueNode(k), f) <==> v in f(k)
    ensures v in Meaning(OpNode(UnionOp, x, y), f) <==> v in Meaning(x, f) || v in Meaning(y, f)
    ensures v in Meaning(OpNode(IntersectionOp, x, y), f) <==> v in Meaning(x, f) && v in Meaning(y, f)
    ensures v in Meaning(OpNode(DifferenceOp, x, y), f) <==> v in Meaning(x, f) && v !in Meaning(y, f)
  {
  }

  function LeafKeys(node: Node): set<Key> {
    match node
    case ValueNode(key) => {key}
    case OpNode(_, left, right) => LeafKeys(left) + LeafKeys(right)
  }

  /** The meaning of a tree depends on the sets of its leaf keys only. */
  lemma {:induction false} MeaningReadsLeavesOnly(node: Node, f: Key -> set<Val>, g: Key -> set<Val>)
    requires forall k :: k in LeafKeys(node) ==> f(k) == g(k)
    ensures Meaning(node, f) == Meaning(node, g)
  {
    match node
    case ValueNode(key) =>
      assert key in LeafKeys(node);
    case OpNode(_, left, right) =>
      MeaningReadsLeavesOnly(left, f, g);
      MeaningReadsLeavesOnly(right, f, g);
  }

  function Size(node: Node): nat {
    match node
    case ValueNode(_) => 1
    case OpNode(_, left, right) => 1 + Size(left) + Size(right)
  }

  function StackSize(stack: seq<Node>): nat {
    if stack == [] then 0 else Size(stack[|stack| - 1]) + StackSize(stack[..|stack| - 1])
  }

  function StackKeys(stack: seq<Node>): set<Key> {
    if stack == [] then {} else LeafKeys(stack[|stack| - 1]) + StackKeys(stack[..|stack| - 1])
  }

  // ------------------------------------------------------------------------- traversal

  function PostOrder(node: Node): seq<Node> {
    match node
    case ValueNode(_) => [node]
    case OpNode(_, left, right) => PostOrder(left) + PostOrder(right) + [node]
  }

  /** The order in which the explicit stack yields the nodes. */
  function RootRightLeft(node: Node): seq<Node> {
    match node
    case ValueNode(_) => [node]
    case OpNode(_, left, right) => [node] + RootRightLeft(right) + RootRightLeft(left)
  }

  function StackYield(stack: seq<Node>): seq<Node> {
    if stack == [] then [] else RootRightLeft(stack[|stack| - 1]) + StackYield(stack[..|stack| - 1])
  }

  lemma {:induction false} ReversedYieldIsPostOrder(node: Node)
    ensures Reversed(RootRightLeft(node)) == PostOrder(node)
  {
    match node
    case ValueNode(_) =>
    case OpNode(_, left, right) =>
      ReversedYieldIsPostOrder(left);
      ReversedYieldIsPostOrder(right);
      ReversedConcat([node] + RootRightLeft(right), RootRightLeft(left));
      ReversedConcat([node], RootRightLeft(right));
      assert Reversed([node]) == [node];
  }

  lemma {:induction false} PushOneYield(stack: seq<Node>, node: Node)
    ensures StackYield(stack + [node]) == RootRightLeft(node) + StackYield(stack)
  {
    assert (stack + [node])[..|stack|] == stack;
  }

  lemma {:induction false} PushOneKeys(stack: seq<Node>, node: Node)
    ensures StackKeys(stack + [node]) == LeafKeys(node) + StackKeys(stack)
    ensures StackSize(stack + [node]) == Size(node) + StackSize(stack)
  {
    assert (stack + [node])[..|stack|] == stack;
  }

  /** A node on the stack and its children, the right one on top, yield the same. */
  lemma {:induction false} PushChildrenYield(rest: seq<Node>, node: Node)
    requires node.OpNode?
    ensures StackYield(rest + [node]) == [node] + StackYield(rest + [node.left] + [node.right])
  {
    PushOneYield(rest, node);
    PushOneYield(rest, node.left);
    PushOneYield(rest + [node.left], node.right);
    Regroup([node], RootRightLeft(node.right), RootRightLeft(node.left), StackYield(rest));
  }

  lemma {:induction false} Regroup<T>(a: seq<T>, b: seq<T>, c: seq<T>, d: seq<T>)
    ensures (a + b + c) + d == a + (b + (c + d))
  {
  }

  lemma {:induction false} PushChildrenKeys(rest: seq<Node>, node: Node)
    requires node.OpNode?
    ensures StackKeys(rest + [node]) == StackKeys(rest + [node.left] + [node.right])
    ensures StackSize(rest + [node.left] + [node.right]) < StackSize(rest + [node])
  {
    PushOneKeys(rest, node);
    PushOneKeys(rest, node.left);
    PushOneKeys(rest + [node.left], node.right);
  }

  method PostOrderTraversal(root: Node) returns (result: seq<Node>)
    ensures result == PostOrder(root)
  {
    result := [];
    var stack := [root];
    PushOneYield([], root);
    assert [] + [root] == [root];
    while stack != []
      invariant result + StackYield(stack) == RootRightLeft(root)
      decreases StackSize(stack)
    {
      var top := stack[|stack| - 1];
      assert stack == stack[..|stack| - 1] + [top];
      ghost var before := result;
      stack := stack[..|stack| - 1];
      result := result + [top];
      PushOneYield(stack, top);
      PushOneKeys(stack, top);
      if top.OpNode? {
        PushChildrenYield(stack, top);
        PushChildrenKeys(stack, top);
        stack := stack + [top.left];
        stack := stack + [top.right];
      }
      assert result + StackYield(stack) == before + ([top] + StackYield(stack));
    }
    assert result + [] == result;
    ReversedYieldIsPostOrder(root);
    result := Reversed(result);
  }

  /** The keys of all leaves, collected with an explicit stack. */
  method Keys(root: Node) returns (keys: set<Key>)
    ensures keys == LeafKeys(root)
  {
    keys := {};
    var nodes := [root];
    PushOneKeys([], root);
    assert [] + [root] == [root];
    while nodes != []
      invariant forall k :: k in keys || k in StackKeys(nodes) <==> k in LeafKeys(root)
      decreases StackSize(nodes)
    {
      var next := nodes[|nodes| - 1];
      assert nodes == nodes[..|nodes| - 1] + [next];
      nodes := nodes[..|nodes| - 1];
      PushOneKeys(nodes, next);
      if next.ValueNode? {
        assert LeafKeys(next) == {next.key};
        keys := keys + {next.key};
      } else {
        PushChildrenKeys(nodes, next);
        nodes := nodes + [next.left];
        nodes := nodes + [next.right];
      }
    }
  }

  // --------------------------------------------------------------------- stack machine

  /** One instruction; an operator without two operands underflows. */
  function MachineStep(node: Node, stack: seq<set<Val>>, lookup: Key -> set<Val>): Option<seq<set<Val>>> {
    match node
    case ValueNode(key) => Some(stack + [lookup(key)])
    case OpNode(op, _, _) =>
      if |stack| < 2 then None
      else Some(stack[..|stack| - 2] + [Combine(op, stack[|stack| - 2], stack[|stack| - 1])])
  }

  function Machine(code: seq<Node>, stack: seq<set<Val>>, lookup: Key -> set<Val>): Option<seq<set<Val>>> {
    if code == [] then Some(stack)
    else
      var next := MachineStep(code[0], stack, lookup);
      if next.None? then None else Machine(code[1..], next.value, lookup)
  }

  lemma {:induction false} MachineConcat(a: seq<Node>, b: seq<Node>, stack: seq<set<Val>>, lookup: Key -> set<Val>)
    ensures Machine(a + b, stack, lookup) ==
            if Machine(a, stack, lookup).None? then None else Machine(b, Machine(a, stack, lookup).value, lookup)
    decreases |a|
  {
    if a == [] {
      assert a + b == b;
    } else {
      assert (a + b)[1..] == a[1..] + b;
      var next := MachineStep(a[0], stack, lookup);
      if next.Some? {
        MachineConcat(a[1..], b, next.value, lookup);
      }
    }
  }

  /** The postfix code of a tree never underflows and pushes exactly its meaning. */
  lemma {:induction false} MachineComputesMeaning(node: Node, stack: seq<set<Val>>, lookup: Key -> set<Val>)
    ensures Machine(PostOrder(node), stack, lookup) == Some(stack + [Meaning(node, lookup)])
  {
    match node
    case ValueNode(_) =>
      assert PostOrder(node)[1..] == [];
    case OpNode(op, left, right) =>
      MachineComputesMeaning(left, stack, lookup);
      var one := stack + [Meaning(left, lookup)];
      MachineComputesMeaning(right, one, lookup);
      var two := one + [Meaning(right, lookup)];
      MachineConcat(PostOrder(left) + PostOrder(right), [node], stack, lookup);
      MachineConcat(PostOrder(left), PostOrder(right), stack, lookup);
      assert [node][1..] == [];
      assert two[..|two| - 2] == stack;
  }

  method Op(op: Operator, left: set<Val>, right: set<Val>) returns (result: set<Val>)
    ensures result == Combine(op, left, right)
    ensures op == UnionOp ==> forall v :: v in result <==> v in left || v in right
    ensures op == IntersectionOp ==> forall v :: v in result <==> v in left && v in right
    ensures op == DifferenceOp ==> forall v :: v in result <==> v in left && v !in right
  {
    match op
    case UnionOp => result := Union(left, right);
    case IntersectionOp => result := Intersection(left, right);
    case DifferenceOp => result := Difference(left, right);
  }

  /** Replaces the top two sets by the result of the operator; the top one is the right operand. */
  method VisitOpNode(op: Operator, stack: seq<set<Val>>) returns (stack': seq<set<Val>>)
    requires |stack| >= 2
    ensures stack' == stack[..|stack| - 2] + [Combine(op, stack[|stack| - 2], stack[|stack| - 1])]
  {
    stack' := stack;
    var right := stack'[|stack'| - 1];
    stack' := stack'[..|stack'| - 1];
    var left := stack'[|stack'| - 1];
    stack' := stack'[..|stack'| - 1];
    var result := Op(op, left, right);
    stack' := stack' + [result];
  }

  /** Runs postfix code; it may be any code that does not underflow and leaves a set. */
  method Compute(postorder: seq<Node>, lookup: Key -> set<Val>) returns (result: set<Val>)
    requires var final := Machine(postorder, [], lookup); final.Some? && final.value != []
    ensures var final := Machine(postorder, [], lookup).value; result == final[|final| - 1]
  {
    var stack := [];
    assert postorder[0..] == postorder;
    for i := 0 to |postorder|
      invariant Machine(postorder[i..], stack, lookup) == Machine(postorder, [], lookup)
    {
      assert postorder[i..][1..] == postorder[i + 1..];
      match postorder[i]
      case ValueNode(key) => stack := stack + [lookup(key)];
      case OpNode(op, _, _) => stack := VisitOpNode(op, stack);
    }
    result := stack[|stack| - 1];
  }

  /** Evaluation is the recursive set algebra, on every tree. */
  method Eval(node: Node, lookup: Key -> set<Val>) returns (result: set<Val>)
    ensures result == Meaning(node, lookup)
    ensures node.ValueNode? ==> result == lookup(node.key)
    ensures node.OpNode? && node.op == UnionOp ==>
              forall v :: v in result <==> v in Meaning(node.left, lookup) || v in Meaning(node.right, lookup)
    ensures node.OpNode? && node.op == IntersectionOp ==>
              forall v :: v in result <==> v in Meaning(node.left, lookup) && v in Meaning(node.right, lookup)
    ensures node.OpNode? && node.op == DifferenceOp ==>
              forall v :: v in result <==> v in Meaning(node.left, lookup) && v !in Meaning(node.right, lookup)
  {
    var postorder := PostOrderTraversal(node);
    MachineComputesMeaning(node, [], lookup);
    result := Compute(postorder, lookup);
  }
}
