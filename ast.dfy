/** The AST built by the grammar actions: one node shape for every construct,
    with a kind tag, an ordered list of children and an optional payload. */
module Ast {
  import opened Values

  datatype Kind =
    | Program | StatementList | Declaration | Assignment
    | If | While | For | Binary | Unary
    | Identifier | Number | Float | String | Type

  /** A node; as in the source, children default to none and the value to None. */
  datatype Node = Node(kind: Kind, children: seq<Node> := [], value: Value := NoValue)

  /** Number of nodes in the tree rooted at `n`. */
  function Size(n: Node): (r: nat)
    ensures r >= 1
    decreases n, 1
  {
    1 + SumSizes(n.children)
  }

  /** Total number of nodes in a list of sibling trees. */
  function SumSizes(cs: seq<Node>): nat
    decreases cs, 0, |cs| + 1
  {
    PrefixSize(cs, |cs|)
  }

  /** Total number of nodes in the first `k` of a list of sibling trees. */
  function PrefixSize(cs: seq<Node>, k: nat): nat
    requires k <= |cs|
    decreases cs, 0, k
  {
    if k == 0 then 0 else PrefixSize(cs, k - 1) + Size(cs[k - 1])
  }

  /** `subtree_size`: an absent tree has no nodes. */
  function SubtreeSize(t: Option<Node>): (r: nat)
    ensures r == 0 <==> t.None?
  {
    match t
    case None => 0
    case Some(n) => Size(n)
  }

  /** A longer prefix of siblings has at least as many nodes. */
  lemma {:induction false} PrefixSizeMonotone(cs: seq<Node>, k: nat, m: nat)
    requires k <= m <= |cs|
    ensures PrefixSize(cs, k) <= PrefixSize(cs, m)
    decreases m
  {
    if k < m {
      PrefixSizeMonotone(cs, k, m - 1);
    }
  }

  /** No sibling is larger than all siblings together. */
  lemma SizeAtMostSum(cs: seq<Node>, k: nat)
    requires k < |cs|
    ensures Size(cs[k]) <= SumSizes(cs)
  {
    PrefixSizeMonotone(cs, k + 1, |cs|);
  }

  /** Two trees with the same kinds and child counts everywhere. */
  predicate SameShape(a: Node, b: Node)
    decreases a
  {
    && a.kind == b.kind && |a.children| == |b.children|
    && forall k :: 0 <= k < |a.children| ==> SameShape(a.children[k], b.children[k])
  }

  /** Trees of the same shape have the same size. */
  lemma {:induction false} SameShapeSize(a: Node, b: Node)
    requires SameShape(a, b)
    ensures Size(a) == Size(b)
    decreases a, 1
  {
    SameShapePrefixSize(a.children, b.children, |a.children|);
  }

  lemma {:induction false} SameShapePrefixSize(xs: seq<Node>, ys: seq<Node>, k: nat)
    requires k <= |xs| == |ys| && forall m :: 0 <= m < |xs| ==> SameShape(xs[m], ys[m])
    ensures PrefixSize(xs, k) == PrefixSize(ys, k)
    decreases xs, 0, k
  {
    if k > 0 {
      SameShapePrefixSize(xs, ys, k - 1);
      SameShapeSize(xs[k - 1], ys[k - 1]);
    }
  }

  // ---------------------------------------------------------------------------
  // The shapes the grammar actions produce
  // ---------------------------------------------------------------------------

  const BinaryOperators: set<string> := {"+", "-", "*", "/", "%", "==", "!=", "<", "<=", ">", ">="}
  const TypeNames: set<string> := {"int", "float", "string", "bool"}

  /** An expression node: `binary` with two operands and its operator, `unary`
      with one operand and "-", or a leaf of a literal or identifier kind. */
  predicate IsExpr(n: Node)
    ensures IsExpr(n) ==> n.kind in {Binary, Unary, Identifier, Number, Float, String} && |n.children| <= 2
    decreases n
  {
    match n.kind
    case Binary =>
      |n.children| == 2 && n.value.StrVal? && n.value.s in BinaryOperators
      && IsExpr(n.children[0]) && IsExpr(n.children[1])
    case Unary => |n.children| == 1 && n.value == StrVal("-") && IsExpr(n.children[0])
    case Identifier => n.children == [] && n.value.StrVal?
    case Number => n.children == [] && n.value.IntVal? && n.value.i >= 0
    case Float => n.children == [] && n.value.FloatVal? && n.value.r >= 0.0
    case String => n.children == [] && n.value.StrVal?
    case _ => false
  }

  /** `declaration`: children [type, identifier] or [type, identifier, initializer]. */
  predicate IsDeclaration(n: Node)
    ensures IsDeclaration(n) ==> |n.children| >= 2 && !IsExpr(n.children[0]) && IsExpr(n.children[1])
  {
    && n.kind == Declaration && n.value == NoValue
    && (|n.children| == 2 || |n.children| == 3)
    && n.children[0].kind == Type && n.children[0].children == []
    && n.children[0].value.StrVal? && n.children[0].value.s in TypeNames
    && n.children[1].kind == Identifier && n.children[1].children == [] && n.children[1].value.StrVal?
    && (|n.children| == 3 ==> IsExpr(n.children[2]))
  }

  /** A statement node: a declaration, an assignment [identifier, expression],
      `if` with 2 or 3 children, `while` with 2, `for` with exactly 4, or an
      expression used as a statement. */
  predicate IsStatement(n: Node)
    ensures IsStatement(n) ==> n.kind !in {Program, StatementList, Type}
    decreases n, 1
  {
    match n.kind
    case Declaration => IsDeclaration(n)
    case Assignment =>
      && n.value == NoValue && |n.children| == 2
      && n.children[0].kind == Identifier && n.children[0].children == [] && n.children[0].value.StrVal?
      && IsExpr(n.children[1])
    case If =>
      && n.value == NoValue && (|n.children| == 2 || |n.children| == 3)
      && IsExpr(n.children[0]) && IsBlock(n.children[1])
      && (|n.children| == 3 ==> IsBlock(n.children[2]))
    case While =>
      n.value == NoValue && |n.children| == 2 && IsExpr(n.children[0]) && IsBlock(n.children[1])
    case For =>
      && n.value == NoValue && |n.children| == 4
      && IsDeclaration(n.children[0]) && IsExpr(n.children[1]) && IsExpr(n.children[2])
      && IsBlock(n.children[3])
    case _ => IsExpr(n)
  }

  /** `statement_list`: one or more statements in source order. */
  predicate IsBlock(n: Node)
    ensures IsBlock(n) ==> n.children != [] && forall k :: 0 <= k < |n.children| ==> n.children[k].kind !in {Program, StatementList, Type}
    decreases n, 0
  {
    && n.kind == StatementList && n.value == NoValue && |n.children| >= 1
    && forall k :: 0 <= k < |n.children| ==> IsStatement(n.children[k])
  }

  /** `program`: exactly one child, the statement list. */
  predicate IsProgram(n: Node)
    ensures IsProgram(n) ==> |n.children| == 1 && n.children[0].kind == StatementList && n.children[0].children != []
  {
    n.kind == Program && n.value == NoValue && |n.children| == 1 && IsBlock(n.children[0])
  }
}
