/** The grammar of the toy C-like language and the trees its actions build.
    The parser is LALR with two declared precedence levels; here it is
    written as a recursive-descent parser over the token list that accepts
    the same sentences and groups operators the same way. */
module Parser {
  import opened Values
  import opened Ast
  import opened Lexer

  /** A subtree together with the position of the first token after it. */
  datatype Parse = Parse(node: Node, next: nat)

  /** The token types `type` derives. */
  const TypeKinds: set<TokenType> := {INT, FLOAT, STRING, BOOL}

  // ---------------------------------------------------------------------------
  // Expressions
  // ---------------------------------------------------------------------------

  /** The precedence level of a binary operator token: `+ -` on level 1 and
      `* / %` on level 2, both left-associative; the comparisons are not
      declared, so they sit below both, on level 0, and a comparison
      following a comparison is shifted (they group to the right). */
  function BinaryLevel(k: TokenType): Option<nat>
  {
    match k
    case PLUS | MINUS => Some(1)
    case TIMES | DIVIDE | MODULO => Some(2)
    case EQ | NE | LT | LE | GT | GE => Some(0)
    case _ => None
  }

  /** The lowest level an operator may have to join the right operand of an
      operator on `level`: a higher one for the left-associative levels, the
      same one for the comparisons. */
  function RightLevel(level: nat): nat
  {
    if level == 0 then 0 else level + 1
  }

  /** The lowest level an operator may have to join the operand of a unary
      minus, which takes the precedence of `MINUS`. */
  const UnaryOperandLevel: nat := 2

  /** `primary_expression : ID | NUMBER | FLOAT_NUMBER | STRING_LITERAL`: the
      node kind is chosen by the value first, then by the token type. */
  function PrimaryNode(t: Token): (r: Node)
    ensures r.children == [] && r.value == t.value
    ensures WellFormed(t) && IsOperand(t) ==>
      IsExpr(r) &&
      (r.kind == Number <==> t.kind == NUMBER) && (r.kind == Float <==> t.kind == FLOAT_NUMBER) &&
      (r.kind == String <==> t.kind == STRING_LITERAL) && (r.kind == Identifier <==> t.kind == ID)
  {
    if t.value.IntVal? then Node(Number, [], t.value)
    else if t.value.FloatVal? then Node(Float, [], t.value)
    else if t.kind == STRING_LITERAL then Node(String, [], t.value)
    else Node(Identifier, [], t.value)
  }

  /** A well-formed operator token carries the operator as a string. */
  lemma OperatorValue(t: Token)
    ensures WellFormed(t) && BinaryLevel(t.kind).Some? ==> t.value.StrVal? && t.value.s in BinaryOperators
    ensures WellFormed(t) && t.kind == MINUS ==> t.value == StrVal("-")
  {
  }

  /** An expression whose operators all have level `min` or more, from `pos`. */
  function ParseExpression(ts: seq<Token>, pos: nat, min: nat): (r: Option<Parse>)
    ensures r.Some? ==> pos < r.value.next <= |ts|
    ensures r.Some? && AllWellFormed(ts) ==> IsExpr(r.value.node)
    decreases |ts| - pos, 2
  {
    match ParseUnary(ts, pos)
    case None => None
    case Some(Parse(left, next)) => ParseOperators(ts, left, next, min)
  }

  /** `unary_expression : MINUS expression`, or a primary expression. */
  function ParseUnary(ts: seq<Token>, pos: nat): (r: Option<Parse>)
    ensures r.Some? ==> pos < r.value.next <= |ts|
    ensures r.Some? && AllWellFormed(ts) ==> IsExpr(r.value.node)
    decreases |ts| - pos, 1
  {
    if pos < |ts| && ts[pos].kind == MINUS then
      match ParseExpression(ts, pos + 1, UnaryOperandLevel)
      case None => None
      case Some(Parse(operand, next)) =>
        OperatorValue(ts[pos]);
        Some(Parse(Node(Unary, [operand], ts[pos].value), next))
    else ParsePrimary(ts, pos)
  }

  /** `primary_expression`: a literal or identifier, or an expression in
      parentheses, which stands for itself. */
  function ParsePrimary(ts: seq<Token>, pos: nat): (r: Option<Parse>)
    ensures r.Some? ==> pos < r.value.next <= |ts|
    ensures r.Some? && AllWellFormed(ts) ==> IsExpr(r.value.node)
    decreases |ts| - pos, 0
  {
    if pos >= |ts| then None
    else if ts[pos].kind in {ID, NUMBER, FLOAT_NUMBER, STRING_LITERAL} then Some(Parse(PrimaryNode(ts[pos]), pos + 1))
    else if ts[pos].kind == LPAREN then
      match ParseExpression(ts, pos + 1, 0)
      case None => None
      case Some(Parse(inner, next)) =>
        if next < |ts| && ts[next].kind == RPAREN then Some(Parse(inner, next + 1)) else None
    else None
  }

  /** A minus builds a `unary` node whose one child is the expression parsed
      after it, with operators of level 2 or more; any other token starts a
      primary expression. */
  lemma UnaryShape(ts: seq<Token>, pos: nat)
    ensures pos < |ts| && ts[pos].kind == MINUS && ParseUnary(ts, pos).Some? ==>
              var p := ParseUnary(ts, pos).value;
              && p.node.kind == Unary && |p.node.children| == 1 && p.node.value == ts[pos].value
              && ParseExpression(ts, pos + 1, UnaryOperandLevel) == Some(Parse(p.node.children[0], p.next))
    ensures pos >= |ts| || ts[pos].kind != MINUS ==> ParseUnary(ts, pos) == ParsePrimary(ts, pos)
  {
  }

  /** A primary expression is a literal or identifier leaf taking one token,
      or an expression in parentheses that adds no node of its own. */
  lemma PrimaryShape(ts: seq<Token>, pos: nat)
    ensures ParsePrimary(ts, pos).Some? ==> pos < |ts| && (IsOperand(ts[pos]) || ts[pos].kind == LPAREN)
    ensures pos < |ts| && IsOperand(ts[pos]) ==> ParsePrimary(ts, pos) == Some(Parse(PrimaryNode(ts[pos]), pos + 1))
    ensures pos < |ts| && ts[pos].kind == LPAREN && ParsePrimary(ts, pos).Some? ==>
              var p := ParsePrimary(ts, pos).value;
              ts[p.next - 1].kind == RPAREN && ParseExpression(ts, pos + 1, 0) == Some(Parse(p.node, p.next - 1))
  {
  }

  /** `binary_expression : expression op expression`: the operators of level
      `min` or more that follow the operand `left` at `pos`, each taking as its
      right operand everything that binds tighter. */
  function ParseOperators(ts: seq<Token>, left: Node, pos: nat, min: nat): (r: Option<Parse>)
    requires pos <= |ts|
    ensures r.Some? ==> pos <= r.value.next <= |ts|
    ensures r.Some? && AllWellFormed(ts) && IsExpr(left) ==> IsExpr(r.value.node)
    decreases |ts| - pos, 3
  {
    if pos < |ts| && BinaryLevel(ts[pos].kind).Some? && BinaryLevel(ts[pos].kind).value >= min then
      match ParseExpression(ts, pos + 1, RightLevel(BinaryLevel(ts[pos].kind).value))
      case None => None
      case Some(Parse(right, next)) =>
        OperatorValue(ts[pos]);
        ParseOperators(ts, Node(Binary, [left, right], ts[pos].value), next, min)
    else Some(Parse(left, pos))
  }

  // ---------------------------------------------------------------------------
  // Statements
  // ---------------------------------------------------------------------------

  /** `expression_statement : expression SEMICOLON`: the statement is the
      expression's own node. */
  function ParseExpressionStatement(ts: seq<Token>, pos: nat): (r: Option<Parse>)
    ensures r.Some? ==> pos < r.value.next <= |ts|
    ensures r.Some? && AllWellFormed(ts) ==> IsExpr(r.value.node)
  {
    match ParseExpression(ts, pos, 0)
    case None => None
    case Some(Parse(e, next)) => if next < |ts| && ts[next].kind == SEMICOLON then Some(Parse(e, next + 1)) else None
  }

  /** `declaration : type ID SEMICOLON | type ID ASSIGN expression SEMICOLON`:
      a type node and an identifier node, then the initializer if there is one. */
  function ParseDeclaration(ts: seq<Token>, pos: nat): (r: Option<Parse>)
    ensures r.Some? ==> pos < r.value.next <= |ts|
    ensures r.Some? && AllWellFormed(ts) ==> IsDeclaration(r.value.node)
  {
    if pos + 2 < |ts| && ts[pos].kind in TypeKinds && ts[pos + 1].kind == ID then
      var declared := [Node(Type, [], ts[pos].value), Node(Identifier, [], ts[pos + 1].value)];
      if ts[pos + 2].kind == SEMICOLON then Some(Parse(Node(Declaration, declared), pos + 3))
      else if ts[pos + 2].kind == ASSIGN then
        match ParseExpression(ts, pos + 3, 0)
        case None => None
        case Some(Parse(init, next)) =>
          if next < |ts| && ts[next].kind == SEMICOLON then Some(Parse(Node(Declaration, declared + [init]), next + 1)) else None
      else None
    else None
  }

  /** `assignment : ID ASSIGN expression SEMICOLON`. */
  function ParseAssignment(ts: seq<Token>, pos: nat): (r: Option<Parse>)
    ensures r.Some? ==> pos < r.value.next <= |ts|
    ensures r.Some? && AllWellFormed(ts) ==> IsStatement(r.value.node) && r.value.node.kind == Assignment
  {
    if pos + 1 < |ts| && ts[pos].kind == ID && ts[pos + 1].kind == ASSIGN then
      match ParseExpression(ts, pos + 2, 0)
      case None => None
      case Some(Parse(e, next)) =>
        if next < |ts| && ts[next].kind == SEMICOLON
        then Some(Parse(Node(Assignment, [Node(Identifier, [], ts[pos].value), e]), next + 1))
        else None
    else None
  }

  /** `LPAREN expression RPAREN` after `if` or `while`. */
  function ParseCondition(ts: seq<Token>, pos: nat): (r: Option<Parse>)
    ensures r.Some? ==> pos < r.value.next <= |ts|
    ensures r.Some? && AllWellFormed(ts) ==> IsExpr(r.value.node)
  {
    if pos < |ts| && ts[pos].kind == LPAREN then
      match ParseExpression(ts, pos + 1, 0)
      case None => None
      case Some(Parse(e, next)) => if next < |ts| && ts[next].kind == RPAREN then Some(Parse(e, next + 1)) else None
    else None
  }

  /** The header of a `for` after the keyword: `LPAREN declaration expression
      SEMICOLON expression RPAREN`, as its three nodes and the position after it. */
  function ParseForHeader(ts: seq<Token>, pos: nat): (r: Option<(Node, Node, Node, nat)>)
    ensures r.Some? ==> pos < r.value.3 <= |ts|
    ensures r.Some? && AllWellFormed(ts) ==> IsDeclaration(r.value.0) && IsExpr(r.value.1) && IsExpr(r.value.2)
  {
    if pos < |ts| && ts[pos].kind == LPAREN then
      match ParseDeclaration(ts, pos + 1)
      case None => None
      case Some(Parse(init, p1)) =>
        match ParseExpression(ts, p1, 0)
        case None => None
        case Some(Parse(cond, p2)) =>
          if p2 < |ts| && ts[p2].kind == SEMICOLON then
            match ParseExpression(ts, p2 + 1, 0)
            case None => None
            case Some(Parse(update, p3)) =>
              if p3 < |ts| && ts[p3].kind == RPAREN then Some((init, cond, update, p3 + 1)) else None
          else None
    else None
  }

  /** A statement: the first token decides which rule applies, and a
      statement that no other rule starts is an expression statement. */
  function ParseStatement(ts: seq<Token>, pos: nat): (r: Option<Parse>)
    ensures r.Some? ==> pos < r.value.next <= |ts|
    ensures r.Some? && AllWellFormed(ts) ==> IsStatement(r.value.node)
    decreases |ts| - pos, 2
  {
    if pos >= |ts| then None
    else if ts[pos].kind in TypeKinds then ParseDeclaration(ts, pos)
    else if ts[pos].kind == ID && pos + 1 < |ts| && ts[pos + 1].kind == ASSIGN then ParseAssignment(ts, pos)
    else if ts[pos].kind == IF then ParseIf(ts, pos)
    else if ts[pos].kind == WHILE then ParseWhile(ts, pos)
    else if ts[pos].kind == FOR then ParseFor(ts, pos)
    else ParseExpressionStatement(ts, pos)
  }

  // The nodes the compound statements build have the statement shape when
  // their parts have theirs.

  lemma IfShape(cond: Node, body: Node, otherwise: seq<Node>)
    requires |otherwise| <= 1
    ensures IsExpr(cond) && IsBlock(body) && (otherwise != [] ==> IsBlock(otherwise[0]))
      ==> IsStatement(Node(If, [cond, body] + otherwise))
  {
  }

  lemma WhileShape(cond: Node, body: Node)
    ensures IsExpr(cond) && IsBlock(body) ==> IsStatement(Node(While, [cond, body]))
  {
  }

  lemma ForShape(init: Node, cond: Node, update: Node, body: Node)
    ensures IsDeclaration(init) && IsExpr(cond) && IsExpr(update) && IsBlock(body)
      ==> IsStatement(Node(For, [init, cond, update, body]))
  {
  }

  /** `if_statement : IF LPAREN expression RPAREN block` with an optional
      `ELSE block`: a block followed by `else` takes the second block. */
  function ParseIf(ts: seq<Token>, pos: nat): (r: Option<Parse>)
    ensures r.Some? ==> pos < r.value.next <= |ts|
    ensures r.Some? && AllWellFormed(ts) ==> IsStatement(r.value.node) && r.value.node.kind == If
    decreases |ts| - pos, 1
  {
    match ParseCondition(ts, pos + 1)
    case None => None
    case Some(Parse(cond, next)) =>
      match ParseBlock(ts, next)
      case None => None
      case Some(Parse(body, end)) =>
        if end < |ts| && ts[end].kind == ELSE then
          match ParseBlock(ts, end + 1)
          case None => None
          case Some(Parse(otherwise, last)) =>
            IfShape(cond, body, [otherwise]);
            Some(Parse(Node(If, [cond, body, otherwise]), last))
        else
          IfShape(cond, body, []);
          Some(Parse(Node(If, [cond, body]), end))
  }

  /** `while_statement : WHILE LPAREN expression RPAREN block`. */
  function ParseWhile(ts: seq<Token>, pos: nat): (r: Option<Parse>)
    ensures r.Some? ==> pos < r.value.next <= |ts|
    ensures r.Some? && AllWellFormed(ts) ==> IsStatement(r.value.node) && r.value.node.kind == While
    decreases |ts| - pos, 1
  {
    match ParseCondition(ts, pos + 1)
    case None => None
    case Some(Parse(cond, next)) =>
      match ParseBlock(ts, next)
      case None => None
      case Some(Parse(body, end)) =>
        WhileShape(cond, body);
        Some(Parse(Node(While, [cond, body]), end))
  }

  /** `for_statement : FOR header block`. */
  function ParseFor(ts: seq<Token>, pos: nat): (r: Option<Parse>)
    ensures r.Some? ==> pos < r.value.next <= |ts|
    ensures r.Some? && AllWellFormed(ts) ==> IsStatement(r.value.node) && r.value.node.kind == For
    decreases |ts| - pos, 1
  {
    match ParseForHeader(ts, pos + 1)
    case None => None
    case Some((init, cond, update, next)) =>
      match ParseBlock(ts, next)
      case None => None
      case Some(Parse(body, end)) =>
        ForShape(init, cond, update, body);
        Some(Parse(Node(For, [init, cond, update, body]), end))
  }

  /** `LBRACE statement_list RBRACE`: the block is the statement list's node. */
  function ParseBlock(ts: seq<Token>, pos: nat): (r: Option<Parse>)
    ensures r.Some? ==> pos < r.value.next <= |ts|
    ensures r.Some? && AllWellFormed(ts) ==> IsBlock(r.value.node)
    decreases |ts| - pos, 0
  {
    if pos < |ts| && ts[pos].kind == LBRACE then
      match ParseStatementList(ts, pos + 1)
      case None => None
      case Some(Parse(list, next)) => if next < |ts| && ts[next].kind == RBRACE then Some(Parse(list, next + 1)) else None
    else None
  }

  /** `statement_list : statement | statement_list statement`: the first
      statement makes a list node, and each later one is appended to it. */
  function ParseStatementList(ts: seq<Token>, pos: nat): (r: Option<Parse>)
    ensures r.Some? ==> pos < r.value.next <= |ts|
    ensures r.Some? && AllWellFormed(ts) ==> IsBlock(r.value.node)
    decreases |ts| - pos, 4
  {
    match ParseStatement(ts, pos)
    case None => None
    case Some(Parse(first, next)) => ParseMoreStatements(ts, Node(StatementList, [first]), next)
  }

  /** The statements after those already in `list`, up to a closing brace or
      the end of the tokens. */
  function ParseMoreStatements(ts: seq<Token>, list: Node, pos: nat): (r: Option<Parse>)
    requires pos <= |ts|
    ensures r.Some? ==> pos <= r.value.next <= |ts|
    ensures r.Some? ==> r.value.next == |ts| || ts[r.value.next].kind == RBRACE
    ensures r.Some? ==> list.children <= r.value.node.children
    ensures r.Some? && AllWellFormed(ts) && IsBlock(list) ==> IsBlock(r.value.node)
    decreases |ts| - pos, 3
  {
    if pos < |ts| && ts[pos].kind != RBRACE then
      match ParseStatement(ts, pos)
      case None => None
      case Some(Parse(s, next)) => ParseMoreStatements(ts, list.(children := list.children + [s]), next)
    else Some(Parse(list, pos))
  }

  /** Appending statements keeps the list's kind and value. */
  lemma {:induction false} MoreStatementsKeepList(ts: seq<Token>, list: Node, pos: nat)
    requires pos <= |ts|
    ensures ParseMoreStatements(ts, list, pos).Some? ==>
              ParseMoreStatements(ts, list, pos).value.node == list.(children := ParseMoreStatements(ts, list, pos).value.node.children)
    decreases |ts| - pos
  {
    if pos < |ts| && ts[pos].kind != RBRACE {
      match ParseStatement(ts, pos)
      case None =>
      case Some(Parse(s, next)) => MoreStatementsKeepList(ts, list.(children := list.children + [s]), next);
    }
  }

  /** A statement list is one `statement_list` node, with no value, whose
      first child is the first statement, and it stops at the end of the
      tokens or before `}`. */
  lemma StatementListShape(ts: seq<Token>, pos: nat)
    ensures ParseStatementList(ts, pos).Some? ==>
              var p := ParseStatementList(ts, pos).value;
              && p.node.kind == StatementList && p.node.value == NoValue && p.node.children != []
              && ParseStatement(ts, pos).Some? && p.node.children[0] == ParseStatement(ts, pos).value.node
              && (p.next == |ts| || ts[p.next].kind == RBRACE)
  {
    match ParseStatement(ts, pos)
    case None =>
    case Some(Parse(first, next)) => MoreStatementsKeepList(ts, Node(StatementList, [first]), next);
  }

  // ---------------------------------------------------------------------------
  // Programs
  // ---------------------------------------------------------------------------

  /** `program : statement_list`, which must take every token; an input with
      no statement, or with tokens the grammar cannot take, has no tree. */
  function ParseProgram(ts: seq<Token>): (r: Option<Node>)
    ensures ts == [] ==> r.None?
    ensures r.Some? && AllWellFormed(ts) ==> IsProgram(r.value)
  {
    match ParseStatementList(ts, 0)
    case None => None
    case Some(Parse(list, next)) => if next == |ts| then Some(Node(Program, [list])) else None
  }

  /** `parse_code`: the tree of a source text, tokenized by the lexer rules. */
  function ParseCode(code: string): (r: Option<Node>)
    ensures r.Some? ==> IsProgram(r.value)
  {
    TokensWellFormed(code, 0);
    ParseProgram(Tokens(code))
  }

  // ---------------------------------------------------------------------------
  // How operators group
  // ---------------------------------------------------------------------------

  /** A token that is an operand on its own. */
  predicate IsOperand(t: Token)
  {
    t.kind in {ID, NUMBER, FLOAT_NUMBER, STRING_LITERAL}
  }

  /** `a o1 b o2 c` groups as `(a o1 b) o2 c` exactly when `o2` binds less
      tightly than `o1`, or as tightly with `o1` not a comparison;
      otherwise it groups as `a o1 (b o2 c)`. */
  lemma {:induction false} Grouping(a: Token, o1: Token, b: Token, o2: Token, c: Token)
    requires IsOperand(a) && IsOperand(b) && IsOperand(c)
    requires BinaryLevel(o1.kind).Some? && BinaryLevel(o2.kind).Some?
    ensures var (l1, l2) := (BinaryLevel(o1.kind).value, BinaryLevel(o2.kind).value);
      var (x, y, z) := (PrimaryNode(a), PrimaryNode(b), PrimaryNode(c));
      ParseExpression([a, o1, b, o2, c], 0, 0) == Some(Parse(
        if l2 < l1 || (l2 == l1 && l1 != 0)
        then Node(Binary, [Node(Binary, [x, y], o1.value), z], o2.value)
        else Node(Binary, [x, Node(Binary, [y, z], o2.value)], o1.value), 5))
  {
    var ts := [a, o1, b, o2, c];
    var (l1, l2) := (BinaryLevel(o1.kind).value, BinaryLevel(o2.kind).value);
    var (x, y, z) := (PrimaryNode(a), PrimaryNode(b), PrimaryNode(c));
    assert ParseUnary(ts, 0) == Some(Parse(x, 1));
    OperandAlone(ts, 4, RightLevel(l2));
    if l2 < RightLevel(l1) {
      OperandAlone(ts, 2, RightLevel(l1));
      OperatorStep(ts, x, 1, 0, l1, y, 3);
      OperatorStep(ts, Node(Binary, [x, y], o1.value), 3, 0, l2, z, 5);
      assert ParseOperators(ts, Node(Binary, [Node(Binary, [x, y], o1.value), z], o2.value), 5, 0).Some?;
    } else {
      assert ParseUnary(ts, 2) == Some(Parse(y, 3));
      OperatorStep(ts, y, 3, RightLevel(l1), l2, z, 5);
      assert ParseOperators(ts, Node(Binary, [y, z], o2.value), 5, RightLevel(l1)).Some?;
      OperatorStep(ts, x, 1, 0, l1, Node(Binary, [y, z], o2.value), 5);
      assert ParseOperators(ts, Node(Binary, [x, Node(Binary, [y, z], o2.value)], o1.value), 5, 0).Some?;
    }
  }

  /** `- a o b` groups as `-(a o b)` exactly when `o` is on the level of
      `* / %`, and as `(-a) o b` otherwise. */
  lemma {:induction false} UnaryGrouping(m: Token, a: Token, o: Token, b: Token)
    requires m.kind == MINUS && IsOperand(a) && IsOperand(b) && BinaryLevel(o.kind).Some?
    ensures var (x, y) := (PrimaryNode(a), PrimaryNode(b));
      ParseExpression([m, a, o, b], 0, 0) == Some(Parse(
        if BinaryLevel(o.kind).value == 2
        then Node(Unary, [Node(Binary, [x, y], o.value)], m.value)
        else Node(Binary, [Node(Unary, [x], m.value), y], o.value), 4))
  {
    var ts := [m, a, o, b];
    var (x, y) := (PrimaryNode(a), PrimaryNode(b));
    var l := BinaryLevel(o.kind).value;
    OperandAlone(ts, 3, RightLevel(l));
    if l == 2 {
      assert ParseUnary(ts, 1) == Some(Parse(x, 2));
      OperatorStep(ts, x, 2, UnaryOperandLevel, l, y, 4);
      assert ParseOperators(ts, Node(Binary, [x, y], o.value), 4, UnaryOperandLevel).Some?;
      assert ParseUnary(ts, 0) == Some(Parse(Node(Unary, [Node(Binary, [x, y], o.value)], m.value), 4));
    } else {
      OperandAlone(ts, 1, UnaryOperandLevel);
      assert ParseUnary(ts, 0) == Some(Parse(Node(Unary, [x], m.value), 2));
      OperatorStep(ts, Node(Unary, [x], m.value), 2, 0, l, y, 4);
      assert ParseOperators(ts, Node(Binary, [Node(Unary, [x], m.value), y], o.value), 4, 0).Some?;
    }
  }

  /** An operand token followed by the end, or by an operator below `min`,
      is a whole expression. */
  lemma OperandAlone(ts: seq<Token>, pos: nat, min: nat)
    requires pos < |ts| && IsOperand(ts[pos])
    requires pos + 1 == |ts| || BinaryLevel(ts[pos + 1].kind).None? || BinaryLevel(ts[pos + 1].kind).value < min
    ensures ParseExpression(ts, pos, min) == Some(Parse(PrimaryNode(ts[pos]), pos + 1))
  {
    assert ParseUnary(ts, pos) == Some(Parse(PrimaryNode(ts[pos]), pos + 1));
  }

  /** An operator of level `min` or more, with its right operand parsed, joins
      the left operand and parsing goes on after the right operand. */
  lemma OperatorStep(ts: seq<Token>, left: Node, pos: nat, min: nat, level: nat, right: Node, next: nat)
    requires pos < |ts| && BinaryLevel(ts[pos].kind) == Some(level) && level >= min
    requires ParseExpression(ts, pos + 1, RightLevel(level)) == Some(Parse(right, next))
    ensures ParseOperators(ts, left, pos, min) == ParseOperators(ts, Node(Binary, [left, right], ts[pos].value), next, min)
  {
  }

  // ---------------------------------------------------------------------------
  // Printing a tree back to tokens
  // ---------------------------------------------------------------------------

  /** A keyword or punctuation token, its fixed text as its value. */
  function Fixed(k: TokenType): Token
    requires k !in {ID, NUMBER, FLOAT_NUMBER, STRING_LITERAL}
  {
    Token(k, StrVal(FixedSpelling(k)))
  }

  /** The token type of a binary operator. */
  function OperatorKind(op: string): (k: TokenType)
    requires op in BinaryOperators
    ensures BinaryLevel(k).Some? && FixedSpelling(k) == op
  {
    if op == "+" then PLUS else if op == "-" then MINUS else if op == "*" then TIMES
    else if op == "/" then DIVIDE else if op == "%" then MODULO
    else if op == "==" then EQ else if op == "!=" then NE else if op == "<" then LT
    else if op == "<=" then LE else if op == ">" then GT else GE
  }

  /** The token type of a type name. */
  function TypeKind(name: string): (k: TokenType)
    requires name in TypeNames
    ensures k in TypeKinds && FixedSpelling(k) == name
  {
    if name == "int" then INT else if name == "float" then FLOAT else if name == "string" then STRING else BOOL
  }

  /** The tokens of an expression, every operator application in parentheses. */
  function UnparseExpr(e: Node): (u: seq<Token>)
    requires IsExpr(e)
    ensures |u| > 0 && (u[0].kind == LPAREN || (IsOperand(u[0]) && |u| == 1))
    decreases e
  {
    match e.kind
    case Binary =>
      [Fixed(LPAREN)] + UnparseExpr(e.children[0]) + [Token(OperatorKind(e.value.s), e.value)]
      + UnparseExpr(e.children[1]) + [Fixed(RPAREN)]
    case Unary => [Fixed(LPAREN), Fixed(MINUS)] + UnparseExpr(e.children[0]) + [Fixed(RPAREN)]
    case Identifier => [Token(ID, e.value)]
    case Number => [Token(NUMBER, e.value)]
    case Float => [Token(FLOAT_NUMBER, e.value)]
    case String => [Token(STRING_LITERAL, e.value)]
  }

  /** `( expression )` after `if` or `while`. */
  function UnparseCondition(e: Node): seq<Token>
    requires IsExpr(e)
  {
    [Fixed(LPAREN)] + UnparseExpr(e) + [Fixed(RPAREN)]
  }

  /** The tokens of a declaration, the initializer after `=` when there is one. */
  function UnparseDeclaration(d: Node): (u: seq<Token>)
    requires IsDeclaration(d)
    ensures u != [] && u[0].kind in TypeKinds
  {
    var name := d.children[0].value.s;
    var declared := [Token(TypeKind(name), d.children[0].value), Token(ID, d.children[1].value)];
    if |d.children| == 2 then declared + [Fixed(SEMICOLON)]
    else declared + [Fixed(ASSIGN)] + UnparseExpr(d.children[2]) + [Fixed(SEMICOLON)]
  }

  /** `( declaration expression ; expression )` after `for`. */
  function UnparseForHeader(init: Node, cond: Node, update: Node): seq<Token>
    requires IsDeclaration(init) && IsExpr(cond) && IsExpr(update)
  {
    [Fixed(LPAREN)] + UnparseDeclaration(init) + UnparseExpr(cond) + [Fixed(SEMICOLON)]
    + UnparseExpr(update) + [Fixed(RPAREN)]
  }

  /** The tokens of a statement. */
  function UnparseStatement(s: Node): (u: seq<Token>)
    requires IsStatement(s)
    ensures u != [] && u[0].kind !in {RBRACE, ELSE}
    decreases s, 0, 0
  {
    match s.kind
    case Declaration => UnparseDeclaration(s)
    case Assignment => [Token(ID, s.children[0].value), Fixed(ASSIGN)] + UnparseExpr(s.children[1]) + [Fixed(SEMICOLON)]
    case If =>
      [Fixed(IF)] + UnparseCondition(s.children[0]) + UnparseBlock(s.children[1])
      + (if |s.children| == 3 then [Fixed(ELSE)] + UnparseBlock(s.children[2]) else [])
    case While => [Fixed(WHILE)] + UnparseCondition(s.children[0]) + UnparseBlock(s.children[1])
    case For => [Fixed(FOR)] + UnparseForHeader(s.children[0], s.children[1], s.children[2]) + UnparseBlock(s.children[3])
    case Binary | Unary | Identifier | Number | Float | String => UnparseExpr(s) + [Fixed(SEMICOLON)]
  }

  /** `{ statements }` */
  function UnparseBlock(b: Node): seq<Token>
    requires IsBlock(b)
    decreases b, 2, 0
  {
    [Fixed(LBRACE)] + UnparseStatements(b, 0) + [Fixed(RBRACE)]
  }

  /** The tokens of the statements of a list from the `k`-th on. */
  function UnparseStatements(b: Node, k: nat): (u: seq<Token>)
    requires IsBlock(b) && k <= |b.children|
    ensures k < |b.children| ==> u != [] && u[0].kind !in {RBRACE, ELSE}
    decreases b, 1, |b.children| - k
  {
    if k == |b.children| then [] else UnparseStatement(b.children[k]) + UnparseStatements(b, k + 1)
  }

  /** The tokens of a program: its statements one after the other. */
  function UnparseProgram(p: Node): seq<Token>
    requires IsProgram(p)
  {
    UnparseStatements(p.children[0], 0)
  }

  /** The tokens `u` stand in `ts` from `pos` on. */
  predicate At(ts: seq<Token>, pos: nat, u: seq<Token>)
  {
    pos + |u| <= |ts| && ts[pos..pos + |u|] == u
  }

  lemma AtSplit(ts: seq<Token>, pos: nat, a: seq<Token>, b: seq<Token>, mid: nat)
    requires At(ts, pos, a + b) && mid == pos + |a|
    ensures At(ts, pos, a) && At(ts, mid, b)
  {
    assert ts[pos..pos + |a|] == (a + b)[..|a|];
    assert ts[pos + |a|..pos + |a| + |b|] == (a + b)[|a|..];
  }

  lemma AtCons(ts: seq<Token>, pos: nat, t: Token, u: seq<Token>, next: nat)
    requires At(ts, pos, [t] + u) && next == pos + 1
    ensures pos < |ts| && ts[pos] == t && At(ts, next, u)
  {
    AtSplit(ts, pos, [t], u, next);
    AtToken(ts, pos, t);
  }

  lemma AtToken(ts: seq<Token>, pos: nat, t: Token)
    requires At(ts, pos, [t])
    ensures pos < |ts| && ts[pos] == t
  {
    assert ts[pos] == ts[pos..pos + 1][0];
  }

  /** `( left op right )` from `pos`: where each part stands. */
  lemma AtBinary(ts: seq<Token>, pos: nat, left: seq<Token>, op: Token, right: seq<Token>, opPos: nat, close: nat)
    requires At(ts, pos, [Fixed(LPAREN)] + left + [op] + right + [Fixed(RPAREN)])
    requires opPos == pos + 1 + |left| && close == opPos + 1 + |right|
    ensures ts[pos] == Fixed(LPAREN) && At(ts, pos + 1, left) && ts[opPos] == op
    ensures At(ts, opPos + 1, right) && ts[close] == Fixed(RPAREN)
  {
    AtSplit(ts, pos, [Fixed(LPAREN)] + left + [op] + right, [Fixed(RPAREN)], close);
    AtSplit(ts, pos, [Fixed(LPAREN)] + left + [op], right, opPos + 1);
    AtSplit(ts, pos, [Fixed(LPAREN)] + left, [op], opPos);
    AtSplit(ts, pos, [Fixed(LPAREN)], left, pos + 1);
    AtToken(ts, pos, Fixed(LPAREN));
    AtToken(ts, opPos, op);
    AtToken(ts, close, Fixed(RPAREN));
  }

  /** `( - operand )` from `pos`: where each part stands. */
  lemma AtUnary(ts: seq<Token>, pos: nat, operand: seq<Token>)
    requires At(ts, pos, [Fixed(LPAREN), Fixed(MINUS)] + operand + [Fixed(RPAREN)])
    ensures ts[pos] == Fixed(LPAREN) && ts[pos + 1] == Fixed(MINUS)
    ensures At(ts, pos + 2, operand) && ts[pos + 2 + |operand|] == Fixed(RPAREN)
  {
    AtSplit(ts, pos, [Fixed(LPAREN), Fixed(MINUS)] + operand, [Fixed(RPAREN)], pos + 2 + |operand|);
    AtSplit(ts, pos, [Fixed(LPAREN), Fixed(MINUS)], operand, pos + 2);
    AtSplit(ts, pos, [Fixed(LPAREN)], [Fixed(MINUS)], pos + 1);
    AtToken(ts, pos, Fixed(LPAREN));
    AtToken(ts, pos + 1, Fixed(MINUS));
    AtToken(ts, pos + 2 + |operand|, Fixed(RPAREN));
  }

  /** The printed tokens of an expression, followed by the end or by a token
      that is not an operator, parse back to the expression at any level. */
  lemma {:induction false} ExprUnparse(ts: seq<Token>, pos: nat, e: Node, min: nat, end: nat)
    requires IsExpr(e) && At(ts, pos, UnparseExpr(e)) && end == pos + |UnparseExpr(e)|
    requires end == |ts| || BinaryLevel(ts[end].kind).None?
    ensures ParseExpression(ts, pos, min) == Some(Parse(e, end))
    decreases e, 2
  {
    PrimaryUnparse(ts, pos, e, end);
    FirstToken(ts, pos, UnparseExpr(e));
    assert ParseUnary(ts, pos) == Some(Parse(e, end));
  }

  lemma FirstToken(ts: seq<Token>, pos: nat, u: seq<Token>)
    requires At(ts, pos, u) && u != []
    ensures pos < |ts| && ts[pos] == u[0]
  {
    AtSplit(ts, pos, [u[0]], u[1..], pos + 1);
    AtToken(ts, pos, u[0]);
  }

  /** The printed tokens of an expression parse back as one primary expression. */
  lemma {:induction false} PrimaryUnparse(ts: seq<Token>, pos: nat, e: Node, end: nat)
    requires IsExpr(e) && At(ts, pos, UnparseExpr(e)) && end == pos + |UnparseExpr(e)|
    ensures ParsePrimary(ts, pos) == Some(Parse(e, end))
    decreases e, 1
  {
    if e.kind == Binary {
      BinaryUnparse(ts, pos, e, end);
    } else if e.kind == Unary {
      UnaryUnparse(ts, pos, e, end);
    } else {
      AtToken(ts, pos, UnparseExpr(e)[0]);
    }
  }

  lemma {:induction false} BinaryUnparse(ts: seq<Token>, pos: nat, e: Node, end: nat)
    requires IsExpr(e) && e.kind == Binary && At(ts, pos, UnparseExpr(e)) && end == pos + |UnparseExpr(e)|
    ensures ParsePrimary(ts, pos) == Some(Parse(e, end))
    decreases e, 0
  {
    var (l, r) := (e.children[0], e.children[1]);
    var leftPos: nat := pos + 1;
    var opPos: nat := leftPos + |UnparseExpr(l)|;
    var rightPos: nat := opPos + 1;
    var close: nat := rightPos + |UnparseExpr(r)|;
    BinaryLayout(ts, pos, e, opPos, close, end);
    BinaryLeft(ts, leftPos, l, opPos);
    var level := BinaryLevel(ts[opPos].kind).value;
    ExprUnparse(ts, rightPos, r, RightLevel(level), close);
    BinaryStep(ts, pos, l, opPos, level, r, close);
  }

  /** `( left op right )` from `pos`: where each part of a printed binary
      expression stands. */
  lemma BinaryLayout(ts: seq<Token>, pos: nat, e: Node, opPos: nat, close: nat, end: nat)
    requires IsExpr(e) && e.kind == Binary && At(ts, pos, UnparseExpr(e)) && end == pos + |UnparseExpr(e)|
    requires opPos == pos + 1 + |UnparseExpr(e.children[0])| && close == opPos + 1 + |UnparseExpr(e.children[1])|
    ensures pos < |ts| && ts[pos].kind == LPAREN && At(ts, pos + 1, UnparseExpr(e.children[0]))
    ensures opPos < |ts| && ts[opPos] == Token(OperatorKind(e.value.s), e.value)
    ensures BinaryLevel(ts[opPos].kind).Some?
    ensures At(ts, opPos + 1, UnparseExpr(e.children[1])) && close < |ts| && ts[close].kind == RPAREN
    ensures BinaryLevel(ts[close].kind).None? && IsExpr(e.children[0]) && IsExpr(e.children[1])
    ensures end == close + 1 && e == Node(Binary, [e.children[0], e.children[1]], ts[opPos].value)
  {
    var op := Token(OperatorKind(e.value.s), e.value);
    AtBinary(ts, pos, UnparseExpr(e.children[0]), op, UnparseExpr(e.children[1]), opPos, close);
  }

  /** The left operand of a printed binary expression parses back as a
      primary expression, and does not start with `-`. */
  lemma BinaryLeft(ts: seq<Token>, leftPos: nat, l: Node, opPos: nat)
    requires IsExpr(l) && At(ts, leftPos, UnparseExpr(l)) && opPos == leftPos + |UnparseExpr(l)|
    ensures ParsePrimary(ts, leftPos) == Some(Parse(l, opPos)) && leftPos < |ts| && ts[leftPos].kind != MINUS
    decreases l, 2
  {
    FirstToken(ts, leftPos, UnparseExpr(l));
    PrimaryUnparse(ts, leftPos, l, opPos);
  }

  /** `( left op right )` parses as a primary expression once its operands do. */
  lemma BinaryStep(ts: seq<Token>, pos: nat, left: Node, opPos: nat, level: nat, right: Node, close: nat)
    requires pos < |ts| && ts[pos].kind == LPAREN
    requires ParsePrimary(ts, pos + 1) == Some(Parse(left, opPos)) && ts[pos + 1].kind != MINUS
    requires opPos < |ts| && BinaryLevel(ts[opPos].kind) == Some(level)
    requires ParseExpression(ts, opPos + 1, RightLevel(level)) == Some(Parse(right, close))
    requires close < |ts| && ts[close].kind == RPAREN
    ensures ParsePrimary(ts, pos) == Some(Parse(Node(Binary, [left, right], ts[opPos].value), close + 1))
  {
    var innerPos: nat := pos + 1;
    var e := Node(Binary, [left, right], ts[opPos].value);
    UnaryOfPrimary(ts, innerPos, left, opPos);
    ExpressionFromUnary(ts, innerPos, 0, left, opPos);
    OperatorStep(ts, left, opPos, 0, level, right, close);
    OperatorsStop(ts, e, close, 0);
    ParenStep(ts, pos, innerPos, e, close, close + 1);
  }

  /** `( inner )` parses as a primary expression once `inner` does. */
  lemma ParenStep(ts: seq<Token>, pos: nat, innerPos: nat, inner: Node, close: nat, end: nat)
    requires pos < |ts| && ts[pos].kind == LPAREN && innerPos == pos + 1 && end == close + 1
    requires ParseExpression(ts, innerPos, 0) == Some(Parse(inner, close)) && close < |ts| && ts[close].kind == RPAREN
    ensures ParsePrimary(ts, pos) == Some(Parse(inner, end))
  {
  }

  /** A primary expression not starting with `-` is a unary expression. */
  lemma UnaryOfPrimary(ts: seq<Token>, pos: nat, n: Node, next: nat)
    requires pos < |ts| && ts[pos].kind != MINUS && ParsePrimary(ts, pos) == Some(Parse(n, next))
    ensures ParseUnary(ts, pos) == Some(Parse(n, next))
  {
  }

  /** An expression is its first unary operand followed by operators. */
  lemma ExpressionFromUnary(ts: seq<Token>, pos: nat, min: nat, left: Node, next: nat)
    requires ParseUnary(ts, pos) == Some(Parse(left, next))
    ensures next <= |ts| && ParseExpression(ts, pos, min) == ParseOperators(ts, left, next, min)
  {
  }

  /** A token that is no binary operator ends the operators. */
  lemma OperatorsStop(ts: seq<Token>, left: Node, pos: nat, min: nat)
    requires pos < |ts| && BinaryLevel(ts[pos].kind).None?
    ensures ParseOperators(ts, left, pos, min) == Some(Parse(left, pos))
  {
  }

  lemma {:induction false} UnaryUnparse(ts: seq<Token>, pos: nat, e: Node, end: nat)
    requires IsExpr(e) && e.kind == Unary && At(ts, pos, UnparseExpr(e)) && end == pos + |UnparseExpr(e)|
    ensures ParsePrimary(ts, pos) == Some(Parse(e, end))
    decreases e, 0
  {
    var x := e.children[0];
    var ux := UnparseExpr(x);
    var operandPos: nat := pos + 2;
    var close: nat := operandPos + |ux|;
    AtUnary(ts, pos, ux);
    ExprUnparse(ts, operandPos, x, UnaryOperandLevel, close);
    UnaryStep(ts, pos, x, close);
    assert e == Node(Unary, [x], ts[pos + 1].value);
  }

  /** `( - operand )` parses as a primary expression once its operand does. */
  lemma UnaryStep(ts: seq<Token>, pos: nat, operand: Node, close: nat)
    requires pos + 1 < |ts| && ts[pos].kind == LPAREN && ts[pos + 1].kind == MINUS
    requires ParseExpression(ts, pos + 2, UnaryOperandLevel) == Some(Parse(operand, close))
    requires close < |ts| && ts[close].kind == RPAREN
    ensures ParsePrimary(ts, pos) == Some(Parse(Node(Unary, [operand], ts[pos + 1].value), close + 1))
  {
    var innerPos: nat := pos + 1;
    var e := Node(Unary, [operand], ts[pos + 1].value);
    assert ParseUnary(ts, innerPos) == Some(Parse(e, close));
    ExpressionFromUnary(ts, innerPos, 0, e, close);
    OperatorsStop(ts, e, close, 0);
    ParenStep(ts, pos, innerPos, e, close, close + 1);
  }

  lemma AtIndex(ts: seq<Token>, pos: nat, u: seq<Token>, k: nat)
    requires At(ts, pos, u) && k < |u|
    ensures pos + k < |ts| && ts[pos + k] == u[k]
  {
    assert ts[pos + k] == ts[pos..pos + |u|][k];
  }

  lemma AtThree(ts: seq<Token>, pos: nat, a: seq<Token>, b: seq<Token>, c: seq<Token>, p1: nat, p2: nat)
    requires At(ts, pos, a + b + c) && p1 == pos + |a| && p2 == p1 + |b|
    ensures At(ts, pos, a) && At(ts, p1, b) && At(ts, p2, c)
  {
    AtSplit(ts, pos, a + b, c, p2);
    AtSplit(ts, pos, a, b, p1);
  }

  /** The printed tokens of an expression statement parse back to it. */
  lemma {:induction false} ExpressionStatementUnparse(ts: seq<Token>, pos: nat, e: Node, end: nat)
    requires IsExpr(e) && At(ts, pos, UnparseExpr(e) + [Fixed(SEMICOLON)]) && end == pos + |UnparseExpr(e)| + 1
    ensures ParseExpressionStatement(ts, pos) == Some(Parse(e, end))
  {
    var semi: nat := pos + |UnparseExpr(e)|;
    AtSplit(ts, pos, UnparseExpr(e), [Fixed(SEMICOLON)], semi);
    AtToken(ts, semi, Fixed(SEMICOLON));
    ExprUnparse(ts, pos, e, 0, semi);
  }

  lemma ConditionUnparse(ts: seq<Token>, pos: nat, e: Node, end: nat)
    requires IsExpr(e) && At(ts, pos, UnparseCondition(e)) && end == pos + |UnparseCondition(e)|
    ensures ParseCondition(ts, pos) == Some(Parse(e, end))
  {
    var close: nat := pos + 1 + |UnparseExpr(e)|;
    AtThree(ts, pos, [Fixed(LPAREN)], UnparseExpr(e), [Fixed(RPAREN)], pos + 1, close);
    AtToken(ts, pos, Fixed(LPAREN));
    AtToken(ts, close, Fixed(RPAREN));
    ExprUnparse(ts, pos + 1, e, 0, close);
    assert end == close + 1;
    ConditionStep(ts, pos, e, close);
  }

  lemma ConditionStep(ts: seq<Token>, pos: nat, e: Node, close: nat)
    requires pos < |ts| && ts[pos].kind == LPAREN && ParseExpression(ts, pos + 1, 0) == Some(Parse(e, close))
    requires close < |ts| && ts[close].kind == RPAREN
    ensures ParseCondition(ts, pos) == Some(Parse(e, close + 1))
  {
  }

  lemma AssignmentUnparse(ts: seq<Token>, pos: nat, s: Node, end: nat)
    requires IsStatement(s) && s.kind == Assignment && At(ts, pos, UnparseStatement(s)) && end == pos + |UnparseStatement(s)|
    ensures ParseAssignment(ts, pos) == Some(Parse(s, end))
  {
    var exprPos: nat := pos + 2;
    var semi: nat := exprPos + |UnparseExpr(s.children[1])|;
    AssignmentLayout(ts, pos, s, exprPos, semi, end);
    ExprUnparse(ts, exprPos, s.children[1], 0, semi);
    AssignmentStep(ts, pos, exprPos, s.children[1], semi, end);
  }

  /** `name = expr ;` from `pos`: where each part stands. */
  lemma AssignmentLayout(ts: seq<Token>, pos: nat, s: Node, exprPos: nat, semi: nat, end: nat)
    requires IsStatement(s) && s.kind == Assignment && At(ts, pos, UnparseStatement(s)) && end == pos + |UnparseStatement(s)|
    requires exprPos == pos + 2 && semi == exprPos + |UnparseExpr(s.children[1])|
    ensures pos + 1 < |ts| && ts[pos].kind == ID && ts[pos + 1].kind == ASSIGN
    ensures At(ts, exprPos, UnparseExpr(s.children[1])) && semi < |ts| && ts[semi].kind == SEMICOLON && end == semi + 1
    ensures s == Node(Assignment, [Node(Identifier, [], ts[pos].value), s.children[1]])
  {
    var e := s.children[1];
    var head := [Token(ID, s.children[0].value), Fixed(ASSIGN)];
    assert UnparseStatement(s) == head + UnparseExpr(e) + [Fixed(SEMICOLON)];
    AtThree(ts, pos, head, UnparseExpr(e), [Fixed(SEMICOLON)], exprPos, semi);
    AtIndex(ts, pos, head, 0);
    AtIndex(ts, pos, head, 1);
    AtToken(ts, semi, Fixed(SEMICOLON));
  }

  lemma AssignmentStep(ts: seq<Token>, pos: nat, exprPos: nat, e: Node, semi: nat, end: nat)
    requires pos + 1 < |ts| && ts[pos].kind == ID && ts[pos + 1].kind == ASSIGN && exprPos == pos + 2 && end == semi + 1
    requires ParseExpression(ts, exprPos, 0) == Some(Parse(e, semi)) && semi < |ts| && ts[semi].kind == SEMICOLON
    ensures ParseAssignment(ts, pos) == Some(Parse(Node(Assignment, [Node(Identifier, [], ts[pos].value), e]), end))
  {
  }

  lemma DeclarationUnparse(ts: seq<Token>, pos: nat, d: Node, end: nat)
    requires IsDeclaration(d) && At(ts, pos, UnparseDeclaration(d)) && end == pos + |UnparseDeclaration(d)|
    ensures ParseDeclaration(ts, pos) == Some(Parse(d, end))
  {
    var u := UnparseDeclaration(d);
    AtIndex(ts, pos, u, 0);
    AtIndex(ts, pos, u, 1);
    AtIndex(ts, pos, u, 2);
    if |d.children| == 2 {
      DeclarationStep(ts, pos);
      assert end == pos + 3;
      assert d == Node(Declaration, [Node(Type, [], ts[pos].value), Node(Identifier, [], ts[pos + 1].value)]);
    } else {
      InitializedDeclarationUnparse(ts, pos, d, end);
    }
  }

  lemma InitializedDeclarationUnparse(ts: seq<Token>, pos: nat, d: Node, end: nat)
    requires IsDeclaration(d) && |d.children| == 3 && At(ts, pos, UnparseDeclaration(d)) && end == pos + |UnparseDeclaration(d)|
    requires pos + 2 < |ts| && ts[pos].kind in TypeKinds && ts[pos + 1].kind == ID && ts[pos + 2].kind == ASSIGN
    requires ts[pos].value == d.children[0].value && ts[pos + 1].value == d.children[1].value
    ensures ParseDeclaration(ts, pos) == Some(Parse(d, end))
  {
    var initPos: nat := pos + 3;
    var semi: nat := initPos + |UnparseExpr(d.children[2])|;
    InitializedDeclarationLayout(ts, pos, d, initPos, semi, end);
    ExprUnparse(ts, initPos, d.children[2], 0, semi);
    InitializedDeclarationStep(ts, pos, initPos, d.children[2], semi, end);
  }

  /** `type name = init ;` from `pos`: where the initializer and the `;` stand. */
  lemma InitializedDeclarationLayout(ts: seq<Token>, pos: nat, d: Node, initPos: nat, semi: nat, end: nat)
    requires IsDeclaration(d) && |d.children| == 3 && At(ts, pos, UnparseDeclaration(d)) && end == pos + |UnparseDeclaration(d)|
    requires pos + 2 < |ts| && ts[pos].value == d.children[0].value && ts[pos + 1].value == d.children[1].value
    requires initPos == pos + 3 && semi == initPos + |UnparseExpr(d.children[2])|
    ensures At(ts, initPos, UnparseExpr(d.children[2])) && semi < |ts| && ts[semi].kind == SEMICOLON && end == semi + 1
    ensures d == Node(Declaration, [Node(Type, [], ts[pos].value), Node(Identifier, [], ts[pos + 1].value)] + [d.children[2]])
  {
    var u := UnparseDeclaration(d);
    assert u == u[..3] + UnparseExpr(d.children[2]) + [Fixed(SEMICOLON)];
    AtThree(ts, pos, u[..3], UnparseExpr(d.children[2]), [Fixed(SEMICOLON)], initPos, semi);
    AtToken(ts, semi, Fixed(SEMICOLON));
  }

  lemma DeclarationStep(ts: seq<Token>, pos: nat)
    requires pos + 2 < |ts| && ts[pos].kind in TypeKinds && ts[pos + 1].kind == ID && ts[pos + 2].kind == SEMICOLON
    ensures ParseDeclaration(ts, pos)
      == Some(Parse(Node(Declaration, [Node(Type, [], ts[pos].value), Node(Identifier, [], ts[pos + 1].value)]), pos + 3))
  {
  }

  lemma InitializedDeclarationStep(ts: seq<Token>, pos: nat, initPos: nat, init: Node, semi: nat, end: nat)
    requires pos + 2 < |ts| && ts[pos].kind in TypeKinds && ts[pos + 1].kind == ID && ts[pos + 2].kind == ASSIGN
    requires initPos == pos + 3 && end == semi + 1
    requires ParseExpression(ts, initPos, 0) == Some(Parse(init, semi)) && semi < |ts| && ts[semi].kind == SEMICOLON
    ensures ParseDeclaration(ts, pos)
      == Some(Parse(Node(Declaration, [Node(Type, [], ts[pos].value), Node(Identifier, [], ts[pos + 1].value)] + [init]), end))
  {
  }

  lemma ForHeaderUnparse(ts: seq<Token>, pos: nat, init: Node, cond: Node, update: Node, end: nat)
    requires IsDeclaration(init) && IsExpr(cond) && IsExpr(update)
    requires At(ts, pos, UnparseForHeader(init, cond, update)) && end == pos + |UnparseForHeader(init, cond, update)|
    ensures ParseForHeader(ts, pos) == Some((init, cond, update, end))
  {
    var condPos: nat := pos + 1 + |UnparseDeclaration(init)|;
    var semi: nat := condPos + |UnparseExpr(cond)|;
    var updatePos: nat := semi + 1;
    var close: nat := updatePos + |UnparseExpr(update)|;
    ForHeaderInit(ts, pos, init, cond, update, condPos, semi, close);
    ForHeaderCondition(ts, pos, init, cond, update, condPos, semi, close);
    ForHeaderUpdate(ts, pos, init, cond, update, condPos, semi, updatePos, close);
    ForHeaderStep(ts, pos, init, condPos, cond, semi, update, updatePos, close, end);
  }

  /** The declaration of a printed `for` header parses back after the `(`. */
  lemma ForHeaderInit(ts: seq<Token>, pos: nat, init: Node, cond: Node, update: Node, condPos: nat, semi: nat, close: nat)
    requires IsDeclaration(init) && IsExpr(cond) && IsExpr(update)
    requires At(ts, pos, UnparseForHeader(init, cond, update))
    requires condPos == pos + 1 + |UnparseDeclaration(init)| && semi == condPos + |UnparseExpr(cond)|
    requires close == semi + 1 + |UnparseExpr(update)|
    ensures pos < |ts| && ts[pos].kind == LPAREN && ParseDeclaration(ts, pos + 1) == Some(Parse(init, condPos))
  {
    ForHeaderLayout(ts, pos, init, cond, update, condPos, semi, close);
    var declPos: nat := pos + 1;
    DeclarationUnparse(ts, declPos, init, condPos);
  }

  /** The condition of a printed `for` header parses back up to its `;`. */
  lemma ForHeaderCondition(ts: seq<Token>, pos: nat, init: Node, cond: Node, update: Node, condPos: nat, semi: nat, close: nat)
    requires IsDeclaration(init) && IsExpr(cond) && IsExpr(update)
    requires At(ts, pos, UnparseForHeader(init, cond, update))
    requires condPos == pos + 1 + |UnparseDeclaration(init)| && semi == condPos + |UnparseExpr(cond)|
    requires close == semi + 1 + |UnparseExpr(update)|
    ensures ParseExpression(ts, condPos, 0) == Some(Parse(cond, semi)) && semi < |ts| && ts[semi].kind == SEMICOLON
    ensures close < |ts| && ts[close].kind == RPAREN && close + 1 == pos + |UnparseForHeader(init, cond, update)|
  {
    ForHeaderLayout(ts, pos, init, cond, update, condPos, semi, close);
    ExprUnparse(ts, condPos, cond, 0, semi);
  }

  /** The update of a printed `for` header parses back up to its `)`. */
  lemma ForHeaderUpdate(ts: seq<Token>, pos: nat, init: Node, cond: Node, update: Node, condPos: nat, semi: nat, updatePos: nat, close: nat)
    requires IsDeclaration(init) && IsExpr(cond) && IsExpr(update)
    requires At(ts, pos, UnparseForHeader(init, cond, update))
    requires condPos == pos + 1 + |UnparseDeclaration(init)| && semi == condPos + |UnparseExpr(cond)|
    requires updatePos == semi + 1 && close == updatePos + |UnparseExpr(update)|
    ensures ParseExpression(ts, updatePos, 0) == Some(Parse(update, close))
  {
    ForHeaderLayout(ts, pos, init, cond, update, condPos, semi, close);
    ExprUnparse(ts, updatePos, update, 0, close);
  }

  /** Where the parts of a printed `for` header stand. */
  lemma ForHeaderLayout(ts: seq<Token>, pos: nat, init: Node, cond: Node, update: Node, condPos: nat, semi: nat, close: nat)
    requires IsDeclaration(init) && IsExpr(cond) && IsExpr(update)
    requires At(ts, pos, UnparseForHeader(init, cond, update))
    requires condPos == pos + 1 + |UnparseDeclaration(init)| && semi == condPos + |UnparseExpr(cond)|
    requires close == semi + 1 + |UnparseExpr(update)|
    ensures close + 1 == pos + |UnparseForHeader(init, cond, update)|
    ensures ts[pos] == Fixed(LPAREN) && At(ts, pos + 1, UnparseDeclaration(init)) && At(ts, condPos, UnparseExpr(cond))
    ensures ts[semi] == Fixed(SEMICOLON) && At(ts, semi + 1, UnparseExpr(update)) && ts[close] == Fixed(RPAREN)
  {
    AtForHeader(ts, pos, UnparseDeclaration(init), UnparseExpr(cond), UnparseExpr(update), condPos, semi, close);
  }

  /** `( declaration cond ; update )` from `pos`: where each part stands. */
  lemma AtForHeader(ts: seq<Token>, pos: nat, ud: seq<Token>, uc: seq<Token>, uu: seq<Token>, condPos: nat, semi: nat, close: nat)
    requires At(ts, pos, [Fixed(LPAREN)] + ud + uc + [Fixed(SEMICOLON)] + uu + [Fixed(RPAREN)])
    requires condPos == pos + 1 + |ud| && semi == condPos + |uc| && close == semi + 1 + |uu|
    ensures ts[pos] == Fixed(LPAREN) && At(ts, pos + 1, ud) && At(ts, condPos, uc)
    ensures ts[semi] == Fixed(SEMICOLON) && At(ts, semi + 1, uu) && ts[close] == Fixed(RPAREN)
  {
    var (lp, sc, rp) := (Fixed(LPAREN), Fixed(SEMICOLON), Fixed(RPAREN));
    AtSplit(ts, pos, [lp] + ud + uc + [sc] + uu, [rp], close);
    AtSplit(ts, pos, [lp] + ud + uc + [sc], uu, semi + 1);
    AtSplit(ts, pos, [lp] + ud + uc, [sc], semi);
    AtThree(ts, pos, [lp], ud, uc, pos + 1, condPos);
    AtToken(ts, pos, lp);
    AtToken(ts, semi, sc);
    AtToken(ts, close, rp);
  }

  lemma ForHeaderStep(ts: seq<Token>, pos: nat, init: Node, condPos: nat, cond: Node, semi: nat, update: Node, updatePos: nat, close: nat, end: nat)
    requires updatePos == semi + 1 && end == close + 1
    requires pos < |ts| && ts[pos].kind == LPAREN && ParseDeclaration(ts, pos + 1) == Some(Parse(init, condPos))
    requires ParseExpression(ts, condPos, 0) == Some(Parse(cond, semi)) && semi < |ts| && ts[semi].kind == SEMICOLON
    requires ParseExpression(ts, updatePos, 0) == Some(Parse(update, close))
    requires close < |ts| && ts[close].kind == RPAREN
    ensures ParseForHeader(ts, pos) == Some((init, cond, update, end))
  {
  }

  // ---------------------------------------------------------------------------
  // Statements, blocks and programs parse back from their printed tokens
  // ---------------------------------------------------------------------------

  /** A printed statement, followed by the end or by a token other than `else`,
      parses back to itself. */
  lemma {:induction false} StatementUnparse(ts: seq<Token>, pos: nat, s: Node, end: nat)
    requires IsStatement(s) && At(ts, pos, UnparseStatement(s)) && end == pos + |UnparseStatement(s)|
    requires end == |ts| || ts[end].kind != ELSE
    ensures ParseStatement(ts, pos) == Some(Parse(s, end))
    decreases s, 3, 0
  {
    match s.kind
    case Declaration => DeclarationStatementUnparse(ts, pos, s, end);
    case Assignment => AssignmentStatementUnparse(ts, pos, s, end);
    case If => IfUnparse(ts, pos, s, end);
    case While => WhileUnparse(ts, pos, s, end);
    case For => ForUnparse(ts, pos, s, end);
    case Binary | Unary | Identifier | Number | Float | String => ExpressionStatementDispatch(ts, pos, s, end);
  }

  lemma DeclarationStatementUnparse(ts: seq<Token>, pos: nat, s: Node, end: nat)
    requires IsStatement(s) && s.kind == Declaration && At(ts, pos, UnparseStatement(s)) && end == pos + |UnparseStatement(s)|
    ensures ParseStatement(ts, pos) == Some(Parse(s, end))
  {
    FirstToken(ts, pos, UnparseDeclaration(s));
    DeclarationUnparse(ts, pos, s, end);
  }

  lemma AssignmentStatementUnparse(ts: seq<Token>, pos: nat, s: Node, end: nat)
    requires IsStatement(s) && s.kind == Assignment && At(ts, pos, UnparseStatement(s)) && end == pos + |UnparseStatement(s)|
    ensures ParseStatement(ts, pos) == Some(Parse(s, end))
  {
    AtIndex(ts, pos, UnparseStatement(s), 0);
    AtIndex(ts, pos, UnparseStatement(s), 1);
    AssignmentUnparse(ts, pos, s, end);
  }

  lemma ExpressionStatementDispatch(ts: seq<Token>, pos: nat, s: Node, end: nat)
    requires IsExpr(s) && At(ts, pos, UnparseStatement(s)) && end == pos + |UnparseStatement(s)|
    ensures ParseStatement(ts, pos) == Some(Parse(s, end))
  {
    var u := UnparseExpr(s);
    assert UnparseStatement(s) == u + [Fixed(SEMICOLON)];
    AtIndex(ts, pos, u + [Fixed(SEMICOLON)], 0);
    if |u| == 1 {
      AtIndex(ts, pos, u + [Fixed(SEMICOLON)], 1);
    }
    ExpressionStatementUnparse(ts, pos, s, end);
  }

  /** `keyword ( condition ) rest` from `pos`: the condition parses back and
      the rest stands after it. */
  lemma KeywordCondition(ts: seq<Token>, pos: nat, keyword: TokenType, c: Node, rest: seq<Token>, bodyPos: nat)
    requires keyword in {IF, WHILE} && IsExpr(c)
    requires At(ts, pos, [Fixed(keyword)] + UnparseCondition(c) + rest) && bodyPos == pos + 1 + |UnparseCondition(c)|
    ensures pos < |ts| && ts[pos].kind == keyword && ParseCondition(ts, pos + 1) == Some(Parse(c, bodyPos))
    ensures At(ts, bodyPos, rest)
  {
    var condPos: nat := pos + 1;
    AtThree(ts, pos, [Fixed(keyword)], UnparseCondition(c), rest, condPos, bodyPos);
    AtToken(ts, pos, Fixed(keyword));
    ConditionUnparse(ts, condPos, c, bodyPos);
  }

  lemma {:induction false} IfUnparse(ts: seq<Token>, pos: nat, s: Node, end: nat)
    requires IsStatement(s) && s.kind == If && At(ts, pos, UnparseStatement(s)) && end == pos + |UnparseStatement(s)|
    requires end == |ts| || ts[end].kind != ELSE
    ensures ParseStatement(ts, pos) == Some(Parse(s, end))
    decreases s, 2, 0
  {
    var bodyPos: nat := pos + 1 + |UnparseCondition(s.children[0])|;
    var bodyEnd: nat := bodyPos + |UnparseBlock(s.children[1])|;
    IfLayout(ts, pos, s, bodyPos, bodyEnd, end);
    BlockUnparse(ts, bodyPos, s.children[1], bodyEnd);
    if |s.children| == 2 {
      IfStep(ts, pos, s, bodyPos, end);
    } else {
      ElseUnparse(ts, pos, s, bodyPos, bodyEnd, end);
    }
  }

  /** An `if` with an `else` whose condition and first block have parsed back. */
  lemma {:induction false} ElseUnparse(ts: seq<Token>, pos: nat, s: Node, bodyPos: nat, bodyEnd: nat, end: nat)
    requires IsStatement(s) && s.kind == If && |s.children| == 3
    requires pos < |ts| && ts[pos].kind == IF && ParseCondition(ts, pos + 1) == Some(Parse(s.children[0], bodyPos))
    requires ParseBlock(ts, bodyPos) == Some(Parse(s.children[1], bodyEnd))
    requires At(ts, bodyEnd, [Fixed(ELSE)] + UnparseBlock(s.children[2])) && end == bodyEnd + 1 + |UnparseBlock(s.children[2])|
    ensures ParseStatement(ts, pos) == Some(Parse(s, end))
    decreases s, 1, 0
  {
    var otherPos: nat := bodyEnd + 1;
    AtCons(ts, bodyEnd, Fixed(ELSE), UnparseBlock(s.children[2]), otherPos);
    BlockUnparse(ts, otherPos, s.children[2], end);
    IfElseStep(ts, pos, s, bodyPos, bodyEnd, otherPos, end);
  }

  /** The tokens of an `if`: keyword, condition, first block, then the `else`
      part `tail`. */
  lemma IfTokens(s: Node, tail: seq<Token>)
    requires IsStatement(s) && s.kind == If
    requires tail == if |s.children| == 3 then [Fixed(ELSE)] + UnparseBlock(s.children[2]) else []
    ensures UnparseStatement(s) == [Fixed(IF)] + UnparseCondition(s.children[0]) + (UnparseBlock(s.children[1]) + tail)
  {
  }

  /** `if ( condition ) block tail` from `pos`: the condition parses back, and
      where the first block and the `else` part stand. */
  lemma IfParts(ts: seq<Token>, pos: nat, c: Node, body: Node, tail: seq<Token>, bodyPos: nat, bodyEnd: nat)
    requires IsExpr(c) && IsBlock(body)
    requires At(ts, pos, [Fixed(IF)] + UnparseCondition(c) + (UnparseBlock(body) + tail))
    requires bodyPos == pos + 1 + |UnparseCondition(c)| && bodyEnd == bodyPos + |UnparseBlock(body)|
    ensures pos < |ts| && ts[pos].kind == IF && ParseCondition(ts, pos + 1) == Some(Parse(c, bodyPos))
    ensures At(ts, bodyPos, UnparseBlock(body)) && At(ts, bodyEnd, tail)
  {
    KeywordCondition(ts, pos, IF, c, UnparseBlock(body) + tail, bodyPos);
    AtSplit(ts, bodyPos, UnparseBlock(body), tail, bodyEnd);
  }

  /** `if ( condition ) block [else block]` from `pos`: the condition parses
      back, and where the blocks stand. */
  lemma IfLayout(ts: seq<Token>, pos: nat, s: Node, bodyPos: nat, bodyEnd: nat, end: nat)
    requires IsStatement(s) && s.kind == If && At(ts, pos, UnparseStatement(s)) && end == pos + |UnparseStatement(s)|
    requires bodyPos == pos + 1 + |UnparseCondition(s.children[0])| && bodyEnd == bodyPos + |UnparseBlock(s.children[1])|
    ensures pos < |ts| && ts[pos].kind == IF && ParseCondition(ts, pos + 1) == Some(Parse(s.children[0], bodyPos))
    ensures At(ts, bodyPos, UnparseBlock(s.children[1]))
    ensures |s.children| == 2 ==> bodyEnd == end
    ensures |s.children| == 3 ==>
      At(ts, bodyEnd, [Fixed(ELSE)] + UnparseBlock(s.children[2])) && end == bodyEnd + 1 + |UnparseBlock(s.children[2])|
  {
    var tail := if |s.children| == 3 then [Fixed(ELSE)] + UnparseBlock(s.children[2]) else [];
    IfTokens(s, tail);
    IfParts(ts, pos, s.children[0], s.children[1], tail, bodyPos, bodyEnd);
  }

  lemma IfStep(ts: seq<Token>, pos: nat, s: Node, bodyPos: nat, end: nat)
    requires s.kind == If && s.value == NoValue && |s.children| == 2
    requires pos < |ts| && ts[pos].kind == IF && ParseCondition(ts, pos + 1) == Some(Parse(s.children[0], bodyPos))
    requires ParseBlock(ts, bodyPos) == Some(Parse(s.children[1], end)) && (end == |ts| || ts[end].kind != ELSE)
    ensures ParseStatement(ts, pos) == Some(Parse(s, end))
  {
    assert s == Node(If, [s.children[0], s.children[1]]);
    assert ParseIf(ts, pos) == Some(Parse(s, end));
  }

  lemma IfElseStep(ts: seq<Token>, pos: nat, s: Node, bodyPos: nat, bodyEnd: nat, otherPos: nat, end: nat)
    requires s.kind == If && s.value == NoValue && |s.children| == 3
    requires pos < |ts| && ts[pos].kind == IF && ParseCondition(ts, pos + 1) == Some(Parse(s.children[0], bodyPos))
    requires ParseBlock(ts, bodyPos) == Some(Parse(s.children[1], bodyEnd)) && bodyEnd < |ts| && ts[bodyEnd].kind == ELSE
    requires otherPos == bodyEnd + 1 && ParseBlock(ts, otherPos) == Some(Parse(s.children[2], end))
    ensures ParseStatement(ts, pos) == Some(Parse(s, end))
  {
    assert s == Node(If, [s.children[0], s.children[1], s.children[2]]);
    assert ParseIf(ts, pos) == Some(Parse(s, end));
  }

  lemma {:induction false} WhileUnparse(ts: seq<Token>, pos: nat, s: Node, end: nat)
    requires IsStatement(s) && s.kind == While && At(ts, pos, UnparseStatement(s)) && end == pos + |UnparseStatement(s)|
    ensures ParseStatement(ts, pos) == Some(Parse(s, end))
    decreases s, 2, 0
  {
    var (c, body) := (s.children[0], s.children[1]);
    var bodyPos: nat := pos + 1 + |UnparseCondition(c)|;
    KeywordCondition(ts, pos, WHILE, c, UnparseBlock(body), bodyPos);
    BlockUnparse(ts, bodyPos, body, end);
    WhileStep(ts, pos, s, bodyPos, end);
  }

  lemma WhileStep(ts: seq<Token>, pos: nat, s: Node, bodyPos: nat, end: nat)
    requires s.kind == While && s.value == NoValue && |s.children| == 2
    requires pos < |ts| && ts[pos].kind == WHILE && ParseCondition(ts, pos + 1) == Some(Parse(s.children[0], bodyPos))
    requires ParseBlock(ts, bodyPos) == Some(Parse(s.children[1], end))
    ensures ParseStatement(ts, pos) == Some(Parse(s, end))
  {
    assert s == Node(While, [s.children[0], s.children[1]]);
  }

  lemma {:induction false} ForUnparse(ts: seq<Token>, pos: nat, s: Node, end: nat)
    requires IsStatement(s) && s.kind == For && At(ts, pos, UnparseStatement(s)) && end == pos + |UnparseStatement(s)|
    ensures ParseStatement(ts, pos) == Some(Parse(s, end))
    decreases s, 2, 0
  {
    var header := UnparseForHeader(s.children[0], s.children[1], s.children[2]);
    var headerPos: nat := pos + 1;
    var bodyPos: nat := headerPos + |header|;
    AtThree(ts, pos, [Fixed(FOR)], header, UnparseBlock(s.children[3]), headerPos, bodyPos);
    AtToken(ts, pos, Fixed(FOR));
    ForHeaderUnparse(ts, headerPos, s.children[0], s.children[1], s.children[2], bodyPos);
    BlockUnparse(ts, bodyPos, s.children[3], end);
    ForStep(ts, pos, s, bodyPos, end);
  }

  lemma ForStep(ts: seq<Token>, pos: nat, s: Node, bodyPos: nat, end: nat)
    requires s.kind == For && s.value == NoValue && |s.children| == 4
    requires pos < |ts| && ts[pos].kind == FOR
    requires ParseForHeader(ts, pos + 1) == Some((s.children[0], s.children[1], s.children[2], bodyPos))
    requires ParseBlock(ts, bodyPos) == Some(Parse(s.children[3], end))
    ensures ParseStatement(ts, pos) == Some(Parse(s, end))
  {
    assert s == Node(For, [s.children[0], s.children[1], s.children[2], s.children[3]]);
  }

  /** A printed block parses back to its statement list. */
  lemma {:induction false} BlockUnparse(ts: seq<Token>, pos: nat, b: Node, end: nat)
    requires IsBlock(b) && At(ts, pos, UnparseBlock(b)) && end == pos + |UnparseBlock(b)|
    ensures ParseBlock(ts, pos) == Some(Parse(b, end))
    decreases b, 2, 0
  {
    var listPos: nat := pos + 1;
    var close: nat := listPos + |UnparseStatements(b, 0)|;
    AtThree(ts, pos, [Fixed(LBRACE)], UnparseStatements(b, 0), [Fixed(RBRACE)], listPos, close);
    AtToken(ts, pos, Fixed(LBRACE));
    AtToken(ts, close, Fixed(RBRACE));
    ListUnparse(ts, listPos, b, close);
    BlockStep(ts, pos, b, close, end);
  }

  lemma BlockStep(ts: seq<Token>, pos: nat, b: Node, close: nat, end: nat)
    requires pos < |ts| && ts[pos].kind == LBRACE && ParseStatementList(ts, pos + 1) == Some(Parse(b, close))
    requires close < |ts| && ts[close].kind == RBRACE && end == close + 1
    ensures ParseBlock(ts, pos) == Some(Parse(b, end))
  {
  }

  /** The printed statements of a list, followed by the end or by `}`, parse
      back to the list. */
  lemma {:induction false} ListUnparse(ts: seq<Token>, pos: nat, b: Node, end: nat)
    requires IsBlock(b) && At(ts, pos, UnparseStatements(b, 0)) && end == pos + |UnparseStatements(b, 0)|
    requires end == |ts| || ts[end].kind == RBRACE
    ensures ParseStatementList(ts, pos) == Some(Parse(b, end))
    decreases b, 1, 0
  {
    FirstToken(ts, pos, UnparseStatements(b, 0));
    MoreUnparse(ts, pos, b, 0, end);
    ListStep(ts, pos, b, end);
  }

  lemma ListStep(ts: seq<Token>, pos: nat, b: Node, end: nat)
    requires pos < |ts| && ts[pos].kind != RBRACE
    ensures ParseStatementList(ts, pos) == ParseMoreStatements(ts, Node(StatementList, []), pos)
  {
    assert forall s: Node :: Node(StatementList, []).(children := [] + [s]) == Node(StatementList, [s]);
  }

  /** The printed statements of a list from the `k`-th on, after the first `k`
      have been parsed, parse back to the rest of the list. */
  lemma {:induction false} MoreUnparse(ts: seq<Token>, pos: nat, b: Node, k: nat, end: nat)
    requires IsBlock(b) && k <= |b.children| && At(ts, pos, UnparseStatements(b, k)) && end == pos + |UnparseStatements(b, k)|
    requires end == |ts| || ts[end].kind == RBRACE
    ensures ParseMoreStatements(ts, Node(StatementList, b.children[..k]), pos) == Some(Parse(b, end))
    decreases b, 0, |b.children| - k
  {
    if k == |b.children| {
      MoreStop(ts, pos, b, end);
    } else {
      var next: nat := pos + |UnparseStatement(b.children[k])|;
      StatementsLayout(ts, pos, b, k, next, end);
      StatementUnparse(ts, pos, b.children[k], next);
      MoreUnparse(ts, next, b, k + 1, end);
      MoreStep(ts, pos, b, k, next, end);
    }
  }

  lemma MoreStop(ts: seq<Token>, pos: nat, b: Node, end: nat)
    requires b.kind == StatementList && b.value == NoValue && pos == end && end <= |ts|
    requires end == |ts| || ts[end].kind == RBRACE
    ensures ParseMoreStatements(ts, Node(StatementList, b.children[..|b.children|]), pos) == Some(Parse(b, end))
  {
    assert b.children[..|b.children|] == b.children;
  }

  lemma MoreStep(ts: seq<Token>, pos: nat, b: Node, k: nat, next: nat, end: nat)
    requires k < |b.children| && pos < |ts| && ts[pos].kind != RBRACE && next <= |ts|
    requires ParseStatement(ts, pos) == Some(Parse(b.children[k], next))
    requires ParseMoreStatements(ts, Node(StatementList, b.children[..k + 1]), next) == Some(Parse(b, end))
    ensures ParseMoreStatements(ts, Node(StatementList, b.children[..k]), pos) == Some(Parse(b, end))
  {
    assert b.children[..k] + [b.children[k]] == b.children[..k + 1];
  }

  /** Statement `k` of a printed list and the statements after it: where they
      stand, and that statement `k` is followed by the end, `}` or another
      statement, never by `else`. */
  lemma StatementsLayout(ts: seq<Token>, pos: nat, b: Node, k: nat, next: nat, end: nat)
    requires IsBlock(b) && k < |b.children| && At(ts, pos, UnparseStatements(b, k)) && end == pos + |UnparseStatements(b, k)|
    requires next == pos + |UnparseStatement(b.children[k])| && (end == |ts| || ts[end].kind == RBRACE)
    ensures At(ts, pos, UnparseStatement(b.children[k])) && At(ts, next, UnparseStatements(b, k + 1))
    ensures end == next + |UnparseStatements(b, k + 1)| && (next == |ts| || ts[next].kind != ELSE)
  {
    var rest := UnparseStatements(b, k + 1);
    AtSplit(ts, pos, UnparseStatement(b.children[k]), rest, next);
    if rest != [] {
      FirstToken(ts, next, rest);
    }
  }

  /** Parsing the printed tokens of a program gives the program back. */
  lemma ProgramUnparse(p: Node)
    requires IsProgram(p)
    ensures ParseProgram(UnparseProgram(p)) == Some(p)
  {
    var ts := UnparseProgram(p);
    assert ts[0..|ts|] == ts;
    ListUnparse(ts, 0, p.children[0], |ts|);
    assert p == Node(Program, [p.children[0]]);
  }

  /** A program whose printed tokens all have a spelling is read back from
      their rendering: lexing and then parsing the text gives the program. */
  lemma ParsePrinted(p: Node)
    requires IsProgram(p) && Spellable(UnparseProgram(p))
    ensures ParseCode(Render(UnparseProgram(p))) == Some(p)
  {
    LexRender(UnparseProgram(p));
    ProgramUnparse(p);
  }
}
