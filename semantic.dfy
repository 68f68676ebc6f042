/** The semantic checker: one pre-order walk over a tree keeps a flat symbol
    table and records redeclarations and uses of undeclared variables; a pass
    over the table afterwards warns about variables never used and variables
    declared without an initializer. */
module Semantic {
  import opened Values
  import opened Ast

  /** One entry of the symbol table. */
  datatype SymbolInfo = SymbolInfo(varType: Value, used: bool, scope: string, initialized: bool)

  /** The checker's state during the walk: the table, its keys in the order
      they were inserted (the order a Python dict is iterated in), the current
      scope and the errors so far. */
  datatype Analysis = Analysis(table: map<Value, SymbolInfo>, names: seq<Value>, scope: string, errors: seq<string>)

  const GlobalScope: string := "global"

  /** The state of a checker as it is created. */
  const Start: Analysis := Analysis(map[], [], GlobalScope, [])

  function RedeclarationError(name: Value): string
  {
    "Redeclaration of variable '" + Display(name) + "'"
  }

  function UndeclaredError(name: Value): string
  {
    "Undeclared variable '" + Display(name) + "'"
  }

  function UnusedWarning(name: Value): string
  {
    "Unused variable '" + Display(name) + "'"
  }

  function UninitializedWarning(name: Value): string
  {
    "Variable '" + Display(name) + "' declared but not initialized"
  }

  /** The table entry of `name` with its `used` flag set. */
  function MarkUsed(name: Value, st: Analysis): Analysis
    requires name in st.table
  {
    st.(table := st.table[name := st.table[name].(used := true)])
  }

  /** `SemanticAnalyzer.analyze` on a node, as a function of the state. */
  function Walk(n: Node, st: Analysis): (r: Analysis)
    ensures r.scope == st.scope
    ensures st.table.Keys <= r.table.Keys && st.names <= r.names && st.errors <= r.errors
    decreases n, 1
  {
    match n.kind
    case Declaration =>
      if |n.children| < 2 then st
      else
        var name := n.children[1].value;
        if name in st.table then st.(errors := st.errors + [RedeclarationError(name)])
        else
          var info := SymbolInfo(n.children[0].value, false, st.scope, |n.children| > 2);
          var declared := st.(table := st.table[name := info], names := st.names + [name]);
          if |n.children| > 2 then Walk(n.children[2], declared) else declared
    case Assignment =>
      if |n.children| < 2 then st
      else
        var name := n.children[0].value;
        if name !in st.table then st.(errors := st.errors + [UndeclaredError(name)])
        else Walk(n.children[1], MarkUsed(name, st))
    case Identifier =>
      if n.value in st.table then MarkUsed(n.value, st)
      else st.(errors := st.errors + [UndeclaredError(n.value)])
    case If =>
      if |n.children| < 2 then st
      else
        var afterBody := Walk(n.children[1], Walk(n.children[0], st));
        if |n.children| > 2 then Walk(n.children[2], afterBody) else afterBody
    case While =>
      if |n.children| < 2 then st else Walk(n.children[1], Walk(n.children[0], st))
    case _ => WalkAll(n.children, st)
  }

  /** The walk over a list of children, left to right. */
  function WalkAll(cs: seq<Node>, st: Analysis): (r: Analysis)
    ensures r.scope == st.scope
    ensures st.table.Keys <= r.table.Keys && st.names <= r.names && st.errors <= r.errors
    decreases cs, 0
  {
    if cs == [] then st else WalkAll(cs[1..], Walk(cs[0], st))
  }

  lemma WalkAllUnfold(cs: seq<Node>, k: nat, st: Analysis)
    requires k < |cs|
    ensures WalkAll(cs[k..], st) == WalkAll(cs[k + 1..], Walk(cs[k], st))
  {
    assert cs[k..][1..] == cs[k + 1..];
  }

  // ---------------------------------------------------------------------------
  // What the walk keeps
  // ---------------------------------------------------------------------------

  /** The inserted names are distinct and are exactly the table's keys. */
  predicate Valid(st: Analysis)
  {
    && (forall i, j :: 0 <= i < j < |st.names| ==> st.names[i] != st.names[j])
    && (forall v :: v in st.table ==> v in st.names)
    && (forall i :: 0 <= i < |st.names| ==> st.names[i] in st.table)
  }

  /** `s2` is a later state than `s1`: no entry removed, an entry changes only
      by its `used` flag going from false to true, names and errors only
      appended, the scope unchanged. */
  predicate Evolves(s1: Analysis, s2: Analysis)
  {
    && s1.names <= s2.names && s1.errors <= s2.errors && s1.scope == s2.scope
    && forall v :: v in s1.table ==>
         && v in s2.table
         && s2.table[v] == s1.table[v].(used := s2.table[v].used)
         && (s1.table[v].used ==> s2.table[v].used)
  }

  lemma EvolvesTransitive(s1: Analysis, s2: Analysis, s3: Analysis)
    requires Evolves(s1, s2) && Evolves(s2, s3)
    ensures Evolves(s1, s3)
  {
  }

  /** The walk only moves the state forward, and keeps it valid. */
  lemma {:induction false} WalkEvolves(n: Node, st: Analysis)
    ensures Evolves(st, Walk(n, st))
    ensures Valid(st) ==> Valid(Walk(n, st))
    decreases n, 1
  {
    match n.kind
    case Declaration => DeclarationEvolves(n, st);
    case Assignment => AssignmentEvolves(n, st);
    case Identifier =>
    case If => IfEvolves(n, st);
    case While => WhileEvolves(n, st);
    case Program | StatementList | For | Binary | Unary | Number | Float | String | Type =>
      WalkAllEvolves(n.children, st);
  }

  lemma {:induction false} DeclarationEvolves(n: Node, st: Analysis)
    requires n.kind == Declaration
    ensures Evolves(st, Walk(n, st))
    ensures Valid(st) ==> Valid(Walk(n, st))
    decreases n, 0
  {
    var c := n.children;
    if |c| >= 2 && c[1].value !in st.table {
      var name := c[1].value;
      var declared := st.(table := st.table[name := SymbolInfo(c[0].value, false, st.scope, |c| > 2)],
                          names := st.names + [name]);
      assert Evolves(st, declared);
      if |c| > 2 {
        WalkEvolves(c[2], declared);
        EvolvesTransitive(st, declared, Walk(c[2], declared));
      }
    }
  }

  lemma {:induction false} AssignmentEvolves(n: Node, st: Analysis)
    requires n.kind == Assignment
    ensures Evolves(st, Walk(n, st))
    ensures Valid(st) ==> Valid(Walk(n, st))
    decreases n, 0
  {
    var c := n.children;
    if |c| >= 2 && c[0].value in st.table {
      WalkEvolves(c[1], MarkUsed(c[0].value, st));
      EvolvesTransitive(st, MarkUsed(c[0].value, st), Walk(n, st));
    }
  }

  lemma {:induction false} IfEvolves(n: Node, st: Analysis)
    requires n.kind == If
    ensures Evolves(st, Walk(n, st))
    ensures Valid(st) ==> Valid(Walk(n, st))
    decreases n, 0
  {
    var c := n.children;
    if |c| >= 2 {
      var s1 := Walk(c[0], st);
      var s2 := Walk(c[1], s1);
      WalkEvolves(c[0], st);
      WalkEvolves(c[1], s1);
      EvolvesTransitive(st, s1, s2);
      if |c| > 2 {
        WalkEvolves(c[2], s2);
        EvolvesTransitive(st, s2, Walk(c[2], s2));
      }
    }
  }

  lemma {:induction false} WhileEvolves(n: Node, st: Analysis)
    requires n.kind == While
    ensures Evolves(st, Walk(n, st))
    ensures Valid(st) ==> Valid(Walk(n, st))
    decreases n, 0
  {
    var c := n.children;
    if |c| >= 2 {
      WalkEvolves(c[0], st);
      WalkEvolves(c[1], Walk(c[0], st));
      EvolvesTransitive(st, Walk(c[0], st), Walk(n, st));
    }
  }

  lemma {:induction false} WalkAllEvolves(cs: seq<Node>, st: Analysis)
    ensures Evolves(st, WalkAll(cs, st))
    ensures Valid(st) ==> Valid(WalkAll(cs, st))
    decreases cs, 0
  {
    if cs != [] {
      WalkEvolves(cs[0], st);
      WalkAllEvolves(cs[1..], Walk(cs[0], st));
      EvolvesTransitive(st, Walk(cs[0], st), WalkAll(cs, st));
    }
  }

  // ---------------------------------------------------------------------------
  // Which names end up in the table
  // ---------------------------------------------------------------------------

  /** The names declared anywhere in a tree by a declaration with at least a
      type and a name. */
  function DeclNames(n: Node): set<Value>
    decreases n, 1
  {
    (if n.kind == Declaration && |n.children| >= 2 then {n.children[1].value} else {}) + DeclNamesAll(n.children)
  }

  function DeclNamesAll(cs: seq<Node>): set<Value>
    decreases cs, 0
  {
    if cs == [] then {} else DeclNames(cs[0]) + DeclNamesAll(cs[1..])
  }

  /** A name is declared in a list of trees when it is declared in one of them. */
  lemma {:induction false} DeclNamesAllMember(cs: seq<Node>, v: Value)
    ensures v in DeclNamesAll(cs) <==> exists k :: 0 <= k < |cs| && v in DeclNames(cs[k])
    decreases cs
  {
    if cs != [] {
      DeclNamesAllMember(cs[1..], v);
      if exists k :: 0 <= k < |cs| && v in DeclNames(cs[k]) {
        var k :| 0 <= k < |cs| && v in DeclNames(cs[k]);
        if k > 0 {
          assert cs[k] == cs[1..][k - 1];
        }
      }
    }
  }

  /** Only declarations put names in the table. */
  lemma {:induction false} WalkKeys(n: Node, st: Analysis)
    ensures Walk(n, st).table.Keys <= st.table.Keys + DeclNames(n)
    decreases n, 1
  {
    var c := n.children;
    forall v | v in Walk(n, st).table && v !in st.table ensures v in DeclNames(n) {
      DeclNamesAllMember(c, v);
      match n.kind
      case Declaration =>
        if |c| > 2 && v != c[1].value {
          var declared := st.(table := st.table[c[1].value := SymbolInfo(c[0].value, false, st.scope, true)],
                              names := st.names + [c[1].value]);
          WalkKeys(c[2], declared);
        }
      case Assignment =>
        WalkKeys(c[1], MarkUsed(c[0].value, st));
      case Identifier =>
      case If =>
        WalkKeys(c[0], st);
        WalkKeys(c[1], Walk(c[0], st));
        if |c| > 2 {
          WalkKeys(c[2], Walk(c[1], Walk(c[0], st)));
        }
      case While =>
        WalkKeys(c[0], st);
        WalkKeys(c[1], Walk(c[0], st));
      case Program | StatementList | For | Binary | Unary | Number | Float | String | Type =>
        WalkAllKeys(c, st);
    }
  }

  lemma {:induction false} WalkAllKeys(cs: seq<Node>, st: Analysis)
    ensures WalkAll(cs, st).table.Keys <= st.table.Keys + DeclNamesAll(cs)
    decreases cs, 0
  {
    if cs != [] {
      WalkKeys(cs[0], st);
      WalkAllKeys(cs[1..], Walk(cs[0], st));
    }
  }

  /** An expression declares nothing. */
  lemma {:induction false} ExprDeclaresNothing(e: Node)
    requires IsExpr(e)
    ensures DeclNames(e) == {}
    decreases e
  {
    forall v | v in DeclNamesAll(e.children) ensures false {
      DeclNamesAllMember(e.children, v);
      var k :| 0 <= k < |e.children| && v in DeclNames(e.children[k]);
      ExprDeclaresNothing(e.children[k]);
    }
  }

  /** In a statement or block the walk reaches every declaration, so every
      name declared there is in the table afterwards. */
  lemma {:induction false} WalkDeclares(n: Node, st: Analysis)
    requires IsStatement(n) || IsBlock(n)
    ensures st.table.Keys + DeclNames(n) <= Walk(n, st).table.Keys
    decreases n, 1
  {
    match n.kind
    case Declaration => DeclarationDeclares(n, st);
    case Assignment => AssignmentDeclares(n, st);
    case If => IfDeclares(n, st);
    case While => WhileDeclares(n, st);
    case For | StatementList => WalkAllDeclares(n.children, st);
    case Program | Binary | Unary | Identifier | Number | Float | String | Type => ExprKeepsKeys(n, st);
  }

  lemma ExprKeepsKeys(n: Node, st: Analysis)
    requires IsExpr(n)
    ensures st.table.Keys + DeclNames(n) <= Walk(n, st).table.Keys
  {
    ExprDeclaresNothing(n);
    WalkEvolves(n, st);
  }

  /** A leaf declares nothing. */
  lemma LeafDeclaresNothing(n: Node)
    requires n.children == []
    ensures n.kind != Declaration ==> DeclNames(n) == {}
  {
  }

  lemma DeclarationDeclares(n: Node, st: Analysis)
    requires IsDeclaration(n)
    ensures st.table.Keys + DeclNames(n) <= Walk(n, st).table.Keys
  {
    var c := n.children;
    DeclarationEvolves(n, st);
    DeclarationEffect(n, st);
    LeafDeclaresNothing(c[0]);
    LeafDeclaresNothing(c[1]);
    if |c| > 2 {
      ExprDeclaresNothing(c[2]);
    }
    forall v | v in DeclNamesAll(c) ensures false {
      DeclNamesAllMember(c, v);
    }
  }

  lemma AssignmentDeclares(n: Node, st: Analysis)
    requires IsStatement(n) && n.kind == Assignment
    ensures st.table.Keys + DeclNames(n) <= Walk(n, st).table.Keys
  {
    var c := n.children;
    AssignmentEvolves(n, st);
    LeafDeclaresNothing(c[0]);
    ExprDeclaresNothing(c[1]);
    forall v | v in DeclNamesAll(c) ensures false {
      DeclNamesAllMember(c, v);
    }
  }

  lemma {:induction false} IfDeclares(n: Node, st: Analysis)
    requires IsStatement(n) && n.kind == If
    ensures st.table.Keys + DeclNames(n) <= Walk(n, st).table.Keys
    decreases n, 0
  {
    var c := n.children;
    var s1 := Walk(c[0], st);
    var s2 := Walk(c[1], s1);
    WalkDeclares(c[0], st);
    WalkDeclares(c[1], s1);
    if |c| > 2 {
      WalkDeclares(c[2], s2);
    }
    forall v | v in DeclNamesAll(c) ensures v in Walk(n, st).table {
      DeclNamesAllMember(c, v);
    }
  }

  lemma {:induction false} WhileDeclares(n: Node, st: Analysis)
    requires IsStatement(n) && n.kind == While
    ensures st.table.Keys + DeclNames(n) <= Walk(n, st).table.Keys
    decreases n, 0
  {
    var c := n.children;
    WalkDeclares(c[0], st);
    WalkDeclares(c[1], Walk(c[0], st));
    forall v | v in DeclNamesAll(c) ensures v in Walk(n, st).table {
      DeclNamesAllMember(c, v);
    }
  }

  lemma {:induction false} WalkAllDeclares(cs: seq<Node>, st: Analysis)
    requires forall k :: 0 <= k < |cs| ==> IsStatement(cs[k]) || IsBlock(cs[k])
    ensures st.table.Keys + DeclNamesAll(cs) <= WalkAll(cs, st).table.Keys
    decreases cs, 0
  {
    if cs != [] {
      WalkDeclares(cs[0], st);
      WalkAllDeclares(cs[1..], Walk(cs[0], st));
    }
  }

  // ---------------------------------------------------------------------------
  // Declarations, assignments and uses, one node at a time
  // ---------------------------------------------------------------------------

  /** A first declaration inserts the entry with its type, the current scope
      and whether it has an initializer, and is not itself a use: the entry
      ends up used only if the initializer mentions the name. A redeclaration
      only adds its error, and its initializer is not analysed. */
  lemma DeclarationEffect(n: Node, st: Analysis)
    requires n.kind == Declaration && |n.children| >= 2
    ensures var name := n.children[1].value;
            var r := Walk(n, st);
            && (name in st.table ==> r == st.(errors := st.errors + [RedeclarationError(name)]))
            && (name !in st.table ==>
                  && name in r.table && |r.names| > |st.names| && r.names[|st.names|] == name
                  && r.table[name].varType == n.children[0].value && r.table[name].scope == st.scope
                  && r.table[name].initialized == (|n.children| > 2)
                  && (r.table[name].used ==> |n.children| > 2))
  {
    var c := n.children;
    var name := c[1].value;
    if name !in st.table {
      var declared := st.(table := st.table[name := SymbolInfo(c[0].value, false, st.scope, |c| > 2)],
                          names := st.names + [name]);
      if |c| > 2 {
        WalkEvolves(c[2], declared);
      }
    }
  }

  /** An assignment to an undeclared name only adds its error and skips the
      right-hand side; to a declared name it marks the name used and then
      analyses the right-hand side. */
  lemma AssignmentEffect(n: Node, st: Analysis)
    requires n.kind == Assignment && |n.children| >= 2
    ensures var name := n.children[0].value;
            && (name !in st.table ==> Walk(n, st) == st.(errors := st.errors + [UndeclaredError(name)]))
            && (name in st.table ==> name in Walk(n, st).table && Walk(n, st).table[name].used
                                     && st.errors <= Walk(n, st).errors)
  {
    var name := n.children[0].value;
    if name in st.table {
      WalkEvolves(n.children[1], MarkUsed(name, st));
    }
  }

  /** A use marks a declared name used and changes nothing else; an
      undeclared one adds an error and changes nothing else. */
  lemma IdentifierEffect(n: Node, st: Analysis)
    requires n.kind == Identifier
    ensures n.value in st.table ==>
              && Walk(n, st).table[n.value].used && Walk(n, st).errors == st.errors
              && Walk(n, st).table.Keys == st.table.Keys
              && forall v :: v in st.table && v != n.value ==> Walk(n, st).table[v] == st.table[v]
    ensures n.value !in st.table ==> Walk(n, st) == st.(errors := st.errors + [UndeclaredError(n.value)])
  {
  }

  // ---------------------------------------------------------------------------
  // The warnings pass
  // ---------------------------------------------------------------------------

  /** The warnings for one entry: unused first, then uninitialized. */
  function EntryWarnings(name: Value, info: SymbolInfo): (r: seq<string>)
    ensures |r| <= 2
    ensures r == [] <==> info.used && info.initialized
  {
    (if !info.used then [UnusedWarning(name)] else []) + (if !info.initialized then [UninitializedWarning(name)] else [])
  }

  /** The warnings for the entries named in `names`, in that order. */
  function UnusedWarnings(names: seq<Value>, table: map<Value, SymbolInfo>): (r: seq<string>)
    requires forall v :: v in names ==> v in table
    ensures |r| <= 2 * |names|
  {
    if names == [] then []
    else UnusedWarnings(names[..|names| - 1], table) + EntryWarnings(names[|names| - 1], table[names[|names| - 1]])
  }

  lemma UnusedWarningsSnoc(names: seq<Value>, k: nat, table: map<Value, SymbolInfo>)
    requires k < |names| && forall v :: v in names ==> v in table
    ensures UnusedWarnings(names[..k + 1], table) == UnusedWarnings(names[..k], table) + EntryWarnings(names[k], table[names[k]])
  {
    assert names[..k + 1][..k] == names[..k];
  }

  /** The warnings of each entry are among the warnings of the table. */
  lemma {:induction false} EntryWarningsIncluded(names: seq<Value>, table: map<Value, SymbolInfo>, i: nat)
    requires i < |names| && forall v :: v in names ==> v in table
    ensures forall w :: w in EntryWarnings(names[i], table[names[i]]) ==> w in UnusedWarnings(names, table)
    decreases |names|
  {
    var init := names[..|names| - 1];
    if i < |names| - 1 {
      assert names[i] == init[i];
      EntryWarningsIncluded(init, table, i);
    }
  }

  /** The table gives no warnings exactly when no entry does. */
  lemma {:induction false} UnusedWarningsEmpty(names: seq<Value>, table: map<Value, SymbolInfo>)
    requires forall v :: v in names ==> v in table
    ensures UnusedWarnings(names, table) == [] <==>
              forall i :: 0 <= i < |names| ==> EntryWarnings(names[i], table[names[i]]) == []
    decreases |names|
  {
    if names != [] {
      var init := names[..|names| - 1];
      UnusedWarningsEmpty(init, table);
      forall i | 0 <= i < |names| - 1 ensures names[i] == init[i] {
      }
    }
  }

  /** Every unused or uninitialized entry gets its warning, and there are no
      warnings exactly when every entry is used and initialized. */
  lemma UnusedWarningsComplete(names: seq<Value>, table: map<Value, SymbolInfo>)
    requires forall v :: v in names ==> v in table
    ensures forall i :: 0 <= i < |names| && !table[names[i]].used ==> UnusedWarning(names[i]) in UnusedWarnings(names, table)
    ensures forall i :: 0 <= i < |names| && !table[names[i]].initialized ==>
              UninitializedWarning(names[i]) in UnusedWarnings(names, table)
    ensures UnusedWarnings(names, table) == [] <==>
              forall i :: 0 <= i < |names| ==> table[names[i]].used && table[names[i]].initialized
  {
    forall i | 0 <= i < |names| {
      EntryWarningsIncluded(names, table, i);
    }
    UnusedWarningsEmpty(names, table);
  }

  // ---------------------------------------------------------------------------
  // analyze_semantics
  // ---------------------------------------------------------------------------

  /** What `analyze_semantics` returns: errors, warnings and the table (with
      its keys in insertion order). */
  datatype Report = Report(errors: seq<string>, warnings: seq<string>, symbolTable: map<Value, SymbolInfo>, names: seq<Value>)

  const NoAstError: string := "No AST provided for semantic analysis"

  /** The report for a tree, or for no tree. */
  function SemanticsOf(ast: Option<Node>): (r: Report)
    ensures ast.None? ==> r == Report([NoAstError], [], map[], [])
  {
    match ast
    case None => Report([NoAstError], [], map[], [])
    case Some(n) =>
      var st := Walk(n, Start);
      WalkEvolves(n, Start);
      Report(st.errors, UnusedWarnings(st.names, st.table), st.table, st.names)
  }

  /** For a program the grammar builds, the table holds exactly the names the
      program declares, and there are no warnings exactly when each of them is
      used and initialized. */
  lemma ProgramReport(p: Node)
    requires IsProgram(p)
    ensures SemanticsOf(Some(p)).symbolTable.Keys == DeclNames(p)
    ensures var r := SemanticsOf(Some(p));
            r.warnings == [] <==> forall v :: v in r.symbolTable ==> r.symbolTable[v].used && r.symbolTable[v].initialized
  {
    var st := Walk(p, Start);
    WalkEvolves(p, Start);
    WalkKeys(p, Start);
    WalkAllDeclares(p.children, Start);
    assert st == WalkAll(p.children, Start);
    assert DeclNames(p) == DeclNamesAll(p.children);
    UnusedWarningsComplete(st.names, st.table);
    if forall i :: 0 <= i < |st.names| ==> st.table[st.names[i]].used && st.table[st.names[i]].initialized {
      forall v | v in st.table ensures st.table[v].used && st.table[v].initialized {
        var i :| 0 <= i < |st.names| && st.names[i] == v;
      }
    }
  }

  // ---------------------------------------------------------------------------
  // The checker as the object the source defines
  // ---------------------------------------------------------------------------

  class SemanticAnalyzer {
    var symbolTable: map<Value, SymbolInfo>
    var names: seq<Value>
    var currentScope: string
    var errors: seq<string>
    var warnings: seq<string>

    function State(): Analysis
      reads this
    {
      Analysis(symbolTable, names, currentScope, errors)
    }

    constructor()
      ensures State() == Start && warnings == []
    {
      symbolTable := map[];
      names := [];
      currentScope := GlobalScope;
      errors := [];
      warnings := [];
    }

    /** `analyze`: walks `node` in pre-order, updating the table and the errors. */
    method Analyze(node: Option<Node>)
      modifies this
      ensures node.None? ==> State() == old(State())
      ensures node.Some? ==> State() == Walk(node.value, old(State()))
      ensures warnings == old(warnings)
      decreases SubtreeSize(node)
    {
      if node.None? {
        return;
      }
      var n := node.value;
      var c := n.children;
      if n.kind == Declaration {
        if |c| >= 2 {
          var varType := c[0].value;
          var varName := c[1].value;
          if varName in symbolTable {
            errors := errors + [RedeclarationError(varName)];
          } else {
            symbolTable := symbolTable[varName := SymbolInfo(varType, false, currentScope, |c| > 2)];
            names := names + [varName];
            if |c| > 2 {
              SizeAtMostSum(c, 2);
              Analyze(Some(c[2]));
            }
          }
        }
      } else if n.kind == Assignment {
        if |c| >= 2 {
          var varName := c[0].value;
          if varName !in symbolTable {
            errors := errors + [UndeclaredError(varName)];
          } else {
            symbolTable := symbolTable[varName := symbolTable[varName].(used := true)];
            SizeAtMostSum(c, 1);
            Analyze(Some(c[1]));
          }
        }
      } else if n.kind == Identifier {
        if n.value in symbolTable {
          symbolTable := symbolTable[n.value := symbolTable[n.value].(used := true)];
        } else {
          errors := errors + [UndeclaredError(n.value)];
        }
      } else if n.kind == If {
        if |c| >= 2 {
          SizeAtMostSum(c, 0);
          Analyze(Some(c[0]));
          SizeAtMostSum(c, 1);
          Analyze(Some(c[1]));
          if |c| > 2 {
            SizeAtMostSum(c, 2);
            Analyze(Some(c[2]));
          }
        }
      } else if n.kind == While {
        if |c| >= 2 {
          SizeAtMostSum(c, 0);
          Analyze(Some(c[0]));
          SizeAtMostSum(c, 1);
          Analyze(Some(c[1]));
        }
      } else {
        ghost var st0 := State();
        var k := 0;
        while k < |c|
          invariant 0 <= k <= |c|
          invariant WalkAll(c, st0) == WalkAll(c[k..], State())
          invariant warnings == old(warnings)
        {
          SizeAtMostSum(c, k);
          WalkAllUnfold(c, k, State());
          Analyze(Some(c[k]));
          k := k + 1;
        }
        assert c[k..] == [];
      }
    }

    /** `check_unused_variables`: the warnings for every entry, in insertion order. */
    method CheckUnusedVariables()
      requires forall v :: v in names ==> v in symbolTable
      modifies this
      ensures State() == old(State())
      ensures warnings == old(warnings) + UnusedWarnings(names, symbolTable)
    {
      var k := 0;
      while k < |names|
        invariant 0 <= k <= |names|
        invariant warnings == old(warnings) + UnusedWarnings(names[..k], symbolTable)
        modifies this`warnings
      {
        var name := names[k];
        var info := symbolTable[name];
        UnusedWarningsSnoc(names, k, symbolTable);
        warnings := warnings + EntryWarnings(name, info);
        k := k + 1;
      }
      assert names[..k] == names;
    }
  }

  /** `analyze_semantics`: a fresh checker walks the tree and then emits its
      warnings. */
  method AnalyzeSemantics(ast: Option<Node>) returns (report: Report)
    ensures report == SemanticsOf(ast)
  {
    if ast.None? {
      return Report([NoAstError], [], map[], []);
    }
    var analyzer := new SemanticAnalyzer();
    analyzer.Analyze(ast);
    WalkEvolves(ast.value, Start);
    analyzer.CheckUnusedVariables();
    report := Report(analyzer.errors, analyzer.warnings, analyzer.symbolTable, analyzer.names);
  }
}
