# Code similarity checker: a Dafny model

The system compares two programs written in a small C-like language
(declarations of `int`, `float`, `string` and `bool` variables, assignments,
`if`/`else`, `while`, `for`, and expressions with `+ - * / %`, comparisons and
unary minus). Its backend has these parts:

- a PLY lexer that turns source text into `(type, value)` tokens;
- a PLY grammar whose actions build a tree of `Node(type, children, value)`;
- a normaliser that renames every identifier to `var1`, `var2`, … in the
  order it first meets them, and blanks every literal;
- an ordered tree edit distance, with a dynamic-programming alignment of
  child lists;
- a similarity percentage, `(1 - distance / max_size) * 100` clamped to
  `[0, 100]`;
- a semantic checker that walks one tree with a flat symbol table. It reports
  redeclared and undeclared variables as errors, and unused and
  uninitialised variables as warnings.

The model has one module per part:

| file | module | models |
|---|---|---|
| `values.dfy` | `Values` | token and node payloads (`None`, int, float, string) and Python's decimal rendering and parsing of numbers |
| `ast.dfy` | `Ast` | `Node`, `subtree_size`, and the tree shapes the grammar builds |
| `lexer.dfy` | `Lexer` | the token rules as a pure scanning function, PLY's lexer object as a class, and `tokenize_code` as a loop |
| `parser.dfy` | `Parser` | the grammar, with PLY's precedence resolution written out as precedence climbing; `parse_code` |
| `normalize.dfy` | `Normalize` | `ASTNormalizer`: a pure specification and a class whose method updates the name map in place |
| `distance.dfy` | `Distance` | `tree_edit_distance`, and `min_children_distance` filling a two-dimensional array |
| `similarity.dfy` | `Similarity` | `calculate_similarity` and `compare_code` |
| `semantic.dfy` | `Semantic` | `SemanticAnalyzer` and `analyze_semantics`: a pure walk and a class that keeps the symbol table, errors and warnings as fields |

Each stateful or looping operation is a `method` proved equal to a
specification function. These are `Lexer.NextToken`, `TokenizeCode`,
`ASTNormalizer.Normalize`, `MinChildrenDistance`, `CalculateSimilarity`,
`SemanticAnalyzer.Analyze` and `CheckUnusedVariables`. The properties are
lemmas about those functions.

Main results:

- lexing the rendering of any spellable token list gives the tokens back;
- parsing the printed form of any tree the grammar builds gives the tree back;
- the tree distance is zero exactly between equal trees, is symmetric, and is
  bounded by the sizes;
- normalisation is idempotent, preserves shape, and ignores injective
  renaming and literal values;
- a similarity of 100% means the two normal forms are equal;
- the symbol table holds exactly the declared names, and there are no
  warnings exactly when every entry is used and initialised.

## Model

| member | source | states |
|---|---|---|
| Values.NatToDecimal | backend/ast_compare.py:19 | `str(n)` of a non-negative int, as in `f'var{n}'`, is a non-empty run of digits |
| Values.DigitsValueOfDecimal | backend/lexer.py:62 | `int(str(n)) == n`: reading back a rendered number gives the number |
| Values.NatToDecimalInjective | backend/ast_compare.py:19 | distinct numbers render differently, so distinct counters give distinct names |
| Values.IntToDecimal | backend/semantic.py:24 | `str(i)` for any int is non-empty |
| Values.DecimalValue | backend/lexer.py:57 | `float("w.f")` of a digits-dot-digits lexeme is a non-negative value |
| Ast.Size | backend/ast_compare.py:36-40 | a present subtree has at least one node |
| Ast.SubtreeSize | backend/ast_compare.py:36-40 | `subtree_size` is 0 exactly for `None` |
| Ast.PrefixSizeMonotone | backend/ast_compare.py:77 | the border entries `sum(subtree_size(children[j]) for j in range(i))` grow with `i` |
| Ast.SizeAtMostSum | backend/ast_compare.py:40 | no child is larger than all the children together |
| Ast.SameShapeSize | backend/ast_compare.py:36-40 | trees with the same kinds and child counts have the same size |
| Ast.SameShapePrefixSize | backend/ast_compare.py:77-79 | sibling lists of the same shape have equal border sums |
| Ast.IsExpr | backend/parser.py:98-132 | an expression node (the `Node` datatype's `binary`, `unary` and leaf shapes) has one of the six expression kinds and at most two children |
| Ast.IsDeclaration | backend/parser.py:43-56 | a declaration has at least two children: a type leaf, which is not an expression, and an identifier leaf, which is |
| Ast.IsStatement | backend/parser.py:34-90 | no statement is a `program`, a `statement_list` or a `type` node |
| Ast.IsBlock | backend/parser.py:25-32 | a `statement_list` has at least one child and none of its children is itself a list, a program or a type |
| Ast.IsProgram | backend/parser.py:21-23 | a program has exactly one child, a non-empty `statement_list` |
| Lexer.IdentCharsEnd | backend/lexer.py:51 | the longest run of identifier characters: all identifier characters, and followed by none |
| Lexer.DigitsEnd | backend/lexer.py:56 | the longest run of digits, followed by no digit |
| Lexer.NewlinesEnd | backend/lexer.py:71 | the longest run of newlines |
| Lexer.LineEnd | backend/lexer.py:75 | a comment runs up to the next newline or the end, and holds no newline |
| Lexer.StringEnd | backend/lexer.py:66 | a string literal ends at a quote and holds no raw newline |
| Lexer.MatchIdent | backend/lexer.py:50-53 | the identifier pattern matches a non-empty run of identifier characters |
| Lexer.MatchFloat | backend/lexer.py:55-58 | the float pattern matches digits, a dot, then digits |
| Lexer.MatchNumber | backend/lexer.py:60-63 | the integer pattern matches a non-empty run of digits |
| Lexer.MatchString | backend/lexer.py:65-68 | a string lexeme has both quotes and no newline |
| Lexer.MatchNewlines | backend/lexer.py:70-72 | the newline rule matches only newlines |
| Lexer.MatchComment | backend/lexer.py:74-76 | a comment lexeme is at least `//` and holds no newline |
| Lexer.MatchOperator | backend/lexer.py:28-45 | an operator lexeme has one or two characters, and no newline |
| Lexer.MatchAt | backend/lexer.py:28-76 | the rule that fires consumes at least one character and stays in the input |
| Lexer.ScanToken | backend/lexer.py:48-80 | a token is found strictly after the start and within the input; when none is, the scan ran past the end |
| Lexer.ScanSkip | backend/lexer.py:48 | a blank or tab is skipped, and so is a character no rule matches (by `t_error`) |
| Lexer.ScanPass | backend/lexer.py:70-76 | a newline run or a comment makes no token, and scanning continues after it |
| Lexer.ScanEmit | backend/lexer.py:50-68 | a lexeme whose rule returns the token is the next token |
| Lexer.ScanEnd | backend/lexer.py:89-92 | at the end of the input there is no token |
| Lexer.TokensFrom | backend/lexer.py:89-93 | the lexer loop emits at most one token per remaining character |
| Lexer.Tokens | backend/lexer.py:85-95 | the token list of an input is no longer than the input and every token in it is well formed |
| Lexer.NewlinesInSplit | backend/lexer.py:72 | newline counts over adjacent ranges add up |
| Lexer.MatchLines | backend/lexer.py:70-76 | only `t_newline` consumes newlines, and it consumes exactly its lexeme's length |
| Lexer.SkipLines | backend/lexer.py:78-80 | a skipped character adds no line |
| Lexer.NewlineMatches | backend/lexer.py:70-71 | every newline character is matched by `t_newline` |
| Lexer.MatchLinesFrom | backend/lexer.py:72 | the line count after a lexeme is the count before plus its newlines |
| Lexer.WordTokenKinds | backend/lexer.py:52 | a word keeps itself as its value; it is `ID` exactly when it is not reserved, and otherwise a keyword |
| Lexer.ScanWord | backend/lexer.py:50-53 | a whole word not followed by an identifier character is one token |
| Lexer.ScanFloat | backend/lexer.py:55-58 | `digits.digits` is one `FLOAT_NUMBER` whose value is that decimal, not a `NUMBER` then junk |
| Lexer.ScanNumber | backend/lexer.py:60-63 | digits not followed by `.digit` are one `NUMBER` holding their value |
| Lexer.ScanString | backend/lexer.py:65-68 | a quoted plain body is one `STRING_LITERAL` whose value has the quotes removed |
| Lexer.ScanTwoCharOperator | backend/lexer.py:39-42 | `==`, `!=`, `<=`, `>=` are single tokens, never their one-character prefixes |
| Lexer.ScanOneCharOperator | backend/lexer.py:28-45 | any other operator character is its own one-character token |
| Lexer.IllegalSkipped | backend/lexer.py:78-80 | `t_error` fires exactly at the characters no rule matches, and skips just one |
| Lexer.SkippedMakeNoToken | backend/lexer.py:48 | blanks, newline runs and comments make no token |
| Lexer.KeywordSpelling | backend/lexer.py:15-25 | each keyword is the word that the reserved table maps to it |
| Lexer.ReservedSpelling | backend/lexer.py:15-25 | each reserved word maps to a keyword whose text is that word |
| Lexer.OperatorSpelling | backend/lexer.py:28-45 | each operator's text is what the operator patterns match |
| Lexer.ScanSpelling | backend/lexer.py:50-76 | a token's text followed by a blank scans back to that token |
| Lexer.ScanKeyword | backend/lexer.py:50-53 | a keyword's text followed by a blank scans as that keyword |
| Lexer.ScanOperator | backend/lexer.py:28-45 | an operator's text followed by a blank scans as that operator |
| Lexer.LexRender | backend/lexer.py:85-95 | round trip: lexing the rendering of a spellable token list gives the same tokens |
| Lexer.LexRenderedAt | backend/lexer.py:89-93 | tokens spelled one after the other are lexed in that order |
| Lexer.MatchAtWellFormed | backend/lexer.py:50-68 | every token a rule makes has the value its type calls for |
| Lexer.ScanTokenWellFormed | backend/lexer.py:50-68 | the next token, when there is one, is well formed |
| Lexer.TokensWellFormed | backend/lexer.py:85-95 | every token the lexer returns is well formed |
| Lexer.Lexer.constructor | backend/lexer.py:83 | a new lexer has no text, position 0 and line 1 |
| Lexer.Lexer.Input | backend/lexer.py:87 | `input` sets the text and rewinds to position 0; the line counter carries on |
| Lexer.Lexer.NextToken | backend/lexer.py:90 | `token` returns the next token and advances the position as the scanning function does; the line counter grows by the newlines passed |
| Lexer.TokenizeCode | backend/lexer.py:85-95 | the collected list is exactly the tokens of the text; the shared line counter grows by its newline count |
| Parser.OperatorValue | backend/parser.py:110 | a well-formed operator token carries its operator text |
| Parser.PrimaryNode | backend/parser.py:122-130 | the leaf has no children and carries the token's value; for a well-formed literal or name its kind is `number`, `float`, `string` or `identifier` exactly when the token is NUMBER, FLOAT_NUMBER, STRING_LITERAL or ID, and it is an expression |
| Parser.ParseExpression | backend/parser.py:92-96 | an expression parse advances within the tokens and builds an expression tree |
| Parser.ParseUnary | backend/parser.py:112-114 | a unary or primary expression takes at least one token and, over well-formed tokens, is an expression (the node it builds is stated by `Parser.UnaryShape`) |
| Parser.ParsePrimary | backend/parser.py:116-132 | a primary expression takes at least one token and, over well-formed tokens, is an expression (its leaves and parentheses are stated by `Parser.PrimaryShape`) |
| Parser.UnaryShape | backend/parser.py:112-114 | after a minus the result is a `unary` node with the minus's value over exactly the expression parsed after it, which takes only operators of level 2 or more; any other token starts a primary expression |
| Parser.PrimaryShape | backend/parser.py:116-132 | a primary expression starts with a literal, a name or `(`; a literal or name is the one leaf `PrimaryNode` builds from its token; parentheses give the inner expression's own node and end at `)` |
| Parser.ParseOperators | backend/parser.py:98-110 | `binary` nodes hold two operands and the operator text |
| Parser.ParseExpressionStatement | backend/parser.py:88-90 | the statement is the expression itself |
| Parser.ParseDeclaration | backend/parser.py:43-63 | a declaration is `[type, identifier]` or `[type, identifier, initializer]` |
| Parser.ParseAssignment | backend/parser.py:65-70 | an assignment is `[identifier, expression]` |
| Parser.ParseCondition | backend/parser.py:72-82 | the parenthesised condition of `if` and `while` is an expression |
| Parser.ParseForHeader | backend/parser.py:84-86 | a `for` header is a declaration, a condition and an update expression |
| Parser.ParseStatement | backend/parser.py:34-41 | every statement alternative yields a statement tree |
| Parser.ParseIf | backend/parser.py:72-78 | `if` has a condition and a block, plus an optional else block |
| Parser.ParseWhile | backend/parser.py:80-82 | `while` has a condition and a block |
| Parser.ParseFor | backend/parser.py:84-86 | `for` has init, condition, update and a block |
| Parser.ParseBlock | backend/parser.py:72-86 | the braces hold a statement list, which is the block's node |
| Parser.ParseStatementList | backend/parser.py:25-32 | a statement list takes at least one token and, over well-formed tokens, is a block (its node, first statement and end are stated by `Parser.StatementListShape`; the whole list in source order by `Parser.ProgramUnparse`) |
| Parser.ParseMoreStatements | backend/parser.py:28-32 | appending keeps the earlier statements as a prefix, and stops at `}` or the end |
| Parser.MoreStatementsKeepList | backend/parser.py:30-32 | appending later statements keeps the list node's kind and value |
| Parser.StatementListShape | backend/parser.py:25-32 | a statement list is one `statement_list` node without a value whose first child is the first statement parsed, and it stops at the end of the tokens or before `}` |
| Parser.ParseProgram | backend/parser.py:21-23 | empty input does not parse, and a parse is a `program` over one statement list |
| Parser.ParseCode | backend/parser.py:143-145 | `parse_code` of any text yields either nothing or a tree of the grammar's shape |
| Parser.Grouping | backend/parser.py:15-18 | `a o1 b o2 c` groups to the left exactly when `o2` binds less tightly, or equally tightly and `o1` is not a comparison; comparisons group to the right |
| Parser.UnaryGrouping | backend/parser.py:112-114 | `-a o b` is `-(a o b)` exactly when `o` is `*`, `/` or `%`, and `(-a) o b` otherwise |
| Parser.OperandAlone | backend/parser.py:116-130 | an operand before a weaker operator, or before no operator, is the whole expression |
| Parser.OperatorStep | backend/parser.py:98-110 | an operator at least as strong as the context joins the left tree with its right operand |
| Parser.OperatorKind | backend/lexer.py:28-45 | each operator text names an operator token whose spelling it is |
| Parser.TypeKind | backend/parser.py:58-63 | each type name is a type keyword spelled that way |
| Parser.UnparseExpr | backend/parser.py:116-132 | the printed form of an expression is a lone operand or starts with a parenthesis |
| Parser.UnparseDeclaration | backend/parser.py:43-56 | a printed declaration starts with its type keyword |
| Parser.ExprUnparse | backend/parser.py:92-132 | parsing a printed expression gives the expression back |
| Parser.StatementUnparse | backend/parser.py:34-90 | parsing a printed statement gives the statement back |
| Parser.BlockUnparse | backend/parser.py:25-32 | parsing a printed block gives the block back |
| Parser.ProgramUnparse | backend/parser.py:21-32 | parsing the printed tokens of any tree the grammar builds gives the tree back |
| Parser.ParsePrinted | backend/parser.py:143-145 | `parse_code` of the printed text of any program with spellable tokens is that program |
| Normalize.VarName | backend/ast_compare.py:19 | every canonical name is `var` followed by a number |
| Normalize.VarNameInjective | backend/ast_compare.py:19 | distinct counters give distinct names |
| Normalize.LiteralValue | backend/ast_compare.py:22-29 | numbers become 0, floats 0.0, strings `""`, and other payloads stay |
| Normalize.NameOf | backend/ast_compare.py:17-21 | an identifier ends up in the map and gets its mapped name; names already given are kept; a known identifier changes nothing, a new one gets `var` plus the counter, which then goes up by one |
| Normalize.NodeValue | backend/ast_compare.py:16-29 | an identifier gets its name from the map, a literal one of the fixed values whatever its own, and only an identifier can change the state |
| Normalize.NormalizeNode | backend/ast_compare.py:9-34 | the normalised node keeps its kind and number of children, and the counter never goes down |
| Normalize.NormalizeList | backend/ast_compare.py:32 | normalising the children keeps their number |
| Normalize.NormalizeTree | backend/ast_compare.py:109-113 | a fresh normaliser maps `None` to `None` and a tree to a tree of the same shape and size |
| Normalize.ASTNormalizer.constructor | backend/ast_compare.py:5-7 | a new normaliser has an empty map and counter 1 |
| Normalize.ASTNormalizer.Normalize | backend/ast_compare.py:9-34 | the result and the updated map and counter are those of the pre-order specification; `None` gives `None` and leaves the state alone |
| Normalize.NormalizeIsCanon | backend/ast_compare.py:17-21 | every identifier ends up in the map, earlier names are kept, and the tree is renamed through the final map |
| Normalize.CanonShape | backend/ast_compare.py:32 | renaming keeps every kind and child count |
| Normalize.NormalizePreservesShape | backend/ast_compare.py:9-34 | the normalised tree has the shape, and so the size, of the original |
| Normalize.AssignAppend | backend/ast_compare.py:18-20 | naming `a + b` is naming `a` then `b` |
| Normalize.NormalizeNamesInPreOrder | backend/ast_compare.py:17-32 | the state evolves as if the identifiers were named in pre-order |
| Normalize.AssignFirstEncounter | backend/ast_compare.py:18-20 | the `j`-th new name gets `var(counter + j)`, old names are kept, and the counter grows by the number of new names |
| Normalize.DedupDistinct | backend/ast_compare.py:18 | each new identifier is counted once |
| Normalize.NormalizeNamesByFirstEncounter | backend/ast_compare.py:5-34 | a fresh normaliser names the distinct identifiers `var1`, `var2`, … in order of first occurrence |
| Normalize.NormalizeIgnoresLiterals | backend/ast_compare.py:22-29 | trees that differ only in literal values normalise identically |
| Normalize.RenameShape | backend/ast_compare.py:17-21 | renaming identifiers keeps the shape |
| Normalize.NormalizeIgnoresRenaming | backend/ast_compare.py:17-21 | an injective renaming of the identifiers does not change the normalised tree |
| Normalize.NormalizeTreeIgnoresRenaming | backend/ast_compare.py:109-113 | two programs that differ by an injective renaming have the same normal form |
| Normalize.AssignKeepsInv | backend/ast_compare.py:18-20 | names handed out stay distinct and numbered below the counter |
| Normalize.CanonIsRenaming | backend/ast_compare.py:17-29 | a normalised tree is a renaming of the original, up to literals |
| Normalize.NormalizeIdempotent | backend/ast_compare.py:9-34 | normalising a normal form changes nothing |
| Distance.RelabelCost | backend/ast_compare.py:58-63 | a node pair costs 1 when kind or value differ, 0 otherwise |
| Distance.Dist | backend/ast_compare.py:58-63 | the distance of two present nodes is at least their relabel cost, and is exactly that cost for two leaves |
| Distance.AlignPrefix | backend/ast_compare.py:73-91 | the table's first column holds the sizes of the first `i` children of one side, its first row those of the other side |
| Distance.Align | backend/ast_compare.py:68-93 | aligning with an empty list costs the total size of the other list |
| Distance.TreeDistance | backend/ast_compare.py:42-66 | against `None` the distance is the other tree's size, and it never exceeds the two sizes together |
| Distance.TreeEditDistance | backend/ast_compare.py:42-66 | the method's result is the distance specification, including the `None` cases |
| Distance.MinChildrenDistance | backend/ast_compare.py:68-93 | the table's last entry is the optimal ordered alignment of the two child lists |
| Distance.FillRow | backend/ast_compare.py:83-91 | one row of the table is filled from the previous row, and the rest of the table is unchanged |
| Distance.FillCell | backend/ast_compare.py:84-91 | one cell is the minimum of delete, insert and align, and no other cell changes |
| Distance.AlignStep | backend/ast_compare.py:87-91 | an inner table entry is the minimum of its three neighbours plus their costs |
| Distance.DistSelf | backend/ast_compare.py:42-66 | a tree is at distance 0 from itself |
| Distance.DistSymmetric | backend/ast_compare.py:42-93 | the distance does not depend on the order of the arguments |
| Distance.DistZeroOnlyIfEqual | backend/ast_compare.py:58-63 | distance 0 implies the trees are equal |
| Distance.DistZeroIffEqual | backend/ast_compare.py:42-93 | distance 0 exactly between equal trees |
| Distance.AlignAtMostSizes | backend/ast_compare.py:76-91 | aligning two child lists never costs more than deleting one and inserting the other |
| Distance.DistAtMostSizes | backend/ast_compare.py:42-93 | the distance is at most the sum of the sizes minus one |
| Distance.DistAtLeastSizeGap | backend/ast_compare.py:42-93 | the distance is at least the difference of the sizes |
| Similarity.Clamp | backend/ast_compare.py:122 | `max(0.0, min(100.0, x))` lies in `[0, 100]` and is `x` inside that range |
| Similarity.SimilarityOf | backend/ast_compare.py:95-122 | the percentage is within `[0, 100]`, and is 0 when either tree is missing |
| Similarity.Score | backend/ast_compare.py:119-122 | the clamped formula lies in `[0, 100]` |
| Similarity.ScoreFull | backend/ast_compare.py:120-122 | the score is 100 exactly when the distance is 0 |
| Similarity.ScoreMonotone | backend/ast_compare.py:120 | a larger distance never gives a higher score |
| Similarity.ScoreOfSizeGap | backend/ast_compare.py:119-120 | a distance equal to the size gap scores `100 * smaller / larger` |
| Similarity.SimilarityOfPresent | backend/ast_compare.py:108-122 | for two trees the percentage is the score of the distance between their normal forms, over the larger size |
| Similarity.CalculateSimilarity | backend/ast_compare.py:95-122 | the method computes the specified percentage |
| Similarity.SimilarityOfSelf | backend/ast_compare.py:95-122 | every tree is 100% similar to itself |
| Similarity.SimilaritySymmetric | backend/ast_compare.py:95-122 | the percentage does not depend on the order of the arguments |
| Similarity.SimilarityFullIffSameNormalForm | backend/ast_compare.py:108-122 | two trees score 100% exactly when their normal forms coincide |
| Similarity.SimilarityAtMostSizeRatio | backend/ast_compare.py:119-122 | no pair scores more than the size ratio allows |
| Similarity.NormalFormsAtLeastSizeGap | backend/ast_compare.py:108-120 | the distance behind a score is at least the size gap of the trees |
| Similarity.SimilarityIgnoresRenaming | backend/ast_compare.py:108-122 | renaming one program's variables injectively does not change the score |
| Similarity.SimilarityIgnoresLiterals | backend/ast_compare.py:108-122 | changing one program's constants does not change the score |
| Similarity.CompareCode | backend/ast_compare.py:124-138 | the result holds both parse results and their percentage, within `[0, 100]`; it is 0 when a text does not parse, and 100 for two equal texts that parse (the `try` path only; see "Left out") |
| Semantic.Walk | backend/semantic.py:8-67 | analysing a node keeps the scope, removes no table entry, and only appends to the inserted names and to the errors |
| Semantic.WalkAll | backend/semantic.py:14-18 | the same for a list of children analysed left to right |
| Semantic.WalkAllUnfold | backend/semantic.py:14-18 | children are analysed left to right |
| Semantic.EvolvesTransitive | backend/semantic.py:8-67 | later and later states compose |
| Semantic.WalkEvolves | backend/semantic.py:8-67 | the walk only appends names and errors, keeps the scope, changes an entry only by setting its `used` flag, and keeps the list of inserted names equal to the table's keys without repeats |
| Semantic.DeclNamesAllMember | backend/semantic.py:19-33 | a name is declared in a list of trees when it is declared in one of them |
| Semantic.WalkKeys | backend/semantic.py:19-33 | only declarations add names to the table |
| Semantic.ExprDeclaresNothing | backend/semantic.py:42-49 | an expression declares no name |
| Semantic.WalkDeclares | backend/semantic.py:8-67 | the walk over a statement or block reaches every declaration it holds |
| Semantic.WalkAllDeclares | backend/semantic.py:14-18 | the same, for a list of statements |
| Semantic.DeclarationEffect | backend/semantic.py:19-33 | a new name is appended with its type, the current scope and `initialized` set exactly when there is an initializer; the declaration itself is no use, so the entry is used only if there is an initializer; a redeclaration only adds its error |
| Semantic.AssignmentEffect | backend/semantic.py:34-41 | an assignment to an undeclared name only adds its error; to a declared name, it marks that name used and keeps the earlier errors |
| Semantic.IdentifierEffect | backend/semantic.py:42-46 | a use marks a declared name used and changes nothing else; an undeclared use adds its error |
| Semantic.EntryWarnings | backend/semantic.py:71-74 | one entry gives at most two warnings, and none exactly when it is used and initialised |
| Semantic.UnusedWarnings | backend/semantic.py:69-74 | the warnings pass gives at most two warnings per entry |
| Semantic.UnusedWarningsSnoc | backend/semantic.py:70-74 | the warnings grow entry by entry in table order |
| Semantic.EntryWarningsIncluded | backend/semantic.py:70-74 | each entry's warnings appear among the table's warnings |
| Semantic.UnusedWarningsEmpty | backend/semantic.py:69-74 | there are no warnings exactly when every entry is used and initialised |
| Semantic.UnusedWarningsComplete | backend/semantic.py:69-74 | every unused entry gets the unused warning and every uninitialised entry the uninitialised warning |
| Semantic.SemanticsOf | backend/semantic.py:78-83 | no tree gives exactly the single "No AST provided" error and nothing else |
| Semantic.ProgramReport | backend/semantic.py:76-93 | for a parsed program the table's keys are exactly the declared names, and there are no warnings exactly when every entry is used and initialised |
| Semantic.SemanticAnalyzer.constructor | backend/semantic.py:2-6 | a new checker has an empty table, the global scope and no errors or warnings |
| Semantic.SemanticAnalyzer.Analyze | backend/semantic.py:8-67 | `analyze` moves the fields to the walk's state; `None` changes nothing, and the warnings are untouched |
| Semantic.SemanticAnalyzer.CheckUnusedVariables | backend/semantic.py:69-74 | the warnings gain one group per entry, in insertion order, and nothing else changes |
| Semantic.AnalyzeSemantics | backend/semantic.py:76-93 | the report is the specification's report for the tree |

## Left out

- Lexer rules: `\d` matches only ASCII digits here; Python's pattern also accepts other Unicode digits.
- Float literals keep their exact decimal value as a `real`. IEEE rounding and float-to-text rendering are not modelled, so `Display` shows a float payload only as a marker. Python's `1 == 1.0` is also not modelled: an int and a float payload are never equal here.
- `tree_edit_distance`'s memo keyed by object ids is left out. The memo only avoids recomputation: the trees are immutable while it is alive and every id is distinct, so the result is that of the recursion without it.
- `ASTNormalizer.normalize`'s `deepcopy` becomes value semantics. The input tree is never changed.
- Similarity.CompareCode: the `except` branch (backend/ast_compare.py:139-146) is not modelled. Python's recursion limit is reachable: `deepcopy` (backend/ast_compare.py:13), `subtree_size` (:40) and `tree_edit_distance` (:60, :85) recurse once per tree level, so a tree nested a few hundred levels deep (for example `x = 1+1+...+1;` with a couple of hundred `+`) raises `RecursionError`. The source then returns similarity 0.0, `None` for both trees and an `'error'` key. The model recurses without a bound and has no failure result, so for such inputs its promises (the parsed trees, and 100 for two equal texts) differ from what the source returns.
- Similarity.Score: the percentage is an exact `real`. The double rounding of Python's division and product (backend/ast_compare.py:120) is not modelled, so a score such as `200/3` stands for the double `66.66666666666667`.
- Parser.ParseCode: PLY's error recovery is not modelled, and neither is `p_error`'s message. Here any text that does not fit the grammar parses to `None`. After a syntax error, PLY discards the parse stack and tokens and restarts from its initial state. It can therefore return a tree for the tokens after the error, and the model does not capture that tree.
- Tokens' `lineno` and `lexpos` attributes are left out. The parser and `tokenize_code` use only `(type, value)`.
- The PLY lexer's state before its first `input` is modelled as empty text.
- Lexer.LexRender: `FLOAT_NUMBER` tokens have no printed spelling here, because exact decimal rendering is out of scope. So `LexRender` and `Parser.ParsePrinted` cover only spellable tokens. Float literals fall outside both round trips, and so do strings holding a quote, a backslash or a newline.
- Comparisons have no declared precedence. PLY gives such tokens level 0, right associative, and the parser model writes that resolution out.
- `statement_list` appending to a list in place becomes building a new sequence. No alias of the list escapes the action, so this cannot be observed.
- The lexer object PLY shares between calls is the one `Lexer` object passed to `TokenizeCode`. `NextToken` keeps the newline count in a local and stores it when it returns, which cannot be observed from outside.
- `print` calls (`t_error`, `p_error`, `compare_code`, and the no-op expression in `tokenize_code`) are output only and are left out.
- The symbol table is a map plus the sequence of its keys in insertion order, which stands for the dict's iteration order.
- Semantic.SemanticAnalyzer.CheckUnusedVariables: requires every listed name to be in the table. This is the checker's invariant, kept by the constructor and by `Analyze` (`WalkEvolves`); Python needs no such precondition.
- `info.get('initialized', True)` reads a key every entry has, so it is the entry's flag here.
- The `hasattr` guards in `analyze` are always true for nodes and are left out.
- `graphviz_utils.py`, `main.py` and the user interface are not part of this model.
