/** The token rules of the toy C-like language and the lexer that applies
    them: ignored blanks, one rule tried after another at the current
    position, newline counting, and skipping one illegal character at a time. */
module Lexer {
  import opened Values

  /** The token names, as the lexer declares them. */
  datatype TokenType =
    | INT | FLOAT | STRING | BOOL
    | ID | NUMBER | FLOAT_NUMBER | STRING_LITERAL
    | PLUS | MINUS | TIMES | DIVIDE | MODULO
    | LPAREN | RPAREN | LBRACE | RBRACE
    | SEMICOLON | COMMA | ASSIGN
    | EQ | NE | LT | LE | GT | GE
    | IF | ELSE | WHILE | FOR | RETURN

  /** The `(type, value)` pair `tokenize_code` reports for each token. */
  datatype Token = Token(kind: TokenType, value: Value)

  /** The reserved words and the token types they take. */
  const Reserved: map<string, TokenType> :=
    map["int" := INT, "float" := FLOAT, "string" := STRING, "bool" := BOOL,
        "if" := IF, "else" := ELSE, "while" := WHILE, "for" := FOR, "return" := RETURN]

  /** The operators whose pattern has two characters: `==`, `!=`, `<=`, `>=`.
      Each is tried before every one-character operator. */
  function TwoCharOperator(a: char, b: char): Option<TokenType>
  {
    if b != '=' then None
    else if a == '=' then Some(EQ)
    else if a == '!' then Some(NE)
    else if a == '<' then Some(LE)
    else if a == '>' then Some(GE)
    else None
  }

  /** The operators and punctuation whose pattern is one character. */
  function OneCharOperator(c: char): Option<TokenType>
  {
    match c
    case '+' => Some(PLUS)
    case '-' => Some(MINUS)
    case '*' => Some(TIMES)
    case '/' => Some(DIVIDE)
    case '%' => Some(MODULO)
    case '(' => Some(LPAREN)
    case ')' => Some(RPAREN)
    case '{' => Some(LBRACE)
    case '}' => Some(RBRACE)
    case ';' => Some(SEMICOLON)
    case ',' => Some(COMMA)
    case '<' => Some(LT)
    case '>' => Some(GT)
    case '=' => Some(ASSIGN)
    case _ => None
  }

  /** The characters skipped before each token is looked for. */
  predicate IsIgnored(c: char) { c == ' ' || c == '\t' }

  predicate IsIdentStart(c: char) { 'a' <= c <= 'z' || 'A' <= c <= 'Z' || c == '_' }

  predicate IsIdentChar(c: char) { IsIdentStart(c) || IsDigit(c) }

  // ---------------------------------------------------------------------------
  // Runs of characters
  // ---------------------------------------------------------------------------

  /** The end of the longest run of identifier characters starting at `k`. */
  function IdentCharsEnd(s: string, k: nat): (e: nat)
    requires k <= |s|
    ensures k <= e <= |s|
    ensures forall m :: k <= m < e ==> IsIdentChar(s[m])
    ensures e == |s| || !IsIdentChar(s[e])
    decreases |s| - k
  {
    if k < |s| && IsIdentChar(s[k]) then IdentCharsEnd(s, k + 1) else k
  }

  /** The end of the longest run of decimal digits starting at `k`. */
  function DigitsEnd(s: string, k: nat): (e: nat)
    requires k <= |s|
    ensures k <= e <= |s|
    ensures forall m :: k <= m < e ==> IsDigit(s[m])
    ensures e == |s| || !IsDigit(s[e])
    decreases |s| - k
  {
    if k < |s| && IsDigit(s[k]) then DigitsEnd(s, k + 1) else k
  }

  /** The end of the longest run of newlines starting at `k`. */
  function NewlinesEnd(s: string, k: nat): (e: nat)
    requires k <= |s|
    ensures k <= e <= |s|
    ensures forall m :: k <= m < e ==> s[m] == '\n'
    ensures e == |s| || s[e] != '\n'
    decreases |s| - k
  {
    if k < |s| && s[k] == '\n' then NewlinesEnd(s, k + 1) else k
  }

  /** The end of the line `k` is on: the next newline, or the end of the input. */
  function LineEnd(s: string, k: nat): (e: nat)
    requires k <= |s|
    ensures k <= e <= |s|
    ensures forall m :: k <= m < e ==> s[m] != '\n'
    ensures e == |s| || s[e] == '\n'
    decreases |s| - k
  {
    if k < |s| && s[k] != '\n' then LineEnd(s, k + 1) else k
  }

  /** The body of a string literal from `k` on: any character but a backslash
      or a newline, or a backslash and the character after it unless that is a
      newline, up to the first quote so reached. The result is the position
      just past that closing quote; there is none when a newline, a backslash
      before a newline or the end of the input comes first. */
  function StringEnd(s: string, k: nat): (r: Option<nat>)
    requires k <= |s|
    ensures r.Some? ==> k < r.value <= |s| && s[r.value - 1] == '"'
    ensures r.Some? ==> forall m :: k <= m < r.value ==> s[m] != '\n'
    decreases |s| - k
  {
    if k == |s| || s[k] == '\n' then None
    else if s[k] == '"' then Some(k + 1)
    else if s[k] == '\\' then
      if k + 1 < |s| && s[k + 1] != '\n' then StringEnd(s, k + 2) else None
    else StringEnd(s, k + 1)
  }

  // ---------------------------------------------------------------------------
  // The rules, in the order they are tried
  // ---------------------------------------------------------------------------

  /** What the rule that matched at a position does with its lexeme: return a
      token, count a run of newlines, or drop a comment. `end` is the
      position just past the lexeme. */
  datatype Match = Emit(tok: Token, end: nat) | Newlines(end: nat) | Comment(end: nat)

  /** `t_ID`: the lexeme is its own value, and a reserved word takes the
      reserved word's token type. */
  function WordToken(word: string): Token
  {
    Token(if word in Reserved then Reserved[word] else ID, StrVal(word))
  }

  /** `[a-zA-Z_][a-zA-Z_0-9]*` */
  function MatchIdent(s: string, pos: nat): (r: Option<nat>)
    requires pos < |s|
    ensures r.Some? ==> pos < r.value <= |s| && forall m :: pos <= m < r.value ==> IsIdentChar(s[m])
  {
    if IsIdentStart(s[pos]) then Some(IdentCharsEnd(s, pos + 1)) else None
  }

  /** `\d+\.\d+`: the position of the dot and the end. */
  function MatchFloat(s: string, pos: nat): (r: Option<(nat, nat)>)
    requires pos < |s|
    ensures r.Some? ==> pos < r.value.0 < r.value.1 <= |s| && s[r.value.0] == '.'
    ensures r.Some? ==> forall m :: pos <= m < r.value.1 && m != r.value.0 ==> IsDigit(s[m])
  {
    var dot := DigitsEnd(s, pos);
    if dot > pos && dot + 1 < |s| && s[dot] == '.' && IsDigit(s[dot + 1])
    then Some((dot, DigitsEnd(s, dot + 1)))
    else None
  }

  /** `\d+` */
  function MatchNumber(s: string, pos: nat): (r: Option<nat>)
    requires pos < |s|
    ensures r.Some? ==> pos < r.value <= |s| && forall m :: pos <= m < r.value ==> IsDigit(s[m])
  {
    var e := DigitsEnd(s, pos);
    if e > pos then Some(e) else None
  }

  /** `"` then a string body. */
  function MatchString(s: string, pos: nat): (r: Option<nat>)
    requires pos < |s|
    ensures r.Some? ==> pos + 1 < r.value <= |s| && forall m :: pos <= m < r.value ==> s[m] != '\n'
  {
    if s[pos] == '"' then StringEnd(s, pos + 1) else None
  }

  /** `\n+` */
  function MatchNewlines(s: string, pos: nat): (r: Option<nat>)
    requires pos < |s|
    ensures r.Some? ==> pos < r.value <= |s| && forall m :: pos <= m < r.value ==> s[m] == '\n'
  {
    if s[pos] == '\n' then Some(NewlinesEnd(s, pos)) else None
  }

  /** `//.*`: the comment runs to the end of the line. */
  function MatchComment(s: string, pos: nat): (r: Option<nat>)
    requires pos < |s|
    ensures r.Some? ==> pos + 1 < r.value <= |s| && forall m :: pos <= m < r.value ==> s[m] != '\n'
  {
    if pos + 1 < |s| && s[pos] == '/' && s[pos + 1] == '/' then Some(LineEnd(s, pos + 2)) else None
  }

  /** The operator rules, the two-character patterns first. */
  function MatchOperator(s: string, pos: nat): (r: Option<(TokenType, nat)>)
    requires pos < |s|
    ensures r.Some? ==> pos < r.value.1 <= pos + 2 && r.value.1 <= |s|
    ensures r.Some? ==> forall m :: pos <= m < r.value.1 ==> s[m] != '\n'
  {
    if pos + 1 < |s| && TwoCharOperator(s[pos], s[pos + 1]).Some? then Some((TwoCharOperator(s[pos], s[pos + 1]).value, pos + 2))
    else if OneCharOperator(s[pos]).Some? then Some((OneCharOperator(s[pos]).value, pos + 1))
    else None
  }

  /** The first rule, in the order `t_ID`, `t_FLOAT_NUMBER`, `t_NUMBER`,
      `t_STRING_LITERAL`, `t_newline`, `t_comment`, then the operators, that
      matches at `pos`, together with what its action makes of the lexeme. */
  function MatchAt(s: string, pos: nat): (r: Option<Match>)
    requires pos < |s|
    ensures r.Some? ==> pos < r.value.end <= |s|
  {
    if MatchIdent(s, pos).Some? then
      var e := MatchIdent(s, pos).value;
      Some(Emit(WordToken(s[pos..e]), e))
    else if MatchFloat(s, pos).Some? then
      var (dot, e) := MatchFloat(s, pos).value;
      Some(Emit(Token(FLOAT_NUMBER, FloatVal(DecimalValue(s[pos..dot], s[dot + 1..e]))), e))
    else if MatchNumber(s, pos).Some? then
      var e := MatchNumber(s, pos).value;
      Some(Emit(Token(NUMBER, IntVal(DigitsValue(s[pos..e]))), e))
    else if MatchString(s, pos).Some? then
      var e := MatchString(s, pos).value;
      Some(Emit(Token(STRING_LITERAL, StrVal(s[pos + 1..e - 1])), e))
    else if MatchNewlines(s, pos).Some? then
      Some(Newlines(MatchNewlines(s, pos).value))
    else if MatchComment(s, pos).Some? then
      Some(Comment(MatchComment(s, pos).value))
    else if MatchOperator(s, pos).Some? then
      var (kind, e) := MatchOperator(s, pos).value;
      Some(Emit(Token(kind, StrVal(s[pos..e])), e))
    else None
  }

  // ---------------------------------------------------------------------------
  // The scanner as a value
  // ---------------------------------------------------------------------------

  /** The next token from `pos` on and the position after it. Ignored
      characters, newline runs and comments are passed over; a character no
      rule matches is skipped on its own. When the input is exhausted the
      result is no token, and the position moves one past where the scan stopped. */
  function ScanToken(s: string, pos: nat): (r: (Option<Token>, nat))
    ensures r.0.Some? ==> pos < r.1 <= |s|
    ensures r.0.None? ==> r.1 == (if pos < |s| then |s| else pos) + 1
    decreases |s| - pos
  {
    if pos >= |s| then (None, pos + 1)
    else if IsIgnored(s[pos]) then ScanToken(s, pos + 1)
    else match MatchAt(s, pos)
      case None => ScanToken(s, pos + 1)
      case Some(Emit(tok, e)) => (Some(tok), e)
      case Some(Newlines(e)) => ScanToken(s, e)
      case Some(Comment(e)) => ScanToken(s, e)
  }

  /** A blank, or a character no rule matches, is passed over on its own. */
  lemma ScanSkip(s: string, pos: nat)
    requires pos < |s| && (IsIgnored(s[pos]) || MatchAt(s, pos).None?)
    ensures ScanToken(s, pos) == ScanToken(s, pos + 1)
  {
  }

  /** A newline run or a comment is passed over as a whole. */
  lemma ScanPass(s: string, pos: nat)
    requires pos < |s| && !IsIgnored(s[pos]) && MatchAt(s, pos).Some? && !MatchAt(s, pos).value.Emit?
    ensures ScanToken(s, pos) == ScanToken(s, MatchAt(s, pos).value.end)
  {
  }

  /** A lexeme that makes a token, at a character that is not ignored, is the
      next token. */
  lemma ScanEmit(s: string, pos: nat)
    requires pos < |s| && !IsIgnored(s[pos]) && MatchAt(s, pos).Some? && MatchAt(s, pos).value.Emit?
    ensures ScanToken(s, pos) == (Some(MatchAt(s, pos).value.tok), MatchAt(s, pos).value.end)
  {
  }

  /** Past the end of the input there is no token. */
  lemma ScanEnd(s: string, pos: nat)
    requires pos >= |s|
    ensures ScanToken(s, pos) == (None, pos + 1)
  {
  }

  /** All the tokens from `pos` to the end of the input, in order. */
  function TokensFrom(s: string, pos: nat): (r: seq<Token>)
    ensures |r| <= if pos <= |s| then |s| - pos else 0
    decreases |s| - pos
  {
    var (tok, next) := ScanToken(s, pos);
    if tok.None? then [] else [tok.value] + TokensFrom(s, next)
  }

  /** The tokens of a whole input. */
  function Tokens(s: string): (r: seq<Token>)
    ensures |r| <= |s|
    ensures AllWellFormed(r)
  {
    TokensWellFormed(s, 0);
    TokensFrom(s, 0)
  }

  /** The number of newlines at the positions from `i` up to, not including,
      `j`; positions past the end of `s` hold none. */
  function NewlinesIn(s: string, i: nat, j: nat): nat
    decreases j
  {
    if j <= i then 0 else NewlinesIn(s, i, j - 1) + (if j - 1 < |s| && s[j - 1] == '\n' then 1 else 0)
  }

  lemma {:induction false} NewlinesInSplit(s: string, i: nat, j: nat, k: nat)
    requires i <= j <= k
    ensures NewlinesIn(s, i, k) == NewlinesIn(s, i, j) + NewlinesIn(s, j, k)
    decreases k
  {
    if j < k {
      NewlinesInSplit(s, i, j, k - 1);
    }
  }

  lemma {:induction false} NewlinesInNone(s: string, i: nat, j: nat)
    requires i <= j <= |s|
    requires forall m :: i <= m < j ==> s[m] != '\n'
    ensures NewlinesIn(s, i, j) == 0
    decreases j
  {
    if i < j {
      NewlinesInNone(s, i, j - 1);
    }
  }

  lemma {:induction false} NewlinesInAll(s: string, i: nat, j: nat)
    requires i <= j <= |s|
    requires forall m :: i <= m < j ==> s[m] == '\n'
    ensures NewlinesIn(s, i, j) == j - i
    decreases j
  {
    if i < j {
      NewlinesInAll(s, i, j - 1);
    }
  }

  /** Only `t_newline` consumes newlines: every other lexeme is free of them. */
  lemma MatchNewlineChars(s: string, pos: nat)
    requires pos < |s| && MatchAt(s, pos).Some?
    ensures MatchAt(s, pos).value.Newlines? ==> forall m :: pos <= m < MatchAt(s, pos).value.end ==> s[m] == '\n'
    ensures !MatchAt(s, pos).value.Newlines? ==> forall m :: pos <= m < MatchAt(s, pos).value.end ==> s[m] != '\n'
  {
  }

  /** A lexeme that makes a token or a comment never holds a newline, so
      counting the lexemes of `t_newline` counts every newline passed over. */
  lemma MatchLines(s: string, pos: nat)
    requires pos < |s| && MatchAt(s, pos).Some?
    ensures MatchAt(s, pos).value.Newlines? ==> NewlinesIn(s, pos, MatchAt(s, pos).value.end) == MatchAt(s, pos).value.end - pos
    ensures !MatchAt(s, pos).value.Newlines? ==> NewlinesIn(s, pos, MatchAt(s, pos).value.end) == 0
  {
    var e := MatchAt(s, pos).value.end;
    MatchNewlineChars(s, pos);
    if MatchAt(s, pos).value.Newlines? {
      NewlinesInAll(s, pos, e);
    } else {
      NewlinesInNone(s, pos, e);
    }
  }

  /** A character passed over without a match, or past the end, is not a
      newline. */
  lemma SkipLines(s: string, start: nat, pos: nat)
    requires start <= pos
    requires pos < |s| ==> IsIgnored(s[pos]) || MatchAt(s, pos).None?
    ensures NewlinesIn(s, start, pos + 1) == NewlinesIn(s, start, pos)
  {
    NewlineMatches(s, pos);
  }

  /** A newline is always matched by the newline rule. */
  lemma NewlineMatches(s: string, pos: nat)
    ensures pos < |s| && s[pos] == '\n' ==> MatchAt(s, pos).Some?
  {
  }

  /** The newlines counted from `start` grow by the length of a `t_newline`
      lexeme and stay put over any other lexeme. */
  lemma MatchLinesFrom(s: string, start: nat, pos: nat)
    requires start <= pos < |s| && MatchAt(s, pos).Some?
    ensures NewlinesIn(s, start, MatchAt(s, pos).value.end) ==
      NewlinesIn(s, start, pos) + (if MatchAt(s, pos).value.Newlines? then MatchAt(s, pos).value.end - pos else 0)
  {
    MatchLines(s, pos);
    NewlinesInSplit(s, start, pos, MatchAt(s, pos).value.end);
  }

  // ---------------------------------------------------------------------------
  // Properties of the rules
  // ---------------------------------------------------------------------------

  /** An identifier-shaped word. */
  predicate IsWord(w: string)
  {
    |w| > 0 && IsIdentStart(w[0]) && forall k :: 1 <= k < |w| ==> IsIdentChar(w[k])
  }

  /** The word rule makes a reserved word its keyword token and any other word
      an `ID`; either way the value is the word itself. */
  lemma WordTokenKinds(w: string)
    ensures WordToken(w).value == StrVal(w)
    ensures WordToken(w).kind == ID <==> w !in Reserved
    ensures w in Reserved ==> WordToken(w).kind in Keywords
  {
  }

  lemma {:induction false} IdentCharsEndAt(s: string, k: nat, e: nat)
    requires k <= e <= |s| && forall m :: k <= m < e ==> IsIdentChar(s[m])
    requires e == |s| || !IsIdentChar(s[e])
    ensures IdentCharsEnd(s, k) == e
    decreases e - k
  {
    if k < e {
      IdentCharsEndAt(s, k + 1, e);
    }
  }

  lemma {:induction false} DigitsEndAt(s: string, k: nat, e: nat)
    requires k <= e <= |s| && forall m :: k <= m < e ==> IsDigit(s[m])
    requires e == |s| || !IsDigit(s[e])
    ensures DigitsEnd(s, k) == e
    decreases e - k
  {
    if k < e {
      DigitsEndAt(s, k + 1, e);
    }
  }

  /** The whole word is one lexeme: the rule takes the longest run, so a
      keyword followed by more identifier characters is an `ID`. */
  lemma ScanWord(s: string, pos: nat, w: string)
    requires IsWord(w) && pos + |w| <= |s| && s[pos..pos + |w|] == w
    requires pos + |w| == |s| || !IsIdentChar(s[pos + |w|])
    ensures ScanToken(s, pos) == (Some(WordToken(w)), pos + |w|)
  {
    assert s[pos] == w[0];
    forall m | pos + 1 <= m < pos + |w| ensures IsIdentChar(s[m]) {
      assert s[m] == w[m - pos];
    }
    IdentCharsEndAt(s, pos + 1, pos + |w|);
  }

  lemma FloatLexeme(s: string, pos: nat, whole: string, frac: string)
    requires pos + |whole| + 1 + |frac| <= |s| && s[pos..pos + |whole| + 1 + |frac|] == whole + "." + frac
    ensures s[pos..pos + |whole|] == whole && s[pos + |whole|] == '.'
    ensures s[pos + |whole| + 1..pos + |whole| + 1 + |frac|] == frac
  {
    var lexeme := s[pos..pos + |whole| + 1 + |frac|];
    assert s[pos..pos + |whole|] == lexeme[..|whole|];
    assert (whole + "." + frac)[..|whole|] == whole;
    assert s[pos + |whole|] == lexeme[|whole|];
    assert s[pos + |whole| + 1..pos + |whole| + 1 + |frac|] == lexeme[|whole| + 1..];
    assert (whole + "." + frac)[|whole| + 1..] == frac;
  }

  /** `digits.digits` is one `FLOAT_NUMBER`, its value the decimal it spells. */
  lemma ScanFloat(s: string, pos: nat, whole: string, frac: string)
    requires |whole| > 0 && |frac| > 0 && AllDigits(whole) && AllDigits(frac)
    requires pos + |whole| + 1 + |frac| <= |s| && s[pos..pos + |whole| + 1 + |frac|] == whole + "." + frac
    requires pos + |whole| + 1 + |frac| == |s| || !IsDigit(s[pos + |whole| + 1 + |frac|])
    ensures ScanToken(s, pos) == (Some(Token(FLOAT_NUMBER, FloatVal(DecimalValue(whole, frac)))), pos + |whole| + 1 + |frac|)
  {
    var dot, e := pos + |whole|, pos + |whole| + 1 + |frac|;
    FloatLexeme(s, pos, whole, frac);
    forall m | pos <= m < dot ensures IsDigit(s[m]) {
      assert s[m] == s[pos..dot][m - pos];
    }
    forall m | dot + 1 <= m < e ensures IsDigit(s[m]) {
      assert s[m] == s[dot + 1..e][m - dot - 1];
    }
    DigitsEndAt(s, pos, dot);
    DigitsEndAt(s, dot + 1, e);
    assert MatchFloat(s, pos) == Some((dot, e));
    ScanEmit(s, pos);
  }

  /** Digits not followed by a dot and a digit are one `NUMBER` holding their
      value. */
  lemma ScanNumber(s: string, pos: nat, digits: string)
    requires |digits| > 0 && AllDigits(digits) && pos + |digits| <= |s| && s[pos..pos + |digits|] == digits
    requires pos + |digits| == |s| || !IsDigit(s[pos + |digits|])
    requires !(pos + |digits| + 1 < |s| && s[pos + |digits|] == '.' && IsDigit(s[pos + |digits| + 1]))
    ensures ScanToken(s, pos) == (Some(Token(NUMBER, IntVal(DigitsValue(digits)))), pos + |digits|)
  {
    assert s[pos] == digits[0];
    forall m | pos <= m < pos + |digits| ensures IsDigit(s[m]) {
      assert s[m] == digits[m - pos];
    }
    DigitsEndAt(s, pos, pos + |digits|);
  }

  /** A string body without quotes, backslashes or newlines. */
  predicate PlainStringBody(b: string)
  {
    forall k :: 0 <= k < |b| ==> b[k] != '"' && b[k] != '\\' && b[k] != '\n'
  }

  lemma {:induction false} StringEndAt(s: string, k: nat, e: nat)
    requires k <= e < |s| && s[e] == '"'
    requires forall m :: k <= m < e ==> s[m] != '"' && s[m] != '\\' && s[m] != '\n'
    ensures StringEnd(s, k) == Some(e + 1)
    decreases e - k
  {
    if k < e {
      StringEndAt(s, k + 1, e);
    }
  }

  lemma StringLexeme(s: string, pos: nat, body: string)
    requires pos + |body| + 2 <= |s| && s[pos..pos + |body| + 2] == "\"" + body + "\""
    ensures s[pos] == '"' && s[pos + |body| + 1] == '"' && s[pos + 1..pos + |body| + 1] == body
  {
    var lexeme := s[pos..pos + |body| + 2];
    assert s[pos] == lexeme[0];
    assert s[pos + |body| + 1] == lexeme[|body| + 1];
    assert s[pos + 1..pos + |body| + 1] == lexeme[1..][..|body|];
    assert ("\"" + body + "\"")[1..|body| + 1] == body;
  }

  /** A quoted plain body is one `STRING_LITERAL` whose value is the lexeme
      without its quotes. */
  lemma ScanString(s: string, pos: nat, body: string)
    requires PlainStringBody(body) && pos + |body| + 2 <= |s| && s[pos..pos + |body| + 2] == "\"" + body + "\""
    ensures ScanToken(s, pos) == (Some(Token(STRING_LITERAL, StrVal(body))), pos + |body| + 2)
  {
    var e := pos + |body| + 2;
    StringLexeme(s, pos, body);
    forall m | pos + 1 <= m < e - 1 ensures s[m] != '"' && s[m] != '\\' && s[m] != '\n' {
      assert s[m] == s[pos + 1..e - 1][m - pos - 1];
    }
    StringEndAt(s, pos + 1, e - 1);
    assert MatchString(s, pos) == Some(e);
    ScanEmit(s, pos);
  }

  /** `==`, `!=`, `<=` and `>=` are single tokens, never `=`, `!`, `<` or `>`
      followed by another token. */
  lemma ScanTwoCharOperator(s: string, pos: nat)
    requires pos + 1 < |s| && TwoCharOperator(s[pos], s[pos + 1]).Some?
    ensures ScanToken(s, pos) == (Some(Token(TwoCharOperator(s[pos], s[pos + 1]).value, StrVal([s[pos], s[pos + 1]]))), pos + 2)
  {
    assert s[pos..pos + 2] == [s[pos], s[pos + 1]];
  }

  /** A one-character operator not starting a two-character one or a comment
      is a token of its own. */
  lemma ScanOneCharOperator(s: string, pos: nat)
    requires pos < |s| && OneCharOperator(s[pos]).Some?
    requires !(pos + 1 < |s| && TwoCharOperator(s[pos], s[pos + 1]).Some?)
    requires !(pos + 1 < |s| && s[pos] == '/' && s[pos + 1] == '/')
    ensures ScanToken(s, pos) == (Some(Token(OneCharOperator(s[pos]).value, StrVal([s[pos]]))), pos + 1)
  {
    assert MatchIdent(s, pos).None? && MatchFloat(s, pos).None? && MatchNumber(s, pos).None?;
    assert MatchString(s, pos).None? && MatchNewlines(s, pos).None? && MatchComment(s, pos).None?;
    assert MatchOperator(s, pos) == Some((OneCharOperator(s[pos]).value, pos + 1));
    assert s[pos..pos + 1] == [s[pos]];
    ScanEmit(s, pos);
  }

  /** The characters no rule matches, described on their own: not blank, not a
      newline, not the start of a word, number or operator, and either not a
      quote or a quote whose literal never closes on its line. */
  predicate IsIllegalAt(s: string, pos: nat)
    requires pos < |s|
  {
    var c := s[pos];
    && !IsIdentStart(c) && !IsDigit(c) && c != '\n' && OneCharOperator(c).None?
    && !(c == '!' && pos + 1 < |s| && s[pos + 1] == '=')
    && (c == '"' ==> StringEnd(s, pos + 1).None?)
  }

  /** `t_error` is reached exactly at illegal characters, and skips just the one. */
  lemma IllegalSkipped(s: string, pos: nat)
    requires pos < |s| && !IsIgnored(s[pos])
    ensures MatchAt(s, pos).None? <==> IsIllegalAt(s, pos)
    ensures IsIllegalAt(s, pos) ==> ScanToken(s, pos) == ScanToken(s, pos + 1)
  {
  }

  /** Blanks, newline runs and comments make no token: scanning from one goes
      on from the position after it. */
  lemma SkippedMakeNoToken(s: string, pos: nat)
    requires pos < |s|
    ensures IsIgnored(s[pos]) ==> ScanToken(s, pos) == ScanToken(s, pos + 1)
    ensures s[pos] == '\n' ==> ScanToken(s, pos) == ScanToken(s, NewlinesEnd(s, pos))
    ensures pos + 1 < |s| && s[pos] == '/' && s[pos + 1] == '/' ==> ScanToken(s, pos) == ScanToken(s, LineEnd(s, pos + 2))
  {
    if IsIgnored(s[pos]) {
      ScanSkip(s, pos);
    } else if s[pos] == '\n' {
      assert MatchAt(s, pos) == Some(Newlines(NewlinesEnd(s, pos)));
      ScanPass(s, pos);
    } else if pos + 1 < |s| && s[pos] == '/' && s[pos + 1] == '/' {
      assert MatchAt(s, pos) == Some(Comment(LineEnd(s, pos + 2)));
      ScanPass(s, pos);
    }
  }

  // ---------------------------------------------------------------------------
  // Tokens lexed back from their spelling
  // ---------------------------------------------------------------------------

  /** The fixed text of a keyword or operator token type. */
  function FixedSpelling(k: TokenType): (w: string)
    requires k !in {ID, NUMBER, FLOAT_NUMBER, STRING_LITERAL}
  {
    match k
    case INT => "int"
    case FLOAT => "float"
    case STRING => "string"
    case BOOL => "bool"
    case IF => "if"
    case ELSE => "else"
    case WHILE => "while"
    case FOR => "for"
    case RETURN => "return"
    case PLUS => "+"
    case MINUS => "-"
    case TIMES => "*"
    case DIVIDE => "/"
    case MODULO => "%"
    case LPAREN => "("
    case RPAREN => ")"
    case LBRACE => "{"
    case RBRACE => "}"
    case SEMICOLON => ";"
    case COMMA => ","
    case ASSIGN => "="
    case EQ => "=="
    case NE => "!="
    case LT => "<"
    case LE => "<="
    case GT => ">"
    case GE => ">="
  }

  /** The text a token is lexed from, when it has one: a non-reserved word for
      an `ID`, the decimal digits of a `NUMBER`, a quoted plain body for a
      `STRING_LITERAL`, the fixed text of a keyword or operator. A
      `FLOAT_NUMBER` has no spelling here, nor has a token whose value does not
      fit its type. */
  function Spelling(t: Token): Option<string>
  {
    if t.kind == ID then
      if t.value.StrVal? && IsWord(t.value.s) && t.value.s !in Reserved then Some(t.value.s) else None
    else if t.kind == NUMBER then
      if t.value.IntVal? && t.value.i >= 0 then Some(NatToDecimal(t.value.i)) else None
    else if t.kind == STRING_LITERAL then
      if t.value.StrVal? && PlainStringBody(t.value.s) then Some("\"" + t.value.s + "\"") else None
    else if t.kind == FLOAT_NUMBER then None
    else if t.value == StrVal(FixedSpelling(t.kind)) then Some(FixedSpelling(t.kind))
    else None
  }

  /** The keywords are words that the reserved table maps back to their type. */
  lemma KeywordSpelling(k: TokenType)
    requires k in Keywords
    ensures IsWord(FixedSpelling(k)) && WordToken(FixedSpelling(k)) == Token(k, StrVal(FixedSpelling(k)))
  {
    var w := FixedSpelling(k);
    assert w in Reserved && Reserved[w] == k;
    assert IsIdentStart(w[0]);
  }

  /** The spelling of `t` stands at `pos` in `s`, and a blank follows it. */
  predicate SpelledAt(s: string, pos: nat, t: Token)
  {
    && Spelling(t).Some? && pos + |Spelling(t).value| < |s|
    && s[pos..pos + |Spelling(t).value|] == Spelling(t).value && s[pos + |Spelling(t).value|] == ' '
  }

  /** A token is scanned back from its spelling when a blank follows it. */
  lemma ScanSpelling(s: string, pos: nat, t: Token)
    requires SpelledAt(s, pos, t)
    ensures ScanToken(s, pos) == (Some(t), pos + |Spelling(t).value|)
  {
    if t.kind == ID {
      ScanWordSpelling(s, pos, t);
    } else if t.kind == NUMBER {
      ScanNumberSpelling(s, pos, t);
    } else if t.kind == STRING_LITERAL {
      ScanStringSpelling(s, pos, t);
    } else {
      ScanFixedSpelling(s, pos, t);
    }
  }

  lemma ScanWordSpelling(s: string, pos: nat, t: Token)
    requires SpelledAt(s, pos, t) && t.kind == ID
    ensures ScanToken(s, pos) == (Some(t), pos + |Spelling(t).value|)
  {
    ScanWord(s, pos, t.value.s);
  }

  lemma ScanNumberSpelling(s: string, pos: nat, t: Token)
    requires SpelledAt(s, pos, t) && t.kind == NUMBER
    ensures ScanToken(s, pos) == (Some(t), pos + |Spelling(t).value|)
  {
    DigitsValueOfDecimal(t.value.i);
    ScanNumber(s, pos, NatToDecimal(t.value.i));
  }

  lemma ScanStringSpelling(s: string, pos: nat, t: Token)
    requires SpelledAt(s, pos, t) && t.kind == STRING_LITERAL
    ensures ScanToken(s, pos) == (Some(t), pos + |Spelling(t).value|)
  {
    ScanString(s, pos, t.value.s);
  }

  lemma ScanFixedSpelling(s: string, pos: nat, t: Token)
    requires SpelledAt(s, pos, t) && t.kind !in {ID, NUMBER, STRING_LITERAL}
    ensures ScanToken(s, pos) == (Some(t), pos + |Spelling(t).value|)
  {
    assert Spelling(t) == Some(FixedSpelling(t.kind)) && t == Token(t.kind, StrVal(FixedSpelling(t.kind)));
    if t.kind in Keywords {
      ScanKeyword(s, pos, t.kind);
    } else {
      ScanOperator(s, pos, t.kind);
    }
  }

  /** The token types of the reserved words. */
  const Keywords: set<TokenType> := {INT, FLOAT, STRING, BOOL, IF, ELSE, WHILE, FOR, RETURN}

  /** A keyword's text followed by a blank scans as that keyword. */
  lemma ScanKeyword(s: string, pos: nat, k: TokenType)
    requires k in Keywords
    requires pos + |FixedSpelling(k)| < |s| && s[pos..pos + |FixedSpelling(k)|] == FixedSpelling(k)
    requires s[pos + |FixedSpelling(k)|] == ' '
    ensures ScanToken(s, pos) == (Some(Token(k, StrVal(FixedSpelling(k)))), pos + |FixedSpelling(k)|)
  {
    KeywordSpelling(k);
    ScanWord(s, pos, FixedSpelling(k));
  }

  /** The text of each operator is what the operator tables match. */
  lemma OperatorSpelling(k: TokenType)
    requires k !in Keywords && k !in {ID, NUMBER, FLOAT_NUMBER, STRING_LITERAL}
    ensures |FixedSpelling(k)| == 1 ==> OneCharOperator(FixedSpelling(k)[0]) == Some(k)
    ensures |FixedSpelling(k)| == 2 ==> TwoCharOperator(FixedSpelling(k)[0], FixedSpelling(k)[1]) == Some(k)
    ensures |FixedSpelling(k)| == 1 || |FixedSpelling(k)| == 2
  {
  }

  /** An operator's text followed by a blank scans as that operator. */
  lemma ScanOperator(s: string, pos: nat, k: TokenType)
    requires k !in Keywords && k !in {ID, NUMBER, FLOAT_NUMBER, STRING_LITERAL}
    requires pos + |FixedSpelling(k)| < |s| && s[pos..pos + |FixedSpelling(k)|] == FixedSpelling(k)
    requires s[pos + |FixedSpelling(k)|] == ' '
    ensures ScanToken(s, pos) == (Some(Token(k, StrVal(FixedSpelling(k)))), pos + |FixedSpelling(k)|)
  {
    var w := FixedSpelling(k);
    OperatorSpelling(k);
    assert s[pos] == w[0];
    if |w| == 2 {
      assert s[pos + 1] == w[1];
      assert w == [s[pos], s[pos + 1]];
      ScanTwoCharOperator(s, pos);
    } else {
      assert w == [s[pos]];
      ScanOneCharOperator(s, pos);
    }
  }

  /** Every token of `ts` has a spelling. */
  predicate Spellable(ts: seq<Token>)
  {
    ts == [] || (Spelling(ts[0]).Some? && Spellable(ts[1..]))
  }

  /** The spellings of tokens, each followed by a blank. */
  function Render(ts: seq<Token>): string
    requires Spellable(ts)
  {
    if ts == [] then "" else Spelling(ts[0]).value + " " + Render(ts[1..])
  }

  /** Lexing a rendering gives the tokens back. */
  lemma LexRender(ts: seq<Token>)
    requires Spellable(ts)
    ensures Tokens(Render(ts)) == ts
  {
    var s := Render(ts);
    RenderedFrom(ts, s, 0);
    LexRenderedAt(ts, s, 0);
  }

  /** A rendering starts with the first token's spelling and a blank, and the
      rest of the tokens' rendering comes after that blank. */
  lemma RenderHead(ts: seq<Token>, s: string, pos: nat)
    requires Spellable(ts) && ts != []
    requires pos <= |s| && s[pos..] == Render(ts)
    ensures SpelledAt(s, pos, ts[0])
    ensures Spellable(ts[1..]) && s[pos + |Spelling(ts[0]).value| + 1..] == Render(ts[1..])
  {
    var w := Spelling(ts[0]).value;
    var next := pos + |w|;
    assert s[pos..] == w + " " + Render(ts[1..]);
    assert s[pos..next] == s[pos..][..|w|];
    assert s[next] == s[pos..][|w|];
    assert s[next + 1..] == s[pos..][|w| + 1..];
  }

  /** The tokens of `ts` are spelled one after the other from `pos`, each
      followed by a blank, up to the end of `s`. */
  predicate SpelledFrom(s: string, pos: nat, ts: seq<Token>)
    decreases ts
  {
    if ts == [] then pos == |s|
    else SpelledAt(s, pos, ts[0]) && SpelledFrom(s, pos + |Spelling(ts[0]).value| + 1, ts[1..])
  }

  lemma {:induction false} RenderedFrom(ts: seq<Token>, s: string, pos: nat)
    requires Spellable(ts)
    requires pos <= |s| && s[pos..] == Render(ts)
    ensures SpelledFrom(s, pos, ts)
    decreases ts
  {
    if ts == [] {
      assert |s[pos..]| == 0;
    } else {
      var next: nat := pos + |Spelling(ts[0]).value| + 1;
      RenderHead(ts, s, pos);
      RenderedFrom(ts[1..], s, next);
      SpelledFromCons(s, pos, ts, next);
    }
  }

  lemma SpelledFromCons(s: string, pos: nat, ts: seq<Token>, next: nat)
    requires ts != [] && SpelledAt(s, pos, ts[0]) && next == pos + |Spelling(ts[0]).value| + 1
    requires SpelledFrom(s, next, ts[1..])
    ensures SpelledFrom(s, pos, ts)
  {
  }

  /** The tokens from a position are the next token, then the tokens after it. */
  lemma TokensFromFirst(s: string, pos: nat, t: Token, next: nat)
    requires ScanToken(s, pos) == (Some(t), next)
    ensures TokensFrom(s, pos) == [t] + TokensFrom(s, next)
  {
  }

  /** A blank adds nothing to the tokens. */
  lemma TokensFromBlank(s: string, pos: nat)
    requires pos < |s| && IsIgnored(s[pos])
    ensures TokensFrom(s, pos) == TokensFrom(s, pos + 1)
  {
    assert ScanToken(s, pos) == ScanToken(s, pos + 1);
  }

  /** There are no tokens at the end of the input. */
  lemma TokensFromEnd(s: string)
    ensures TokensFrom(s, |s|) == []
  {
  }

  /** A spelled token, then its blank, starts the tokens from its position. */
  lemma TokensFromSpelled(s: string, pos: nat, t: Token, next: nat, rest: seq<Token>)
    requires SpelledAt(s, pos, t) && next == pos + |Spelling(t).value| && TokensFrom(s, next + 1) == rest
    ensures TokensFrom(s, pos) == [t] + rest
  {
    assert next < |s| && IsIgnored(s[next]);
    ScanSpelling(s, pos, t);
    TokensFromScanned(s, pos, t, next, rest);
  }

  lemma TokensFromScanned(s: string, pos: nat, t: Token, next: nat, rest: seq<Token>)
    requires ScanToken(s, pos) == (Some(t), next) && next < |s| && IsIgnored(s[next]) && TokensFrom(s, next + 1) == rest
    ensures TokensFrom(s, pos) == [t] + rest
  {
    TokensFromFirst(s, pos, t, next);
    TokensFromBlank(s, next);
  }

  lemma {:induction false} LexRenderedAt(ts: seq<Token>, s: string, pos: nat)
    requires SpelledFrom(s, pos, ts)
    ensures TokensFrom(s, pos) == ts
    decreases ts
  {
    if ts == [] {
      TokensFromEnd(s);
    } else {
      var next: nat := pos + |Spelling(ts[0]).value|;
      LexRenderedAt(ts[1..], s, next + 1);
      TokensFromSpelled(s, pos, ts[0], next, ts[1..]);
      assert ts == [ts[0]] + ts[1..];
    }
  }

  // ---------------------------------------------------------------------------
  // The values the rules give their tokens
  // ---------------------------------------------------------------------------

  /** A token whose value has the form its type calls for: a string for an
      `ID` or a `STRING_LITERAL`, a non-negative int for a `NUMBER`, a
      non-negative real for a `FLOAT_NUMBER`, and for a keyword or an operator
      its fixed text. */
  predicate WellFormed(t: Token)
  {
    if t.kind == ID || t.kind == STRING_LITERAL then t.value.StrVal?
    else if t.kind == NUMBER then t.value.IntVal? && t.value.i >= 0
    else if t.kind == FLOAT_NUMBER then t.value.FloatVal? && t.value.r >= 0.0
    else t.value == StrVal(FixedSpelling(t.kind))
  }

  predicate AllWellFormed(ts: seq<Token>)
  {
    forall k :: 0 <= k < |ts| ==> WellFormed(ts[k])
  }

  /** A reserved word is the fixed text of the keyword it maps to. */
  lemma ReservedSpelling(w: string)
    requires w in Reserved
    ensures Reserved[w] in Keywords && FixedSpelling(Reserved[w]) == w
  {
  }

  /** An operator's token type has the operator's characters as its fixed text. */
  lemma TwoCharSpelling(a: char, b: char)
    requires TwoCharOperator(a, b).Some?
    ensures TwoCharOperator(a, b).value !in {ID, NUMBER, FLOAT_NUMBER, STRING_LITERAL}
    ensures FixedSpelling(TwoCharOperator(a, b).value) == [a, b]
  {
  }

  lemma OneCharSpelling(c: char)
    requires OneCharOperator(c).Some?
    ensures OneCharOperator(c).value !in {ID, NUMBER, FLOAT_NUMBER, STRING_LITERAL}
    ensures FixedSpelling(OneCharOperator(c).value) == [c]
  {
  }

  /** Every token a rule makes is well formed. */
  lemma MatchAtWellFormed(s: string, pos: nat)
    requires pos < |s| && MatchAt(s, pos).Some? && MatchAt(s, pos).value.Emit?
    ensures WellFormed(MatchAt(s, pos).value.tok)
  {
    if MatchIdent(s, pos).Some? {
      var w := s[pos..MatchIdent(s, pos).value];
      if w in Reserved {
        ReservedSpelling(w);
      }
    } else if MatchFloat(s, pos).None? && MatchNumber(s, pos).None? && MatchString(s, pos).None?
      && MatchNewlines(s, pos).None? && MatchComment(s, pos).None? {
      var (kind, e) := MatchOperator(s, pos).value;
      if e == pos + 2 {
        TwoCharSpelling(s[pos], s[pos + 1]);
        assert s[pos..e] == [s[pos], s[pos + 1]];
      } else {
        OneCharSpelling(s[pos]);
        assert s[pos..e] == [s[pos]];
      }
    }
  }

  /** The next token, when there is one, is well formed. */
  lemma {:induction false} ScanTokenWellFormed(s: string, pos: nat)
    ensures ScanToken(s, pos).0.Some? ==> WellFormed(ScanToken(s, pos).0.value)
    decreases |s| - pos
  {
    if pos < |s| {
      if IsIgnored(s[pos]) || MatchAt(s, pos).None? {
        ScanSkip(s, pos);
        ScanTokenWellFormed(s, pos + 1);
      } else if !MatchAt(s, pos).value.Emit? {
        ScanPass(s, pos);
        ScanTokenWellFormed(s, MatchAt(s, pos).value.end);
      } else {
        ScanEmit(s, pos);
        MatchAtWellFormed(s, pos);
      }
    }
  }

  /** Every token the lexer returns is well formed. */
  lemma {:induction false} TokensWellFormed(s: string, pos: nat)
    ensures AllWellFormed(TokensFrom(s, pos))
    decreases |s| - pos
  {
    var (tok, next) := ScanToken(s, pos);
    if tok.Some? {
      ScanTokenWellFormed(s, pos);
      TokensWellFormed(s, next);
      TokensFromFirst(s, pos, tok.value, next);
    }
  }

  // ---------------------------------------------------------------------------
  // The lexer object
  // ---------------------------------------------------------------------------

  /** The lexer's state: the text being scanned, the scan position and the
      line counter that `t_newline` advances. */
  class Lexer {
    var lexdata: string
    var lexpos: nat
    var lineno: nat

    constructor()
      ensures lexdata == "" && lexpos == 0 && lineno == 1
    {
      lexdata := "";
      lexpos := 0;
      lineno := 1;
    }

    /** `input`: scan a new text from its start; the line counter carries on. */
    method Input(data: string)
      modifies this
      ensures lexdata == data && lexpos == 0 && lineno == old(lineno)
    {
      lexdata := data;
      lexpos := 0;
    }

    /** `token`: the next token, or none once the text is exhausted. The line
        counter grows by the newlines passed over. */
    method NextToken() returns (tok: Option<Token>)
      modifies this
      ensures lexdata == old(lexdata)
      ensures (tok, lexpos) == ScanToken(lexdata, old(lexpos))
      ensures lineno == old(lineno) + NewlinesIn(lexdata, old(lexpos), lexpos)
    {
      // `t_newline` adds to the line counter as it goes; the count is kept in
      // `lines` and stored when the call returns, which no caller can tell apart.
      var s, pos, lines := lexdata, lexpos, 0;
      tok := None;
      while pos < |s| && tok.None?
        invariant old(lexpos) <= pos
        invariant tok.None? ==> ScanToken(s, pos) == ScanToken(s, old(lexpos))
        invariant tok.Some? ==> (tok, pos) == ScanToken(s, old(lexpos))
        invariant lines == NewlinesIn(s, old(lexpos), pos)
        modifies {}
        decreases |s| - pos, if tok.None? then 1 else 0
      {
        if IsIgnored(s[pos]) {
          ScanSkip(s, pos);
          SkipLines(s, old(lexpos), pos);
          pos := pos + 1;
          continue;
        }
        var m := MatchAt(s, pos);
        if m.None? {
          // t_error: report the character and skip it
          ScanSkip(s, pos);
          SkipLines(s, old(lexpos), pos);
          pos := pos + 1;
          continue;
        }
        MatchLinesFrom(s, old(lexpos), pos);
        match m.value {
          case Emit(t, e) =>
            ScanEmit(s, pos);
            tok, pos := Some(t), e;
          case Newlines(e) =>
            ScanPass(s, pos);
            lines, pos := lines + (e - pos), e;
          case Comment(e) =>
            ScanPass(s, pos);
            pos := e;
        }
      }
      if tok.None? {
        ScanEnd(s, pos);
        SkipLines(s, old(lexpos), pos);
        pos := pos + 1;
      }
      lexpos, lineno := pos, lineno + lines;
    }
  }

  /** `tokenize_code`: feed the text to the lexer and collect every token up
      to exhaustion. */
  method TokenizeCode(lexer: Lexer, code: string) returns (tokens: seq<Token>)
    modifies lexer
    ensures tokens == Tokens(code)
    ensures lexer.lexdata == code && lexer.lineno == old(lexer.lineno) + NewlinesIn(code, 0, |code|)
  {
    lexer.Input(code);
    tokens := [];
    while true
      invariant lexer.lexdata == code && lexer.lexpos <= |code|
      invariant tokens + TokensFrom(code, lexer.lexpos) == Tokens(code)
      invariant lexer.lineno == old(lexer.lineno) + NewlinesIn(code, 0, lexer.lexpos)
      decreases |code| - lexer.lexpos
    {
      ghost var before := lexer.lexpos;
      var tok := lexer.NextToken();
      if tok.None? {
        NewlinesInSplit(code, 0, before, lexer.lexpos);
        NewlinesInSplit(code, 0, |code|, lexer.lexpos);
        assert TokensFrom(code, before) == [];
        break;
      }
      NewlinesInSplit(code, 0, before, lexer.lexpos);
      assert TokensFrom(code, before) == [tok.value] + TokensFrom(code, lexer.lexpos);
      tokens := tokens + [tok.value];
    }
  }
}
