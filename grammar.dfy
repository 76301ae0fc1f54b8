/** The recursive-descent parser of kaliedoscope.cpp as mutually recursive functions.
    Each function takes the parser state on entry (the scanner and the current token
    `CurTok`) and returns its result together with the state on exit. */
module Grammar {
  import opened Ast
  import opened Lexer

  /** The scanner state and the one-token buffer `CurTok`. */
  datatype PState = PState(lex: LexState, cur: Token)

  /** A parse result and the parser state it leaves. */
  datatype Step<T> = Step(res: Result<T>, next: PState)

  /** The parser before the first token is read: `CurTok` is a zero-initialised static. */
  const Start: PState := PState(Lexer.Initial, TokChar('\0'))

  /** BinopPrecedence as `main` fills it; 1 is the lowest precedence. */
  const BinopPrecedence: map<char, int> := map['<' := 10, '+' := 20, '-' := 20, '*' := 40]

  predicate Valid(input: seq<char>, ps: PState) {
    Lexer.Valid(input, ps.lex)
  }

  /** What is left to parse: the pending text, plus one for a current token other than EOF.
      Consuming a token other than EOF makes it smaller; consuming EOF leaves it as it is. */
  function Measure(input: seq<char>, ps: PState): nat
    requires Valid(input, ps)
  {
    Remaining(input, ps.lex) + (if ps.cur == TokEof then 0 else 1)
  }

  /** getNextToken: the next token from the scanner becomes the current token. */
  function GetNextToken(input: seq<char>, ps: PState): (r: PState)
    requires Valid(input, ps)
    ensures Valid(input, r)
    ensures Measure(input, r) <= Measure(input, ps)
    ensures ps.cur != TokEof ==> Measure(input, r) < Measure(input, ps)
  {
    var l := GetTok(input, ps.lex);
    PState(l.next, l.tok)
  }

  predicate IsAscii(c: char) { c as int < 128 }

  /** GetTokPrecedence: -1 for the keyword, identifier, number and EOF codes (which are
      negative, so not ASCII) and for a character without a positive table entry;
      otherwise the table entry. */
  function TokPrecedence(t: Token): (p: int)
    ensures p == -1 || p > 0
    ensures p > 0 <==> t.TokChar? && t.c in BinopPrecedence
    ensures p > 0 ==> p == BinopPrecedence[t.c]
  {
    if !t.TokChar? || !IsAscii(t.c) then -1
    else
      var tokPrec := if t.c in BinopPrecedence then BinopPrecedence[t.c] else 0;
      if tokPrec <= 0 then -1 else tokPrec
  }

  /** ParseNumberExpr: a Number node for the lexeme, then the number is consumed. */
  function ParseNumberExpr(input: seq<char>, ps: PState): (r: Step<Expr>)
    requires Valid(input, ps) && ps.cur == TokNumber
    ensures Valid(input, r.next) && Measure(input, r.next) < Measure(input, ps)
    ensures r.res.Ok?
  {
    Step(Ok(Number(ps.lex.numStr)), GetNextToken(input, ps))
  }

  /** ParseParenExpr: eat '(', parse an expression, require and eat ')'. */
  function ParseParenExpr(input: seq<char>, ps: PState): (r: Step<Expr>)
    requires Valid(input, ps) && ps.cur == TokChar('(')
    ensures Valid(input, r.next) && Measure(input, r.next) < Measure(input, ps)
    decreases Measure(input, ps), 1
  {
    var v := ParseExpression(input, GetNextToken(input, ps));
    if v.res.Err? then v
    else if v.next.cur != TokChar(')') then Step(Err("expected ')'"), v.next)
    else Step(v.res, GetNextToken(input, v.next))
  }

  /** ParseIdentifierExpr: a Variable, or, when '(' follows the name, a Call whose
      argument list ends with ')' (which is consumed). */
  function ParseIdentifierExpr(input: seq<char>, ps: PState): (r: Step<Expr>)
    requires Valid(input, ps) && ps.cur == TokIdentifier
    ensures Valid(input, r.next) && Measure(input, r.next) < Measure(input, ps)
    decreases Measure(input, ps), 1
  {
    var idName := ps.lex.identifierStr;
    var ps1 := GetNextToken(input, ps);
    if ps1.cur != TokChar('(') then Step(Ok(Variable(idName)), ps1)
    else
      var ps2 := GetNextToken(input, ps1);
      if ps2.cur == TokChar(')') then Step(Ok(Call(idName, [])), GetNextToken(input, ps2))
      else
        var a := ParseArgs(input, ps2, []);
        if a.res.Err? then Step(Err(a.res.msg), a.next)
        else Step(Ok(Call(idName, a.res.value)), GetNextToken(input, a.next))
  }

  /** The argument loop of ParseIdentifierExpr, after the arguments `args` so far: parse an
      expression; stop before ')', go on after ',', and fail on anything else. */
  function ParseArgs(input: seq<char>, ps: PState, args: seq<Expr>): (r: Step<seq<Expr>>)
    requires Valid(input, ps)
    ensures Valid(input, r.next) && Measure(input, r.next) <= Measure(input, ps)
    ensures r.res.Ok? ==> r.next.cur == TokChar(')') && |r.res.value| > |args|
    ensures r.res.Ok? ==> r.res.value[..|args|] == args
    decreases Measure(input, ps), 4
  {
    var e := ParseExpression(input, ps);
    if e.res.Err? then Step(Err(e.res.msg), e.next)
    else if e.next.cur == TokChar(')') then Step(Ok(args + [e.res.value]), e.next)
    else if e.next.cur != TokChar(',') then
      Step(Err("Expected ')' or ',' in argument list"), e.next)
    else
      var r' := ParseArgs(input, GetNextToken(input, e.next), args + [e.res.value]);
      assert r'.res.Ok? ==> r'.res.value[..|args|] == (args + [e.res.value])[..|args|];
      r'
  }

  /** ParsePrimary: dispatch on the current token. Only an identifier, a number or '('
      can start an expression; any other token is reported and left unconsumed. */
  function ParsePrimary(input: seq<char>, ps: PState): (r: Step<Expr>)
    requires Valid(input, ps)
    ensures Valid(input, r.next) && Measure(input, r.next) <= Measure(input, ps)
    ensures r.res.Ok? ==> Measure(input, r.next) < Measure(input, ps)
    ensures r.next == ps || Measure(input, r.next) < Measure(input, ps)
    decreases Measure(input, ps), 2
  {
    if ps.cur == TokIdentifier then ParseIdentifierExpr(input, ps)
    else if ps.cur == TokNumber then ParseNumberExpr(input, ps)
    else if ps.cur == TokChar('(') then ParseParenExpr(input, ps)
    else Step(Err("Unkown token when expecting an expression"), ps)
  }

  /** ParseExpression: a primary, then the binary operators that follow it. */
  function ParseExpression(input: seq<char>, ps: PState): (r: Step<Expr>)
    requires Valid(input, ps)
    ensures Valid(input, r.next) && Measure(input, r.next) <= Measure(input, ps)
    ensures r.res.Ok? ==> Measure(input, r.next) < Measure(input, ps)
    ensures r.next == ps || Measure(input, r.next) < Measure(input, ps)
    decreases Measure(input, ps), 3
  {
    var l := ParsePrimary(input, ps);
    if l.res.Err? then l else ParseBinOpRHS(input, 0, l.res.value, l.next)
  }

  /** ParseBinOpRHS: precedence climbing. While the current token is an operator binding
      at least as tightly as `exprPrec`, consume it and a primary, let the operators that
      bind more tightly take that primary (TighterOperand), and combine. Every caller
      passes 0 or an operator's precedence plus one. */
  function ParseBinOpRHS(input: seq<char>, exprPrec: int, lhs: Expr, ps: PState): (r: Step<Expr>)
    requires Valid(input, ps) && 0 <= exprPrec
    ensures Valid(input, r.next) && Measure(input, r.next) <= Measure(input, ps)
    decreases Measure(input, ps), 0
  {
    var tokPrec := TokPrecedence(ps.cur);
    if tokPrec < exprPrec then Step(Ok(lhs), ps)
    else
      var binOp := ps.cur.c;
      var rhs := ParsePrimary(input, GetNextToken(input, ps));
      if rhs.res.Err? then rhs
      else
        var rhs' := TighterOperand(input, tokPrec, rhs.res.value, rhs.next);
        if rhs'.res.Err? then rhs'
        else ParseBinOpRHS(input, exprPrec, Binary(binOp, lhs, rhs'.res.value), rhs'.next)
  }

  /** The right operand `rhs` of an operator of precedence `tokPrec`: if the operator
      after it binds more tightly, that operator takes `rhs` as its left operand first. */
  function TighterOperand(input: seq<char>, tokPrec: int, rhs: Expr, ps: PState): (r: Step<Expr>)
    requires Valid(input, ps) && 0 <= tokPrec
    ensures Valid(input, r.next) && Measure(input, r.next) <= Measure(input, ps)
    decreases Measure(input, ps), 1
  {
    if tokPrec < TokPrecedence(ps.cur) then ParseBinOpRHS(input, tokPrec + 1, rhs, ps)
    else Step(Ok(rhs), ps)
  }

  /** The parameter loop of ParsePrototype (kaliedoscope.cpp:316-318), after the names
      `names` so far: read a token, and collect identifiers until another token comes. */
  function ParamNames(input: seq<char>, ps: PState, names: seq<string>): (r: (seq<string>, PState))
    requires Valid(input, ps)
    ensures Valid(input, r.1) && Measure(input, r.1) <= Measure(input, ps)
    ensures r.1.cur != TokIdentifier
    ensures |r.0| >= |names| && r.0[..|names|] == names
    decreases Measure(input, ps)
  {
    if ps.cur == TokIdentifier then
      var names' := names + [ps.lex.identifierStr];
      var r' := ParamNames(input, GetNextToken(input, ps), names');
      assert r'.0[..|names|] == names'[..|names|];
      r'
    else (names, ps)
  }

  /** ParsePrototype: a name, '(', identifiers with no separator, ')'. The token after
      ')' is read into CurTok. */
  function ParsePrototype(input: seq<char>, ps: PState): (r: Step<Prototype>)
    requires Valid(input, ps)
    ensures Valid(input, r.next) && Measure(input, r.next) <= Measure(input, ps)
  {
    if ps.cur != TokIdentifier then Step(Err("Expected function name in prototype"), ps)
    else
      var fnName := ps.lex.identifierStr;
      var ps1 := GetNextToken(input, ps);
      if ps1.cur != TokChar('(') then Step(Err("Expected '(' in prototype"), ps1)
      else
        var (argNames, ps2) := ParamNames(input, GetNextToken(input, ps1), []);
        if ps2.cur != TokChar(')') then Step(Err("Expected ')' in prototype"), ps2)
        else Step(Ok(Prototype(fnName, argNames)), GetNextToken(input, ps2))
  }

  /** ParseDefinition: eat 'def', then a prototype and a body expression. */
  function ParseDefinition(input: seq<char>, ps: PState): (r: Step<FunctionDef>)
    requires Valid(input, ps) && ps.cur == TokDef
    ensures Valid(input, r.next) && Measure(input, r.next) < Measure(input, ps)
  {
    var p := ParsePrototype(input, GetNextToken(input, ps));
    if p.res.Err? then Step(Err(p.res.msg), p.next)
    else
      var e := ParseExpression(input, p.next);
      if e.res.Err? then Step(Err(e.res.msg), e.next)
      else Step(Ok(FunctionDef(p.res.value, e.res.value)), e.next)
  }

  /** ParseExtern: eat 'extern', then a prototype. */
  function ParseExtern(input: seq<char>, ps: PState): (r: Step<Prototype>)
    requires Valid(input, ps) && ps.cur == TokExtern
    ensures Valid(input, r.next) && Measure(input, r.next) < Measure(input, ps)
  {
    ParsePrototype(input, GetNextToken(input, ps))
  }

  /** The prototype of the anonymous function a top-level expression becomes. */
  const AnonProto: Prototype := Prototype("", [])

  /** ParseTopLevelExpr: an expression wrapped in an anonymous function. When the
      expression fails the C++ function falls off its end without a return value; here
      that path is a failure carrying the expression's message. */
  function ParseTopLevelExpr(input: seq<char>, ps: PState): (r: Step<FunctionDef>)
    requires Valid(input, ps)
    ensures Valid(input, r.next) && Measure(input, r.next) <= Measure(input, ps)
    ensures r.next == ps || Measure(input, r.next) < Measure(input, ps)
  {
    var e := ParseExpression(input, ps);
    if e.res.Err? then Step(Err(e.res.msg), e.next)
    else Step(Ok(FunctionDef(AnonProto, e.res.value)), e.next)
  }

  /** What the driver reports for each top-level construct it handles. */
  datatype TopLevel =
    | ParsedDefinition(def: FunctionDef)
    | ParsedExtern(proto: Prototype)
    | ParsedTopLevelExpr(anon: FunctionDef)
    | Failed(msg: string)

  /** What a Handle* function did and the state it leaves. */
  datatype Handled = Handled(event: TopLevel, next: PState)

  /** HandleDefinition: parse a definition; after a failure skip one token. */
  function HandleDefinition(input: seq<char>, ps: PState): (r: Handled)
    requires Valid(input, ps) && ps.cur == TokDef
    ensures Valid(input, r.next) && Measure(input, r.next) < Measure(input, ps)
  {
    var d := ParseDefinition(input, ps);
    if d.res.Ok? then Handled(ParsedDefinition(d.res.value), d.next)
    else Handled(Failed(d.res.msg), GetNextToken(input, d.next))
  }

  /** HandleExtern: parse an extern; after a failure skip one token. */
  function HandleExtern(input: seq<char>, ps: PState): (r: Handled)
    requires Valid(input, ps) && ps.cur == TokExtern
    ensures Valid(input, r.next) && Measure(input, r.next) < Measure(input, ps)
  {
    var x := ParseExtern(input, ps);
    if x.res.Ok? then Handled(ParsedExtern(x.res.value), x.next)
    else Handled(Failed(x.res.msg), GetNextToken(input, x.next))
  }

  /** HandleTopLevelExpression: parse a top-level expression; after a failure skip one
      token. The driver calls it only on a token other than EOF. */
  function HandleTopLevelExpression(input: seq<char>, ps: PState): (r: Handled)
    requires Valid(input, ps) && ps.cur != TokEof
    ensures Valid(input, r.next) && Measure(input, r.next) < Measure(input, ps)
  {
    var t := ParseTopLevelExpr(input, ps);
    if t.res.Ok? then Handled(ParsedTopLevelExpr(t.res.value), t.next)
    else Handled(Failed(t.res.msg), GetNextToken(input, t.next))
  }

  /** MainLoop, after it has reported `log`: stop at EOF, skip ';', and hand definitions,
      externs and anything else to the matching Handle* function. */
  function MainLoop(input: seq<char>, ps: PState, log: seq<TopLevel>): (r: seq<TopLevel>)
    requires Valid(input, ps)
    ensures |log| <= |r| && r[..|log|] == log
    ensures ps.cur == TokEof ==> r == log
    decreases Measure(input, ps)
  {
    if ps.cur == TokEof then log
    else if ps.cur == TokChar(';') then MainLoop(input, GetNextToken(input, ps), log)
    else
      var h := Dispatch(input, ps);
      var r' := MainLoop(input, h.next, log + [h.event]);
      assert r'[..|log|] == (log + [h.event])[..|log|];
      r'
  }

  /** The switch of MainLoop for a token other than EOF and ';'. */
  function Dispatch(input: seq<char>, ps: PState): (r: Handled)
    requires Valid(input, ps) && ps.cur != TokEof
    ensures Valid(input, r.next) && Measure(input, r.next) < Measure(input, ps)
  {
    if ps.cur == TokDef then HandleDefinition(input, ps)
    else if ps.cur == TokExtern then HandleExtern(input, ps)
    else HandleTopLevelExpression(input, ps)
  }

  /** `main` after filling the table: read the first token, then run MainLoop. An empty
      input gives no report. */
  function Run(input: seq<char>): (r: seq<TopLevel>)
    ensures input == [] ==> r == []
  {
    var first := GetNextToken(input, Start);
    assert input == [] ==> first.cur == TokEof by {
      if input == [] {
        assert SkipSpaces(input, Initial) == Initial.(last := EndOfInput);
      }
    }
    MainLoop(input, first, [])
  }
}
