/** Every node the parser builds is made of what the scanner can produce: numerals,
    identifiers other than the keywords, and operators of the precedence table. The
    argument is an invariant on the parser state — beside tok_identifier the global
    IdentifierStr holds a name, beside tok_number the lexeme is a numeral — that every
    parse function keeps on every path, failures included. */
module WellFormedness {
  import opened Ast
  import opened Lexer
  import opened LexerProperties
  import opened Grammar

  /** The globals agree with `CurTok`. */
  predicate LexemesOk(ps: PState) {
    && (ps.cur == TokIdentifier ==> IsName(ps.lex.identifierStr))
    && (ps.cur == TokNumber ==> IsNumeral(ps.lex.numStr))
  }

  predicate WellFormed(e: Expr) {
    match e
    case Number(lexeme) => IsNumeral(lexeme)
    case Variable(name) => IsName(name)
    case Binary(op, lhs, rhs) => op in BinopPrecedence && WellFormed(lhs) && WellFormed(rhs)
    case Call(callee, args) => IsName(callee) && AllWellFormed(args)
  }

  predicate AllWellFormed(es: seq<Expr>)
    decreases es, 0
  {
    forall i :: 0 <= i < |es| ==> WellFormed(es[i])
  }

  predicate WellFormedPrototype(p: Prototype) {
    IsName(p.name) && forall i :: 0 <= i < |p.params| ==> IsName(p.params[i])
  }

  /** getNextToken establishes the invariant whatever state it starts from. */
  lemma NextTokenLexemes(input: seq<char>, ps: PState)
    requires Grammar.Valid(input, ps)
    ensures LexemesOk(GetNextToken(input, ps))
  {
    TokenLexemes(input, ps.lex);
  }

  lemma {:induction false} PrimaryWellFormed(input: seq<char>, ps: PState)
    requires Grammar.Valid(input, ps) && LexemesOk(ps)
    ensures var r := ParsePrimary(input, ps);
            LexemesOk(r.next) && (r.res.Ok? ==> WellFormed(r.res.value))
    decreases Measure(input, ps), 2
  {
    if ps.cur == TokIdentifier {
      IdentifierWellFormed(input, ps);
    } else if ps.cur == TokNumber {
      NextTokenLexemes(input, ps);
    } else if ps.cur == TokChar('(') {
      ParenWellFormed(input, ps);
    }
  }

  lemma {:induction false} ParenWellFormed(input: seq<char>, ps: PState)
    requires Grammar.Valid(input, ps) && ps.cur == TokChar('(') && LexemesOk(ps)
    ensures var r := ParseParenExpr(input, ps);
            LexemesOk(r.next) && (r.res.Ok? ==> WellFormed(r.res.value))
    decreases Measure(input, ps), 1
  {
    var ps1 := GetNextToken(input, ps);
    NextTokenLexemes(input, ps);
    ExpressionWellFormed(input, ps1);
    var v := ParseExpression(input, ps1);
    if v.res.Ok? && v.next.cur == TokChar(')') {
      NextTokenLexemes(input, v.next);
    }
  }

  lemma {:induction false} IdentifierWellFormed(input: seq<char>, ps: PState)
    requires Grammar.Valid(input, ps) && ps.cur == TokIdentifier && LexemesOk(ps)
    ensures var r := ParseIdentifierExpr(input, ps);
            LexemesOk(r.next) && (r.res.Ok? ==> WellFormed(r.res.value))
    decreases Measure(input, ps), 1
  {
    var ps1 := GetNextToken(input, ps);
    NextTokenLexemes(input, ps);
    if ps1.cur == TokChar('(') {
      var ps2 := GetNextToken(input, ps1);
      NextTokenLexemes(input, ps1);
      if ps2.cur == TokChar(')') {
        NextTokenLexemes(input, ps2);
      } else {
        ArgsWellFormed(input, ps2, []);
        var a := ParseArgs(input, ps2, []);
        if a.res.Ok? {
          NextTokenLexemes(input, a.next);
        }
      }
    }
  }

  lemma {:induction false} ArgsWellFormed(input: seq<char>, ps: PState, args: seq<Expr>)
    requires Grammar.Valid(input, ps) && LexemesOk(ps) && AllWellFormed(args)
    ensures var r := ParseArgs(input, ps, args);
            LexemesOk(r.next) && (r.res.Ok? ==> AllWellFormed(r.res.value))
    decreases Measure(input, ps), 4
  {
    ExpressionWellFormed(input, ps);
    var e := ParseExpression(input, ps);
    if e.res.Ok? && e.next.cur == TokChar(')') {
      assert AllWellFormed(args + [e.res.value]);
    } else if e.res.Ok? && e.next.cur == TokChar(',') {
      assert AllWellFormed(args + [e.res.value]);
      NextTokenLexemes(input, e.next);
      ArgsWellFormed(input, GetNextToken(input, e.next), args + [e.res.value]);
    }
  }

  lemma {:induction false} ExpressionWellFormed(input: seq<char>, ps: PState)
    requires Grammar.Valid(input, ps) && LexemesOk(ps)
    ensures var r := ParseExpression(input, ps);
            LexemesOk(r.next) && (r.res.Ok? ==> WellFormed(r.res.value))
    decreases Measure(input, ps), 3
  {
    PrimaryWellFormed(input, ps);
    var l := ParsePrimary(input, ps);
    if l.res.Ok? {
      BinOpWellFormed(input, 0, l.res.value, l.next);
    }
  }

  lemma {:induction false} BinOpWellFormed(input: seq<char>, exprPrec: int, lhs: Expr, ps: PState)
    requires Grammar.Valid(input, ps) && 0 <= exprPrec && LexemesOk(ps) && WellFormed(lhs)
    ensures var r := ParseBinOpRHS(input, exprPrec, lhs, ps);
            LexemesOk(r.next) && (r.res.Ok? ==> WellFormed(r.res.value))
    decreases Measure(input, ps), 0
  {
    var tokPrec := TokPrecedence(ps.cur);
    if tokPrec >= exprPrec {
      var ps1 := GetNextToken(input, ps);
      NextTokenLexemes(input, ps);
      PrimaryWellFormed(input, ps1);
      var rhs := ParsePrimary(input, ps1);
      if rhs.res.Ok? {
        OperandWellFormed(input, tokPrec, rhs.res.value, rhs.next);
        var rhs' := TighterOperand(input, tokPrec, rhs.res.value, rhs.next);
        if rhs'.res.Ok? {
          BinOpWellFormed(input, exprPrec, Binary(ps.cur.c, lhs, rhs'.res.value), rhs'.next);
        }
      }
    }
  }

  lemma {:induction false} OperandWellFormed(input: seq<char>, tokPrec: int, rhs: Expr, ps: PState)
    requires Grammar.Valid(input, ps) && 0 <= tokPrec && LexemesOk(ps) && WellFormed(rhs)
    ensures var r := TighterOperand(input, tokPrec, rhs, ps);
            LexemesOk(r.next) && (r.res.Ok? ==> WellFormed(r.res.value))
    decreases Measure(input, ps), 1
  {
    if tokPrec < TokPrecedence(ps.cur) {
      assert TighterOperand(input, tokPrec, rhs, ps) == ParseBinOpRHS(input, tokPrec + 1, rhs, ps);
      BinOpWellFormed(input, tokPrec + 1, rhs, ps);
    } else {
      assert TighterOperand(input, tokPrec, rhs, ps) == Step(Ok(rhs), ps);
    }
  }

  /** The identifiers the parameter loop collects are names. */
  lemma {:induction false} ParamNamesWellFormed(input: seq<char>, ps: PState, names: seq<string>)
    requires Grammar.Valid(input, ps) && LexemesOk(ps)
    requires forall i :: 0 <= i < |names| ==> IsName(names[i])
    ensures var r := ParamNames(input, ps, names);
            LexemesOk(r.1) && forall i :: 0 <= i < |r.0| ==> IsName(r.0[i])
    decreases Measure(input, ps)
  {
    if ps.cur == TokIdentifier {
      var names' := names + [ps.lex.identifierStr];
      assert forall i :: 0 <= i < |names'| ==> IsName(names'[i]);
      NextTokenLexemes(input, ps);
      ParamNamesWellFormed(input, GetNextToken(input, ps), names');
    }
  }

  lemma PrototypeWellFormed(input: seq<char>, ps: PState)
    requires Grammar.Valid(input, ps) && LexemesOk(ps)
    ensures var r := ParsePrototype(input, ps);
            LexemesOk(r.next) && (r.res.Ok? ==> WellFormedPrototype(r.res.value))
  {
    if ps.cur == TokIdentifier {
      var ps1 := GetNextToken(input, ps);
      NextTokenLexemes(input, ps);
      if ps1.cur == TokChar('(') {
        NextTokenLexemes(input, ps1);
        ParamNamesWellFormed(input, GetNextToken(input, ps1), []);
        var (_, ps2) := ParamNames(input, GetNextToken(input, ps1), []);
        NextTokenLexemes(input, ps2);
      }
    }
  }

  /** A definition has a named prototype and a well-formed body. */
  lemma DefinitionWellFormed(input: seq<char>, ps: PState)
    requires Grammar.Valid(input, ps) && ps.cur == TokDef
    ensures var r := ParseDefinition(input, ps);
            LexemesOk(r.next)
            && (r.res.Ok? ==> WellFormedPrototype(r.res.value.proto) && WellFormed(r.res.value.body))
  {
    var ps1 := GetNextToken(input, ps);
    NextTokenLexemes(input, ps);
    PrototypeWellFormed(input, ps1);
    var p := ParsePrototype(input, ps1);
    if p.res.Ok? {
      ExpressionWellFormed(input, p.next);
    }
  }

  lemma ExternWellFormed(input: seq<char>, ps: PState)
    requires Grammar.Valid(input, ps) && ps.cur == TokExtern
    ensures var r := ParseExtern(input, ps);
            LexemesOk(r.next) && (r.res.Ok? ==> WellFormedPrototype(r.res.value))
  {
    NextTokenLexemes(input, ps);
    PrototypeWellFormed(input, GetNextToken(input, ps));
  }

  lemma TopLevelExprWellFormed(input: seq<char>, ps: PState)
    requires Grammar.Valid(input, ps) && LexemesOk(ps)
    ensures var r := ParseTopLevelExpr(input, ps);
            LexemesOk(r.next) && (r.res.Ok? ==> WellFormed(r.res.value.body))
  {
    ExpressionWellFormed(input, ps);
  }

  /** What the driver reports is well formed: a definition as above, an extern's
      prototype, and a top-level expression's body (its prototype is the anonymous one). */
  predicate WellFormedEvent(t: TopLevel) {
    match t
    case ParsedDefinition(def) => WellFormedPrototype(def.proto) && WellFormed(def.body)
    case ParsedExtern(proto) => WellFormedPrototype(proto)
    case ParsedTopLevelExpr(anon) => anon.proto == AnonProto && WellFormed(anon.body)
    case Failed(_) => true
  }

  lemma DispatchWellFormed(input: seq<char>, ps: PState)
    requires Grammar.Valid(input, ps) && ps.cur != TokEof && LexemesOk(ps)
    ensures var h := Dispatch(input, ps);
            LexemesOk(h.next) && WellFormedEvent(h.event)
  {
    if ps.cur == TokDef {
      DefinitionWellFormed(input, ps);
      NextTokenLexemes(input, ParseDefinition(input, ps).next);
    } else if ps.cur == TokExtern {
      ExternWellFormed(input, ps);
      NextTokenLexemes(input, ParseExtern(input, ps).next);
    } else {
      TopLevelExprWellFormed(input, ps);
      NextTokenLexemes(input, ParseTopLevelExpr(input, ps).next);
    }
  }

  predicate AllWellFormedEvents(log: seq<TopLevel>) {
    forall i :: 0 <= i < |log| ==> WellFormedEvent(log[i])
  }

  lemma {:induction false} MainLoopWellFormed(input: seq<char>, ps: PState, log: seq<TopLevel>)
    requires Grammar.Valid(input, ps) && LexemesOk(ps) && AllWellFormedEvents(log)
    ensures AllWellFormedEvents(MainLoop(input, ps, log))
    decreases Measure(input, ps)
  {
    if ps.cur == TokChar(';') {
      NextTokenLexemes(input, ps);
      MainLoopWellFormed(input, GetNextToken(input, ps), log);
    } else if ps.cur != TokEof {
      DispatchWellFormed(input, ps);
      var h := Dispatch(input, ps);
      assert AllWellFormedEvents(log + [h.event]);
      assert MainLoop(input, ps, log) == MainLoop(input, h.next, log + [h.event]);
      MainLoopWellFormed(input, h.next, log + [h.event]);
    }
  }

  /** Over any input, every definition, extern and top-level expression the driver
      reports is built from names, numerals and table operators only. */
  lemma RunWellFormed(input: seq<char>)
    ensures AllWellFormedEvents(Run(input))
  {
    assert Grammar.Valid(input, Start);
    var ps := GetNextToken(input, Start);
    NextTokenLexemes(input, Start);
    MainLoopWellFormed(input, ps, []);
  }
}
