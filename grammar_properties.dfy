/** What the parser promises: how precedence climbing shapes the tree, which tokens
    start an expression, how failures propagate, the order of the prototype checks, and
    what the driver reports. */
module GrammarProperties {
  import opened Ast
  import opened Lexer
  import opened Grammar

  /** `lhs` is `e` itself or the bottom of e's chain of left operands. */
  predicate OnLeftSpine(lhs: Expr, e: Expr) {
    e == lhs || (e.Binary? && OnLeftSpine(lhs, e.lhs))
  }

  lemma {:induction false} LeftSpineOfLeftOperand(lhs: Expr, op: char, rhs: Expr, e: Expr)
    requires OnLeftSpine(Binary(op, lhs, rhs), e)
    ensures OnLeftSpine(lhs, e)
  {
    if e != Binary(op, lhs, rhs) {
      LeftSpineOfLeftOperand(lhs, op, rhs, e.lhs);
    }
  }

  /** ParseBinOpRHS returns `lhs` untouched when the current token binds less tightly
      than `exprPrec`; when it succeeds, it stops only at such a token, and what was
      parsed before it stays leftmost in the tree it builds. */
  lemma {:induction false} BinOpRHSResult(input: seq<char>, exprPrec: int, lhs: Expr, ps: PState)
    requires Grammar.Valid(input, ps) && 0 <= exprPrec
    ensures var r := ParseBinOpRHS(input, exprPrec, lhs, ps);
            && (TokPrecedence(ps.cur) < exprPrec ==> r == Step(Ok(lhs), ps))
            && (r.res.Ok? ==> TokPrecedence(r.next.cur) < exprPrec && OnLeftSpine(lhs, r.res.value))
    decreases Measure(input, ps)
  {
    var tokPrec := TokPrecedence(ps.cur);
    if tokPrec >= exprPrec {
      var rhs := ParsePrimary(input, GetNextToken(input, ps));
      if rhs.res.Ok? {
        var rhs' := TighterOperand(input, tokPrec, rhs.res.value, rhs.next);
        if rhs'.res.Ok? {
          var combined := Binary(ps.cur.c, lhs, rhs'.res.value);
          assert ParseBinOpRHS(input, exprPrec, lhs, ps)
              == ParseBinOpRHS(input, exprPrec, combined, rhs'.next);
          BinOpRHSResult(input, exprPrec, combined, rhs'.next);
          var r := ParseBinOpRHS(input, exprPrec, combined, rhs'.next);
          if r.res.Ok? {
            LeftSpineOfLeftOperand(lhs, ps.cur.c, rhs'.res.value, r.res.value);
          }
        } else {
          assert ParseBinOpRHS(input, exprPrec, lhs, ps) == rhs';
        }
      } else {
        assert ParseBinOpRHS(input, exprPrec, lhs, ps) == rhs;
      }
    }
  }

  /** After the operators that bind more tightly than an operator of precedence
      `tokPrec` have taken its right operand, the next token binds no more tightly
      than that operator. */
  lemma TighterOperandStops(input: seq<char>, tokPrec: int, rhs: Expr, ps: PState)
    requires Grammar.Valid(input, ps) && 0 <= tokPrec
    ensures var r := TighterOperand(input, tokPrec, rhs, ps);
            r.res.Ok? ==> TokPrecedence(r.next.cur) <= tokPrec || r == Step(Ok(rhs), ps)
    ensures TokPrecedence(ps.cur) <= tokPrec ==> TighterOperand(input, tokPrec, rhs, ps) == Step(Ok(rhs), ps)
  {
    if tokPrec < TokPrecedence(ps.cur) {
      BinOpRHSResult(input, tokPrec + 1, rhs, ps);
    }
  }

  /** A whole expression ends at a token that is not a binary operator. */
  lemma ExpressionEndsAtNonOperator(input: seq<char>, ps: PState)
    requires Grammar.Valid(input, ps)
    ensures var r := ParseExpression(input, ps);
            r.res.Ok? ==> TokPrecedence(r.next.cur) == -1
                          && !(r.next.cur.TokChar? && r.next.cur.c in BinopPrecedence)
  {
    var l := ParsePrimary(input, ps);
    if l.res.Ok? {
      BinOpRHSResult(input, 0, l.res.value, l.next);
    }
  }

  /** `a op1 b op2 c` where op2 binds no more tightly than op1 (and still at least as
      tightly as `exprPrec`) groups to the left: `(a op1 b) op2 c`. With equal
      precedences this is left associativity: "1-2-3" is (1-2)-3. */
  lemma NotTighterNestsLeft(input: seq<char>, exprPrec: int, a: Expr, ps: PState,
                            b: Expr, q1: PState, c: Expr, q2: PState)
    requires Grammar.Valid(input, ps) && 0 <= exprPrec <= TokPrecedence(ps.cur)
    requires ParsePrimary(input, GetNextToken(input, ps)) == Step(Ok(b), q1)
    requires exprPrec <= TokPrecedence(q1.cur) <= TokPrecedence(ps.cur)
    requires ParsePrimary(input, GetNextToken(input, q1)) == Step(Ok(c), q2)
    requires TokPrecedence(q2.cur) < exprPrec
    ensures ParseBinOpRHS(input, exprPrec, a, ps)
         == Step(Ok(Binary(q1.cur.c, Binary(ps.cur.c, a, b), c)), q2)
  {
    var p1 := TokPrecedence(ps.cur);
    var p2 := TokPrecedence(q1.cur);
    var ab := Binary(ps.cur.c, a, b);
    assert TighterOperand(input, p1, b, q1) == Step(Ok(b), q1);
    assert ParseBinOpRHS(input, exprPrec, a, ps) == ParseBinOpRHS(input, exprPrec, ab, q1);
    assert TighterOperand(input, p2, c, q2) == Step(Ok(c), q2);
    assert ParseBinOpRHS(input, exprPrec, ab, q1)
        == ParseBinOpRHS(input, exprPrec, Binary(q1.cur.c, ab, c), q2);
  }

  /** `a op1 b op2 c` where op2 binds strictly more tightly than op1 groups to the
      right: `a op1 (b op2 c)`, as "1+2*3" is 1+(2*3). */
  lemma TighterNestsRight(input: seq<char>, exprPrec: int, a: Expr, ps: PState,
                          b: Expr, q1: PState, c: Expr, q2: PState)
    requires Grammar.Valid(input, ps) && 0 <= exprPrec <= TokPrecedence(ps.cur)
    requires ParsePrimary(input, GetNextToken(input, ps)) == Step(Ok(b), q1)
    requires TokPrecedence(ps.cur) < TokPrecedence(q1.cur)
    requires ParsePrimary(input, GetNextToken(input, q1)) == Step(Ok(c), q2)
    requires TokPrecedence(q2.cur) < exprPrec
    ensures ParseBinOpRHS(input, exprPrec, a, ps)
         == Step(Ok(Binary(ps.cur.c, a, Binary(q1.cur.c, b, c))), q2)
  {
    var p1 := TokPrecedence(ps.cur);
    var p2 := TokPrecedence(q1.cur);
    var bc := Binary(q1.cur.c, b, c);
    assert TighterOperand(input, p2, c, q2) == Step(Ok(c), q2);
    assert ParseBinOpRHS(input, p1 + 1, b, q1) == ParseBinOpRHS(input, p1 + 1, bc, q2);
    assert ParseBinOpRHS(input, p1 + 1, bc, q2) == Step(Ok(bc), q2);
    assert TighterOperand(input, p1, b, q1) == Step(Ok(bc), q2);
    assert ParseBinOpRHS(input, exprPrec, a, ps)
        == ParseBinOpRHS(input, exprPrec, Binary(ps.cur.c, a, bc), q2);
  }

  /** A failure in the right operand of an operator — its primary, or the operators
      that take it — is the failure of the whole ParseBinOpRHS: no node is built. */
  lemma RightOperandFailure(input: seq<char>, exprPrec: int, lhs: Expr, ps: PState)
    requires Grammar.Valid(input, ps) && 0 <= exprPrec <= TokPrecedence(ps.cur)
    ensures var rhs := ParsePrimary(input, GetNextToken(input, ps));
            var r := ParseBinOpRHS(input, exprPrec, lhs, ps);
            && (rhs.res.Err? ==> r == rhs)
            && (rhs.res.Ok? && TighterOperand(input, TokPrecedence(ps.cur), rhs.res.value, rhs.next).res.Err?
                ==> r == TighterOperand(input, TokPrecedence(ps.cur), rhs.res.value, rhs.next))
  {
  }

  /** Only an identifier, a number or '(' starts an expression; any other token is
      reported and left in CurTok. */
  lemma PrimaryStarts(input: seq<char>, ps: PState)
    requires Grammar.Valid(input, ps)
    ensures ParsePrimary(input, ps).res.Ok? ==> ps.cur in {TokIdentifier, TokNumber, TokChar('(')}
    ensures ParseExpression(input, ps).res.Ok? ==> ps.cur in {TokIdentifier, TokNumber, TokChar('(')}
    ensures ps.cur !in {TokIdentifier, TokNumber, TokChar('(')} ==>
              && ParsePrimary(input, ps) == Step(Err("Unkown token when expecting an expression"), ps)
              && ParseExpression(input, ps) == ParsePrimary(input, ps)
  {
  }

  /** A number is a Number node for its lexeme, and consumes exactly its token. */
  lemma NumberIsLeaf(input: seq<char>, ps: PState)
    requires Grammar.Valid(input, ps) && ps.cur == TokNumber
    ensures ParsePrimary(input, ps) == Step(Ok(Number(ps.lex.numStr)), GetNextToken(input, ps))
  {
  }

  /** Parentheses build no node of their own: the result is the inner expression, and
      it succeeds exactly when the inner expression does and is followed by ')'. */
  lemma ParenIsTransparent(input: seq<char>, ps: PState)
    requires Grammar.Valid(input, ps) && ps.cur == TokChar('(')
    ensures var v := ParseExpression(input, GetNextToken(input, ps));
            var r := ParseParenExpr(input, ps);
            && (r.res.Ok? <==> v.res.Ok? && v.next.cur == TokChar(')'))
            && (r.res.Ok? ==> r.res == v.res && r.next == GetNextToken(input, v.next))
            && (v.res.Ok? && v.next.cur != TokChar(')') ==> r.res == Err("expected ')'"))
            && (v.res.Err? ==> r == v)
  {
  }

  /** An identifier is a Variable unless '(' follows it; then it is a Call of that name,
      `name()` is a call with no arguments, and otherwise the call's arguments are exactly
      the list the argument loop returns, with the token after ')' read. */
  lemma VariableOrCall(input: seq<char>, ps: PState)
    requires Grammar.Valid(input, ps) && ps.cur == TokIdentifier
    ensures var id := ps.lex.identifierStr;
            var ps1 := GetNextToken(input, ps);
            var r := ParseIdentifierExpr(input, ps);
            && (ps1.cur != TokChar('(') ==> r == Step(Ok(Variable(id)), ps1))
            && (ps1.cur == TokChar('(') && r.res.Ok? ==> r.res.value.Call? && r.res.value.callee == id)
            && (ps1.cur == TokChar('(') && GetNextToken(input, ps1).cur == TokChar(')') ==>
                  r == Step(Ok(Call(id, [])), GetNextToken(input, GetNextToken(input, ps1))))
            && (var a := ParseArgs(input, GetNextToken(input, ps1), []);
                ps1.cur == TokChar('(') && GetNextToken(input, ps1).cur != TokChar(')') && a.res.Ok? ==>
                  r == Step(Ok(Call(id, a.res.value)), GetNextToken(input, a.next)))
  {
  }

  /** One round of the argument loop: the parsed expression is appended to the arguments
      in order; ')' ends the list, ',' goes on with the next argument (so a failure there
      fails the whole list), a failed argument fails the list with its own message, and a
      token other than ',' or ')' after an argument is an error. */
  lemma ArgumentErrors(input: seq<char>, ps: PState, args: seq<Expr>)
    requires Grammar.Valid(input, ps)
    ensures var e := ParseExpression(input, ps);
            var r := ParseArgs(input, ps, args);
            && (e.res.Err? ==> r == Step(Err(e.res.msg), e.next))
            && (e.res.Ok? && e.next.cur == TokChar(')') ==> r == Step(Ok(args + [e.res.value]), e.next))
            && (e.res.Ok? && e.next.cur == TokChar(',') ==>
                  r == ParseArgs(input, GetNextToken(input, e.next), args + [e.res.value]))
            && (e.res.Ok? && e.next.cur != TokChar(')') && e.next.cur != TokChar(',') ==>
                  r == Step(Err("Expected ')' or ',' in argument list"), e.next))
  {
  }

  /** A failed argument fails the whole call, with the argument's message. */
  lemma CallArgumentFailure(input: seq<char>, ps: PState)
    requires Grammar.Valid(input, ps) && ps.cur == TokIdentifier
    requires GetNextToken(input, ps).cur == TokChar('(')
    requires GetNextToken(input, GetNextToken(input, ps)).cur != TokChar(')')
    ensures var a := ParseArgs(input, GetNextToken(input, GetNextToken(input, ps)), []);
            a.res.Err? ==> ParseIdentifierExpr(input, ps) == Step(Err(a.res.msg), a.next)
  {
  }

  /** ParsePrototype checks for a name, then '(', then ')' after the parameters, in this
      order, each with its own message; on success it holds the name and the
      parameters in order, and ')' has been consumed. */
  lemma PrototypeChecks(input: seq<char>, ps: PState)
    requires Grammar.Valid(input, ps)
    ensures var r := ParsePrototype(input, ps);
            && (ps.cur != TokIdentifier ==> r == Step(Err("Expected function name in prototype"), ps))
            && (ps.cur == TokIdentifier && GetNextToken(input, ps).cur != TokChar('(') ==>
                  r.res == Err("Expected '(' in prototype"))
            && (ps.cur == TokIdentifier && GetNextToken(input, ps).cur == TokChar('(') ==>
                  var (names, q) := ParamNames(input, GetNextToken(input, GetNextToken(input, ps)), []);
                  && (q.cur != TokChar(')') ==> r.res == Err("Expected ')' in prototype"))
                  && (q.cur == TokChar(')') ==>
                        r == Step(Ok(Prototype(ps.lex.identifierStr, names)), GetNextToken(input, q))))
  {
  }

  /** The parameter loop takes identifiers while they come, so the parameters are
      exactly the identifiers before the first other token. */
  lemma {:induction false} ParamNamesTakesIdentifiers(input: seq<char>, ps: PState, names: seq<string>)
    requires Grammar.Valid(input, ps)
    ensures var r := ParamNames(input, ps, names);
            && (ps.cur != TokIdentifier ==> r == (names, ps))
            && (ps.cur == TokIdentifier ==>
                  |r.0| > |names| && r.0[|names|] == ps.lex.identifierStr
                  && r == ParamNames(input, GetNextToken(input, ps), names + [ps.lex.identifierStr]))
    decreases Measure(input, ps)
  {
    if ps.cur == TokIdentifier {
      var names' := names + [ps.lex.identifierStr];
      var r := ParamNames(input, GetNextToken(input, ps), names');
      assert r.0[..|names'|] == names';
      assert r.0[|names|] == names'[|names|];
    }
  }

  /** A definition succeeds exactly when its prototype and its body do. */
  lemma DefinitionNeedsBoth(input: seq<char>, ps: PState)
    requires Grammar.Valid(input, ps) && ps.cur == TokDef
    ensures var p := ParsePrototype(input, GetNextToken(input, ps));
            var r := ParseDefinition(input, ps);
            && (p.res.Err? ==> r == Step(Err(p.res.msg), p.next))
            && (p.res.Ok? ==>
                  var e := ParseExpression(input, p.next);
                  && (e.res.Err? ==> r == Step(Err(e.res.msg), e.next))
                  && (e.res.Ok? ==> r == Step(Ok(FunctionDef(p.res.value, e.res.value)), e.next)))
  {
  }

  /** An extern is its prototype alone. */
  lemma ExternIsPrototype(input: seq<char>, ps: PState)
    requires Grammar.Valid(input, ps) && ps.cur == TokExtern
    ensures ParseExtern(input, ps) == ParsePrototype(input, GetNextToken(input, ps))
  {
  }

  /** A top-level expression becomes a function with the anonymous prototype (empty
      name, no parameters) and that expression as its body; it fails exactly when the
      expression does, with the expression's message. */
  lemma TopLevelExprWrapsAnon(input: seq<char>, ps: PState)
    requires Grammar.Valid(input, ps)
    ensures var e := ParseExpression(input, ps);
            var r := ParseTopLevelExpr(input, ps);
            && r.next == e.next
            && (r.res.Ok? <==> e.res.Ok?)
            && (r.res.Ok? ==> r.res.value == FunctionDef(Prototype("", []), e.res.value))
            && (r.res.Err? ==> r.res.msg == e.res.msg)
  {
  }

  /** After a failed definition, extern or top-level expression, the driver skips one
      token; after a success it does not. */
  lemma FailureSkipsOneToken(input: seq<char>, ps: PState)
    requires Grammar.Valid(input, ps) && ps.cur != TokEof
    ensures var h := Dispatch(input, ps);
            && (ps.cur == TokDef ==>
                  var d := ParseDefinition(input, ps);
                  h == if d.res.Ok? then Handled(ParsedDefinition(d.res.value), d.next)
                       else Handled(Failed(d.res.msg), GetNextToken(input, d.next)))
            && (ps.cur == TokExtern ==>
                  var x := ParseExtern(input, ps);
                  h == if x.res.Ok? then Handled(ParsedExtern(x.res.value), x.next)
                       else Handled(Failed(x.res.msg), GetNextToken(input, x.next)))
            && (ps.cur != TokDef && ps.cur != TokExtern ==>
                  var t := ParseTopLevelExpr(input, ps);
                  h == if t.res.Ok? then Handled(ParsedTopLevelExpr(t.res.value), t.next)
                       else Handled(Failed(t.res.msg), GetNextToken(input, t.next)))
  {
  }

  /** The driver only appends to what it has reported, and reports at most one construct
      per unit of the measure: every handled construct consumes input. */
  lemma {:induction false} MainLoopAppends(input: seq<char>, ps: PState, log: seq<TopLevel>)
    requires Grammar.Valid(input, ps)
    ensures var r := MainLoop(input, ps, log);
            |log| <= |r| <= |log| + Measure(input, ps) && r[..|log|] == log
    decreases Measure(input, ps)
  {
    if ps.cur == TokChar(';') {
      MainLoopAppends(input, GetNextToken(input, ps), log);
    } else if ps.cur != TokEof {
      var h := Dispatch(input, ps);
      assert MainLoop(input, ps, log) == MainLoop(input, h.next, log + [h.event]);
      MainLoopAppends(input, h.next, log + [h.event]);
      var r := MainLoop(input, h.next, log + [h.event]);
      assert r[..|log|] == (log + [h.event])[..|log|];
    }
  }

  /** The driver reports at most one construct per character of the input, plus one. */
  lemma RunLength(input: seq<char>)
    ensures |Run(input)| <= |input| + 1
  {
    assert Grammar.Valid(input, Start);
    MainLoopAppends(input, GetNextToken(input, Start), []);
  }
}
