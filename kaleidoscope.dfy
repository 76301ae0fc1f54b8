/** The lexer and parser of kaliedoscope.cpp as they run: the file's globals (the
    static `LastChar`, `IdentifierStr`, `NumVal`, `CurTok`) are the fields of one
    `Parser` object, and every function of the file that updates them is a method.
    Each method is proved to leave exactly the state, and return exactly the result,
    that the functions of modules Lexer and Grammar give for the state it started in. */
module Kaleidoscope {
  import opened Ast
  import opened Lexer
  import opened Grammar

  class Parser {
    /** The text getchar() reads. */
    const input: seq<char>
    /** How many characters getchar() has read. */
    var pos: nat
    var lastChar: LookAhead
    var identifierStr: string
    /** The lexeme of the last number, in place of `NumVal`. */
    var numStr: string
    var curTok: Token

    function Scanner(): LexState
      reads this
    {
      LexState(pos, lastChar, identifierStr, numStr)
    }

    function State(): PState
      reads this
    {
      PState(Scanner(), curTok)
    }

    ghost predicate Valid()
      reads this
    {
      Grammar.Valid(input, State())
    }

    /** A fresh parser over `text`, with the globals at their initial values. */
    constructor (text: seq<char>)
      ensures input == text && State() == Start && Valid()
    {
      input := text;
      pos := 0;
      lastChar := Chr(' ');
      identifierStr := "";
      numStr := "";
      curTok := TokChar('\0');
    }

    /** One read of the next character into LastChar (kaliedoscope.cpp:32). */
    method ReadChar()
      requires Valid()
      modifies this
      ensures Valid() && curTok == old(curTok)
      ensures Scanner() == Advance(input, old(Scanner()))
    {
      if pos < |input| {
        lastChar := Chr(input[pos]);
        pos := pos + 1;
      } else {
        lastChar := EndOfInput;
      }
    }

    /** gettok */
    method GetTok() returns (tok: Token)
      requires Valid()
      modifies this
      ensures Valid() && curTok == old(curTok)
      ensures Lexed(tok, Scanner()) == Lexer.GetTok(input, old(Scanner()))
      decreases Remaining(input, Scanner())
    {
      while lastChar.Chr? && IsSpace(lastChar.c)
        invariant Valid() && curTok == old(curTok)
        invariant SkipSpaces(input, Scanner()) == SkipSpaces(input, old(Scanner()))
        decreases Remaining(input, Scanner())
      {
        ReadChar();
      }
      ghost var s := Scanner();
      if lastChar.Chr? && IsAlpha(lastChar.c) {
        identifierStr := [lastChar.c];
        ReadChar();
        while lastChar.Chr? && IsAlnum(lastChar.c)
          invariant Valid() && curTok == old(curTok)
          invariant ScanIdent(input, Scanner()) == ScanIdent(input, Advance(input, s.(identifierStr := [s.last.c])))
          decreases Remaining(input, Scanner())
        {
          identifierStr := identifierStr + [lastChar.c];
          ReadChar();
        }
        if identifierStr == "def" {
          return TokDef;
        }
        if identifierStr == "extern" {
          return TokExtern;
        }
        return TokIdentifier;
      }
      if lastChar.Chr? && IsNumChar(lastChar.c) {
        // The source's do-while: the first test is known to hold.
        var num := "";
        while lastChar.Chr? && IsNumChar(lastChar.c)
          invariant Valid() && curTok == old(curTok)
          invariant ScanNumber(input, Scanner(), num) == ScanNumber(input, s, "")
          decreases Remaining(input, Scanner())
        {
          num := num + [lastChar.c];
          ReadChar();
        }
        numStr := num;
        return TokNumber;
      }
      if lastChar == Chr('#') {
        ReadChar();
        while lastChar.Chr? && !IsEol(lastChar.c)
          invariant Valid() && curTok == old(curTok)
          invariant SkipToEol(input, Scanner()) == SkipToEol(input, Advance(input, s))
          decreases Remaining(input, Scanner())
        {
          ReadChar();
        }
        if lastChar.Chr? {
          tok := GetTok();
          return;
        }
      }
      if lastChar == EndOfInput {
        return TokEof;
      }
      var thisChar := lastChar.c;
      ReadChar();
      return TokChar(thisChar);
    }

    /** getNextToken: the next token from the scanner becomes CurTok and is returned. */
    method GetNextToken() returns (tok: Token)
      requires Valid()
      modifies this
      ensures Valid() && tok == curTok
      ensures State() == Grammar.GetNextToken(input, old(State()))
    {
      curTok := GetTok();
      tok := curTok;
    }

    method ParseNumberExpr() returns (r: Result<Expr>)
      requires Valid() && curTok == TokNumber
      modifies this
      ensures Valid() && Step(r, State()) == Grammar.ParseNumberExpr(input, old(State()))
    {
      r := Ok(Number(numStr));
      var _ := GetNextToken();
    }

    method ParseParenExpr() returns (r: Result<Expr>)
      requires Valid() && curTok == TokChar('(')
      modifies this
      ensures Valid() && Step(r, State()) == Grammar.ParseParenExpr(input, old(State()))
      decreases Measure(input, State()), 1
    {
      var _ := GetNextToken();
      var v := ParseExpression();
      if v.Err? {
        return v;
      }
      if curTok != TokChar(')') {
        return Err("expected ')'");
      }
      var _ := GetNextToken();
      return v;
    }

    method ParseIdentifierExpr() returns (r: Result<Expr>)
      requires Valid() && curTok == TokIdentifier
      modifies this
      ensures Valid() && Step(r, State()) == Grammar.ParseIdentifierExpr(input, old(State()))
      decreases Measure(input, State()), 1
    {
      var idName := identifierStr;
      var _ := GetNextToken();
      if curTok != TokChar('(') {
        return Ok(Variable(idName));
      }
      var _ := GetNextToken();
      var args: seq<Expr> := [];
      if curTok != TokChar(')') {
        ghost var first := State();
        while true
          invariant Valid()
          invariant Measure(input, State()) < Measure(input, old(State()))
          invariant Grammar.ParseArgs(input, State(), args) == Grammar.ParseArgs(input, first, [])
          decreases Measure(input, State())
        {
          var arg := ParseExpression();
          if arg.Err? {
            return Err(arg.msg);
          }
          args := args + [arg.value];
          if curTok == TokChar(')') {
            break;
          }
          if curTok != TokChar(',') {
            return Err("Expected ')' or ',' in argument list");
          }
          var _ := GetNextToken();
        }
      }
      var _ := GetNextToken();
      return Ok(Call(idName, args));
    }

    method ParsePrimary() returns (r: Result<Expr>)
      requires Valid()
      modifies this
      ensures Valid() && Step(r, State()) == Grammar.ParsePrimary(input, old(State()))
      decreases Measure(input, State()), 2
    {
      if curTok == TokIdentifier {
        r := ParseIdentifierExpr();
      } else if curTok == TokNumber {
        r := ParseNumberExpr();
      } else if curTok == TokChar('(') {
        r := ParseParenExpr();
      } else {
        r := Err("Unkown token when expecting an expression");
      }
    }

    method ParseExpression() returns (r: Result<Expr>)
      requires Valid()
      modifies this
      ensures Valid() && Step(r, State()) == Grammar.ParseExpression(input, old(State()))
      decreases Measure(input, State()), 3
    {
      var lhs := ParsePrimary();
      if lhs.Err? {
        return lhs;
      }
      r := ParseBinOpRHS(0, lhs.value);
    }

    method ParseBinOpRHS(exprPrec: int, lhs0: Expr) returns (r: Result<Expr>)
      requires Valid() && 0 <= exprPrec
      modifies this
      ensures Valid()
      ensures Step(r, State()) == Grammar.ParseBinOpRHS(input, exprPrec, lhs0, old(State()))
      decreases Measure(input, State()), 0
    {
      var lhs := lhs0;
      while true
        invariant Valid()
        invariant Measure(input, State()) <= Measure(input, old(State()))
        invariant Grammar.ParseBinOpRHS(input, exprPrec, lhs, State())
               == Grammar.ParseBinOpRHS(input, exprPrec, lhs0, old(State()))
        decreases Measure(input, State())
      {
        var tokPrec := TokPrecedence(curTok);
        if tokPrec < exprPrec {
          return Ok(lhs);
        }
        var binOp := curTok.c;
        var _ := GetNextToken();
        var rhs := ParsePrimary();
        if rhs.Err? {
          return rhs;
        }
        var nextPrec := TokPrecedence(curTok);
        if tokPrec < nextPrec {
          rhs := ParseBinOpRHS(tokPrec + 1, rhs.value);
          if rhs.Err? {
            return rhs;
          }
        }
        lhs := Binary(binOp, lhs, rhs.value);
      }
    }

    method ParsePrototype() returns (r: Result<Prototype>)
      requires Valid()
      modifies this
      ensures Valid() && Step(r, State()) == Grammar.ParsePrototype(input, old(State()))
    {
      if curTok != TokIdentifier {
        return Err("Expected function name in prototype");
      }
      var fnName := identifierStr;
      var _ := GetNextToken();
      if curTok != TokChar('(') {
        return Err("Expected '(' in prototype");
      }
      ghost var open := State();
      var argNames: seq<string> := [];
      var tok := GetNextToken();
      while tok == TokIdentifier
        invariant Valid() && tok == curTok
        invariant ParamNames(input, State(), argNames)
               == ParamNames(input, Grammar.GetNextToken(input, open), [])
        decreases Measure(input, State())
      {
        argNames := argNames + [identifierStr];
        tok := GetNextToken();
      }
      if curTok != TokChar(')') {
        return Err("Expected ')' in prototype");
      }
      var _ := GetNextToken();
      return Ok(Prototype(fnName, argNames));
    }

    method ParseDefinition() returns (r: Result<FunctionDef>)
      requires Valid() && curTok == TokDef
      modifies this
      ensures Valid() && Step(r, State()) == Grammar.ParseDefinition(input, old(State()))
    {
      var _ := GetNextToken();
      var proto := ParsePrototype();
      if proto.Err? {
        return Err(proto.msg);
      }
      var e := ParseExpression();
      if e.Err? {
        return Err(e.msg);
      }
      return Ok(FunctionDef(proto.value, e.value));
    }

    method ParseExtern() returns (r: Result<Prototype>)
      requires Valid() && curTok == TokExtern
      modifies this
      ensures Valid() && Step(r, State()) == Grammar.ParseExtern(input, old(State()))
    {
      var _ := GetNextToken();
      r := ParsePrototype();
    }

    method ParseTopLevelExpr() returns (r: Result<FunctionDef>)
      requires Valid()
      modifies this
      ensures Valid() && Step(r, State()) == Grammar.ParseTopLevelExpr(input, old(State()))
    {
      var e := ParseExpression();
      if e.Err? {
        return Err(e.msg);
      }
      return Ok(FunctionDef(AnonProto, e.value));
    }

    method HandleDefinition() returns (event: TopLevel)
      requires Valid() && curTok == TokDef
      modifies this
      ensures Valid() && Handled(event, State()) == Grammar.HandleDefinition(input, old(State()))
    {
      var d := ParseDefinition();
      if d.Ok? {
        return ParsedDefinition(d.value);
      }
      var _ := GetNextToken();
      return Failed(d.msg);
    }

    method HandleExtern() returns (event: TopLevel)
      requires Valid() && curTok == TokExtern
      modifies this
      ensures Valid() && Handled(event, State()) == Grammar.HandleExtern(input, old(State()))
    {
      var x := ParseExtern();
      if x.Ok? {
        return ParsedExtern(x.value);
      }
      var _ := GetNextToken();
      return Failed(x.msg);
    }

    method HandleTopLevelExpression() returns (event: TopLevel)
      requires Valid() && curTok != TokEof
      modifies this
      ensures Valid()
      ensures Handled(event, State()) == Grammar.HandleTopLevelExpression(input, old(State()))
    {
      var t := ParseTopLevelExpr();
      if t.Ok? {
        return ParsedTopLevelExpr(t.value);
      }
      var _ := GetNextToken();
      return Failed(t.msg);
    }

    /** MainLoop, returning what each Handle* call reported, in order. */
    method MainLoop() returns (log: seq<TopLevel>)
      requires Valid()
      modifies this
      ensures Valid() && log == Grammar.MainLoop(input, old(State()), [])
    {
      log := [];
      while true
        invariant Valid()
        invariant Grammar.MainLoop(input, State(), log) == Grammar.MainLoop(input, old(State()), [])
        decreases Measure(input, State())
      {
        if curTok == TokEof {
          return;
        }
        if curTok == TokChar(';') {
          var _ := GetNextToken();
        } else {
          ghost var before := State();
          var event;
          if curTok == TokDef {
            event := HandleDefinition();
          } else if curTok == TokExtern {
            event := HandleExtern();
          } else {
            event := HandleTopLevelExpression();
          }
          assert Handled(event, State()) == Dispatch(input, before);
          log := log + [event];
        }
      }
    }

    /** `main` after it fills the precedence table: prime the first token, then run
        MainLoop. */
    method Run() returns (log: seq<TopLevel>)
      requires Valid() && State() == Start
      modifies this
      ensures log == Grammar.Run(input)
    {
      var _ := GetNextToken();
      log := MainLoop();
    }
  }
}
