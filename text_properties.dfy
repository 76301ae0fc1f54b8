/** The scanner and the parser together, on text: what ParsePrototype makes of a name,
    '(' and space-separated parameter names followed by ')'. */
module TextProperties {
  import opened Ast
  import opened Lexer
  import opened LexerProperties
  import opened Grammar

  /** Parameter names written out, each after one space: " a b c". */
  function Spaced(ns: seq<string>): seq<char> {
    if ns == [] then [] else [' '] + (ns[0] + Spaced(ns[1..]))
  }

  /** Every element is an identifier other than the two keywords. */
  predicate AllNames(ns: seq<string>) {
    forall i :: 0 <= i < |ns| ==> IsName(ns[i])
  }

  /** The next token of pending text ")…" is ')', and the text after it stays pending. */
  lemma CloseParenToken(input: seq<char>, ps: PState, rest: seq<char>)
    requires Grammar.Valid(input, ps) && Pending(input, ps.lex) == [')'] + rest
    ensures GetNextToken(input, ps).cur == TokChar(')')
    ensures Pending(input, GetNextToken(input, ps).lex) == rest
  {
    assert Pending(input, ps.lex) == [] + ([')'] + rest);
    LexOtherChar(input, ps.lex, [], ')', rest);
  }

  /** The next token of pending text " name…" is that name, when no letter or digit
      follows it. */
  lemma NameToken(input: seq<char>, ps: PState, n: string, tail: seq<char>)
    requires Grammar.Valid(input, ps) && Pending(input, ps.lex) == [' '] + (n + tail)
    requires IsName(n) && (tail == [] || !IsAlnum(tail[0]))
    ensures GetNextToken(input, ps).cur == TokIdentifier
    ensures GetNextToken(input, ps).lex.identifierStr == n
    ensures Pending(input, GetNextToken(input, ps).lex) == tail
  {
    assert AllSpace([' ']);
    LexIdentifier(input, ps.lex, [' '], n, tail);
  }

  /** Spaced text, then ")…", starts with a space or ')' and splits after its first name. */
  lemma SpacedThenClose(ns: seq<string>, rest: seq<char>)
    requires ns != []
    ensures var tail := Spaced(ns[1..]) + ([')'] + rest);
            && Spaced(ns) + ([')'] + rest) == [' '] + (ns[0] + tail)
            && (tail[0] == ' ' || tail[0] == ')')
  {
  }

  lemma AllNamesTail(ns: seq<string>)
    requires ns != [] && AllNames(ns)
    ensures IsName(ns[0]) && AllNames(ns[1..])
  {
    forall i | 0 <= i < |ns[1..]| ensures IsName(ns[1..][i]) {
      assert ns[1..][i] == ns[i + 1];
    }
  }

  /** Pending ")…": the parameter loop collects nothing and stops on ')'. */
  lemma ParamNamesAtClose(input: seq<char>, ps: PState, names: seq<string>, rest: seq<char>)
    requires Grammar.Valid(input, ps) && Pending(input, ps.lex) == [')'] + rest
    ensures var ps' := GetNextToken(input, ps);
            ParamNames(input, ps', names) == (names, ps') && ps'.cur == TokChar(')')
            && Pending(input, ps'.lex) == rest
  {
    CloseParenToken(input, ps, rest);
  }

  /** Pending " name…" before more names or ')': the name is collected, and the loop
      goes on with the text after it. */
  lemma ParamNamesAtName(input: seq<char>, ps: PState, names: seq<string>, ns: seq<string>,
                         rest: seq<char>)
    requires Grammar.Valid(input, ps) && Pending(input, ps.lex) == Spaced(ns) + ([')'] + rest)
    requires ns != [] && AllNames(ns)
    ensures var ps' := GetNextToken(input, ps);
            && Grammar.Valid(input, ps') && AllNames(ns[1..])
            && Pending(input, ps'.lex) == Spaced(ns[1..]) + ([')'] + rest)
            && ParamNames(input, ps', names) == ParamNames(input, GetNextToken(input, ps'), names + [ns[0]])
  {
    SpacedThenClose(ns, rest);
    AllNamesTail(ns);
    NameToken(input, ps, ns[0], Spaced(ns[1..]) + ([')'] + rest));
  }

  lemma AppendFirstName(names: seq<string>, ns: seq<string>)
    requires ns != []
    ensures names + [ns[0]] + ns[1..] == names + ns
  {
    assert ns == [ns[0]] + ns[1..];
  }

  /** With the text " a b c)" and more pending, the parameter loop collects exactly the
      names a, b and c, in order, stops on ')' and leaves the text after ')' pending. */
  lemma {:induction false} ParamNamesFromText(input: seq<char>, ps: PState, names: seq<string>,
                                               ns: seq<string>, rest: seq<char>)
    requires Grammar.Valid(input, ps) && Pending(input, ps.lex) == Spaced(ns) + ([')'] + rest)
    requires AllNames(ns)
    ensures var r := ParamNames(input, GetNextToken(input, ps), names);
            r.0 == names + ns && r.1.cur == TokChar(')') && Pending(input, r.1.lex) == rest
    decreases |ns|
  {
    if ns == [] {
      assert Spaced(ns) == [];
      ParamNamesAtClose(input, ps, names, rest);
      assert names + ns == names;
    } else {
      ParamNamesAtName(input, ps, names, ns, rest);
      ParamNamesFromText(input, GetNextToken(input, ps), names + [ns[0]], ns[1..], rest);
      AppendFirstName(names, ns);
    }
  }

  /** A prototype written as text, `name( a b c)` followed by `rest`, parses to the
      prototype with that name and those parameters, and leaves in CurTok the first token
      of `rest`, read from a state whose pending text is exactly `rest`. */
  lemma PrototypeFromText(input: seq<char>, ps: PState, ws: seq<char>, name: string,
                          ns: seq<string>, rest: seq<char>)
    requires Grammar.Valid(input, ps)
    requires Pending(input, ps.lex) == ws + (name + (['('] + (Spaced(ns) + ([')'] + rest))))
    requires AllSpace(ws) && IsName(name) && AllNames(ns)
    ensures var r := ParsePrototype(input, GetNextToken(input, ps));
            && r.res == Ok(Prototype(name, ns))
            && exists q :: Grammar.Valid(input, q) && q.cur == TokChar(')')
                           && Pending(input, q.lex) == rest && r.next == GetNextToken(input, q)
  {
    var params := Spaced(ns) + ([')'] + rest);
    LexIdentifier(input, ps.lex, ws, name, ['('] + params);
    var ps1 := GetNextToken(input, ps);
    assert ps1.cur == TokIdentifier && ps1.lex.identifierStr == name;
    assert Pending(input, ps1.lex) == [] + (['('] + params);
    LexOtherChar(input, ps1.lex, [], '(', params);
    var ps2 := GetNextToken(input, ps1);
    assert ps2.cur == TokChar('(');
    ParamNamesFromText(input, ps2, [], ns, rest);
    var q := ParamNames(input, GetNextToken(input, ps2), []).1;
    assert [] + ns == ns;
    assert Grammar.Valid(input, q) && Pending(input, q.lex) == rest;
  }
}
