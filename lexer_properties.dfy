/** What gettok promises, stated on the text it has not yet consumed (`Pending`): white
    space is skipped, identifiers and numbers are maximal runs, keywords are exact
    matches, comments produce no token, any other character is a token of its own, and
    EOF repeats once reached. */
module LexerProperties {
  import opened Lexer

  predicate AllSpace(s: seq<char>) { forall i :: 0 <= i < |s| ==> IsSpace(s[i]) }
  predicate AllAlnum(s: seq<char>) { forall i :: 0 <= i < |s| ==> IsAlnum(s[i]) }
  predicate AllNumChar(s: seq<char>) { forall i :: 0 <= i < |s| ==> IsNumChar(s[i]) }
  predicate NoEol(s: seq<char>) { forall i :: 0 <= i < |s| ==> !IsEol(s[i]) }

  /** A letter followed by letters and digits. */
  predicate IsIdentifier(s: seq<char>) { |s| > 0 && IsAlpha(s[0]) && AllAlnum(s[1..]) }

  /** An identifier that is not one of the two keywords. */
  predicate IsName(s: seq<char>) { IsIdentifier(s) && s != "def" && s != "extern" }

  /** A lexeme of tok_number: one or more digits and points. */
  predicate IsNumeral(s: seq<char>) { s != [] && AllNumChar(s) }

  /** A character gettok returns as a token of its own. */
  predicate IsOtherChar(c: char) { !IsSpace(c) && !IsAlpha(c) && !IsNumChar(c) && c != '#' }

  lemma Uncons(a: seq<char>, b: seq<char>)
    requires a != []
    ensures a + b == [a[0]] + (a[1..] + b)
  {
    assert a == [a[0]] + a[1..];
  }

  lemma AppendFirst(a: seq<char>, run: seq<char>)
    requires run != []
    ensures a + [run[0]] + run[1..] == a + run
  {
    assert run == [run[0]] + run[1..];
  }

  /** getchar: the pending text loses its first character. */
  lemma AdvanceDrops(input: seq<char>, st: LexState)
    requires Valid(input, st) && st.last.Chr?
    ensures Pending(input, Advance(input, st)) == Pending(input, st)[1..]
  {
    if st.pos < |input| {
      assert input[st.pos..] == [input[st.pos]] + input[st.pos + 1..];
    }
  }

  /** Reading past one known character of the pending text leaves the rest. */
  lemma AdvancePast(input: seq<char>, st: LexState, x: char, tail: seq<char>)
    requires Valid(input, st) && Pending(input, st) == [x] + tail
    ensures st.last == Chr(x)
    ensures Pending(input, Advance(input, st)) == tail
  {
    AdvanceDrops(input, st);
    assert ([x] + tail)[1..] == tail;
  }

  /** Over one input, the pending text and the two strings determine the scanner state. */
  lemma PendingDeterminesState(input: seq<char>, a: LexState, b: LexState)
    requires Valid(input, a) && Valid(input, b)
    requires Pending(input, a) == Pending(input, b)
    requires a.identifierStr == b.identifierStr && a.numStr == b.numStr
    ensures a == b
  {
    assert a.last.Chr? == b.last.Chr?;
    if a.last.Chr? {
      assert a.last.c == Pending(input, a)[0] == b.last.c;
      assert |input| - a.pos == |input| - b.pos;
    }
  }

  /** The space loop drops exactly a leading run of white space. */
  lemma {:induction false} SkipSpacesDrops(input: seq<char>, st: LexState, ws: seq<char>, rest: seq<char>)
    requires Valid(input, st) && Pending(input, st) == ws + rest
    requires AllSpace(ws) && (rest == [] || !IsSpace(rest[0]))
    ensures Pending(input, SkipSpaces(input, st)) == rest
    decreases |ws|
  {
    if ws == [] {
      assert Pending(input, st) == rest;
    } else {
      Uncons(ws, rest);
      AdvancePast(input, st, ws[0], ws[1..] + rest);
      SkipSpacesDrops(input, Advance(input, st), ws[1..], rest);
    }
  }

  /** The identifier loop appends exactly a maximal run of alphanumerics. */
  lemma {:induction false} ScanIdentTakes(input: seq<char>, st: LexState, run: seq<char>, rest: seq<char>)
    requires Valid(input, st) && Pending(input, st) == run + rest
    requires AllAlnum(run) && (rest == [] || !IsAlnum(rest[0]))
    ensures Pending(input, ScanIdent(input, st)) == rest
    ensures ScanIdent(input, st).identifierStr == st.identifierStr + run
    decreases |run|
  {
    if run == [] {
      assert Pending(input, st) == rest;
      assert st.identifierStr + run == st.identifierStr;
    } else {
      Uncons(run, rest);
      var st' := st.(identifierStr := st.identifierStr + [run[0]]);
      AdvancePast(input, st', run[0], run[1..] + rest);
      ScanIdentTakes(input, Advance(input, st'), run[1..], rest);
      AppendFirst(st.identifierStr, run);
    }
  }

  /** The number loop appends exactly a maximal run of digits and points. */
  lemma {:induction false} ScanNumberTakes(input: seq<char>, st: LexState, num: string, run: seq<char>, rest: seq<char>)
    requires Valid(input, st) && Pending(input, st) == run + rest
    requires AllNumChar(run) && (rest == [] || !IsNumChar(rest[0]))
    ensures Pending(input, ScanNumber(input, st, num).1) == rest
    ensures ScanNumber(input, st, num).0 == num + run
    decreases |run|
  {
    if run == [] {
      assert Pending(input, st) == rest;
      assert num + run == num;
    } else {
      Uncons(run, rest);
      AdvancePast(input, st, run[0], run[1..] + rest);
      ScanNumberTakes(input, Advance(input, st), num + [run[0]], run[1..], rest);
      AppendFirst(num, run);
    }
  }

  /** The comment loop drops exactly the text before the next end of line. */
  lemma {:induction false} SkipToEolDrops(input: seq<char>, st: LexState, body: seq<char>, rest: seq<char>)
    requires Valid(input, st) && Pending(input, st) == body + rest
    requires NoEol(body) && (rest == [] || IsEol(rest[0]))
    ensures Pending(input, SkipToEol(input, st)) == rest
    decreases |body|
  {
    if body == [] {
      assert Pending(input, st) == rest;
    } else {
      Uncons(body, rest);
      AdvancePast(input, st, body[0], body[1..] + rest);
      SkipToEolDrops(input, Advance(input, st), body[1..], rest);
    }
  }

  // The branches of gettok once white space is skipped, one lemma each.

  lemma IdentifierBranch(input: seq<char>, st: LexState)
    requires Valid(input, st)
    requires SkipSpaces(input, st).last.Chr? && IsAlpha(SkipSpaces(input, st).last.c)
    ensures var s := SkipSpaces(input, st);
            var t := ScanIdent(input, Advance(input, s.(identifierStr := [s.last.c])));
            GetTok(input, st) == Lexed(KeywordOr(t.identifierStr), t)
  {
    var s := SkipSpaces(input, st);
    assert IsAlpha(s.last.c);
  }

  lemma NumberBranch(input: seq<char>, st: LexState)
    requires Valid(input, st)
    requires SkipSpaces(input, st).last.Chr? && IsNumChar(SkipSpaces(input, st).last.c)
    ensures var r := ScanNumber(input, SkipSpaces(input, st), "");
            GetTok(input, st) == Lexed(TokNumber, r.1.(numStr := r.0))
  {
    assert !IsAlpha(SkipSpaces(input, st).last.c);
  }

  lemma CommentBranch(input: seq<char>, st: LexState)
    requires Valid(input, st)
    requires SkipSpaces(input, st).last == Chr('#')
    ensures var t := SkipToEol(input, Advance(input, SkipSpaces(input, st)));
            GetTok(input, st) == if t.last.Chr? then GetTok(input, t) else Lexed(TokEof, t)
  {
    assert !IsAlpha('#') && !IsNumChar('#');
  }

  /** After optional white space, a maximal run `[a-zA-Z][a-zA-Z0-9]*` is one token:
      tok_def for exactly "def", tok_extern for exactly "extern", tok_identifier for any
      other run; IdentifierStr holds the run, and the character after it is not consumed. */
  lemma LexIdentifier(input: seq<char>, st: LexState, ws: seq<char>, id: seq<char>, rest: seq<char>)
    requires Valid(input, st) && Pending(input, st) == ws + (id + rest)
    requires AllSpace(ws) && IsIdentifier(id) && (rest == [] || !IsAlnum(rest[0]))
    ensures GetTok(input, st).tok
         == (if id == "def" then TokDef else if id == "extern" then TokExtern else TokIdentifier)
    ensures GetTok(input, st).next.identifierStr == id
    ensures GetTok(input, st).next.numStr == st.numStr
    ensures Pending(input, GetTok(input, st).next) == rest
  {
    SkipSpacesDrops(input, st, ws, id + rest);
    var s := SkipSpaces(input, st);
    Uncons(id, rest);
    var s' := s.(identifierStr := [id[0]]);
    AdvancePast(input, s', id[0], id[1..] + rest);
    ScanIdentTakes(input, Advance(input, s'), id[1..], rest);
    AppendFirst([], id);
    assert [] + [id[0]] == [id[0]];
    var t := ScanIdent(input, Advance(input, s'));
    assert t.identifierStr == id;
    IdentifierBranch(input, st);
  }

  /** After optional white space, a maximal run of digits and '.' is one tok_number whose
      lexeme is the run, however many points it holds; IdentifierStr is untouched. */
  lemma LexNumber(input: seq<char>, st: LexState, ws: seq<char>, num: seq<char>, rest: seq<char>)
    requires Valid(input, st) && Pending(input, st) == ws + (num + rest)
    requires AllSpace(ws) && num != [] && AllNumChar(num) && (rest == [] || !IsNumChar(rest[0]))
    ensures GetTok(input, st).tok == TokNumber
    ensures GetTok(input, st).next.numStr == num
    ensures GetTok(input, st).next.identifierStr == st.identifierStr
    ensures Pending(input, GetTok(input, st).next) == rest
  {
    SkipSpacesDrops(input, st, ws, num + rest);
    var s := SkipSpaces(input, st);
    assert Pending(input, s)[0] == num[0];
    ScanNumberTakes(input, s, "", num, rest);
    assert "" + num == num;
    NumberBranch(input, st);
  }

  /** gettok returns the same token whether or not one leading space is still pending. */
  lemma SpaceSkipped(input: seq<char>, st: LexState)
    requires Valid(input, st) && st.last.Chr? && IsSpace(st.last.c)
    ensures GetTok(input, st) == GetTok(input, Advance(input, st))
  {
    assert SkipSpaces(input, st) == SkipSpaces(input, Advance(input, st));
  }

  /** A comment running to an end of line yields no token: gettok then returns what it
      returns on the text after the end of line. */
  lemma LexCommentSkipped(input: seq<char>, st: LexState, ws: seq<char>, body: seq<char>, eol: char,
                          rest: seq<char>, after: LexState)
    requires Valid(input, st) && Pending(input, st) == ws + (['#'] + (body + ([eol] + rest)))
    requires AllSpace(ws) && NoEol(body) && IsEol(eol)
    requires Valid(input, after) && Pending(input, after) == rest
    requires after.identifierStr == st.identifierStr && after.numStr == st.numStr
    ensures GetTok(input, st) == GetTok(input, after)
  {
    SkipSpacesDrops(input, st, ws, ['#'] + (body + ([eol] + rest)));
    var s := SkipSpaces(input, st);
    AdvancePast(input, s, '#', body + ([eol] + rest));
    SkipToEolDrops(input, Advance(input, s), body, [eol] + rest);
    var t := SkipToEol(input, Advance(input, s));
    AdvancePast(input, t, eol, rest);
    CommentBranch(input, st);
    SpaceSkipped(input, t);
    PendingDeterminesState(input, Advance(input, t), after);
  }

  /** A comment that runs to the end of the input is followed by tok_eof. */
  lemma LexCommentAtEnd(input: seq<char>, st: LexState, ws: seq<char>, body: seq<char>)
    requires Valid(input, st) && Pending(input, st) == ws + (['#'] + body)
    requires AllSpace(ws) && NoEol(body)
    ensures GetTok(input, st).tok == TokEof
  {
    SkipSpacesDrops(input, st, ws, ['#'] + body);
    var s := SkipSpaces(input, st);
    AdvancePast(input, s, '#', body);
    assert body + [] == body;
    SkipToEolDrops(input, Advance(input, s), body, []);
    CommentBranch(input, st);
  }

  /** Any other character is returned as its own token, and exactly that character is
      consumed. */
  lemma LexOtherChar(input: seq<char>, st: LexState, ws: seq<char>, c: char, rest: seq<char>)
    requires Valid(input, st) && Pending(input, st) == ws + ([c] + rest)
    requires AllSpace(ws) && IsOtherChar(c)
    ensures GetTok(input, st).tok == TokChar(c)
    ensures Pending(input, GetTok(input, st).next) == rest
    ensures GetTok(input, st).next.identifierStr == st.identifierStr
    ensures GetTok(input, st).next.numStr == st.numStr
  {
    SkipSpacesDrops(input, st, ws, [c] + rest);
    AdvancePast(input, SkipSpaces(input, st), c, rest);
  }

  /** Nothing but white space left: tok_eof, with everything consumed. */
  lemma LexEndOfInput(input: seq<char>, st: LexState, ws: seq<char>)
    requires Valid(input, st) && Pending(input, st) == ws && AllSpace(ws)
    ensures GetTok(input, st).tok == TokEof
    ensures Pending(input, GetTok(input, st).next) == []
  {
    assert ws == ws + [];
    SkipSpacesDrops(input, st, ws, []);
  }

  /** With LastChar at EOF, gettok returns tok_eof and changes nothing. */
  lemma AtEndOfInput(input: seq<char>, s: LexState)
    requires Valid(input, s) && s.last == EndOfInput
    ensures GetTok(input, s) == Lexed(TokEof, s)
  {
    assert SkipSpaces(input, s) == s;
  }

  /** Once gettok has returned tok_eof, every later call returns tok_eof again and
      changes nothing. */
  lemma EofIsSticky(input: seq<char>, st: LexState)
    requires Valid(input, st) && GetTok(input, st).tok == TokEof
    ensures GetTok(input, GetTok(input, st).next) == Lexed(TokEof, GetTok(input, st).next)
  {
    AtEndOfInput(input, GetTok(input, st).next);
  }

  /** Appending alphanumerics to an identifier keeps it an identifier. */
  lemma {:induction false} ScanIdentKeepsIdentifier(input: seq<char>, st: LexState)
    requires Valid(input, st) && IsIdentifier(st.identifierStr)
    ensures IsIdentifier(ScanIdent(input, st).identifierStr)
    decreases Remaining(input, st)
  {
    if st.last.Chr? && IsAlnum(st.last.c) {
      var id := st.identifierStr;
      assert (id + [st.last.c])[1..] == id[1..] + [st.last.c];
      var st' := st.(identifierStr := id + [st.last.c]);
      ScanIdentKeepsIdentifier(input, Advance(input, st'));
    }
  }

  /** The number loop only ever appends digits and points. */
  lemma {:induction false} ScanNumberKeepsNumChars(input: seq<char>, st: LexState, num: string)
    requires Valid(input, st) && AllNumChar(num)
    ensures AllNumChar(ScanNumber(input, st, num).0)
    ensures |ScanNumber(input, st, num).0| >= |num|
    decreases Remaining(input, st)
  {
    if st.last.Chr? && IsNumChar(st.last.c) {
      ScanNumberKeepsNumChars(input, Advance(input, st), num + [st.last.c]);
    }
  }

  lemma IdentifierLexeme(input: seq<char>, st: LexState)
    requires Valid(input, st)
    requires SkipSpaces(input, st).last.Chr? && IsAlpha(SkipSpaces(input, st).last.c)
    ensures GetTok(input, st).tok == TokIdentifier ==> IsName(GetTok(input, st).next.identifierStr)
  {
    var s := SkipSpaces(input, st);
    var s' := s.(identifierStr := [s.last.c]);
    ScanIdentKeepsIdentifier(input, Advance(input, s'));
    IdentifierBranch(input, st);
  }

  lemma FirstNumChar(input: seq<char>, s: LexState)
    requires Valid(input, s) && s.last.Chr? && IsNumChar(s.last.c)
    ensures IsNumeral(ScanNumber(input, s, "").0)
  {
    var c := s.last.c;
    ScanNumberKeepsNumChars(input, Advance(input, s), [c]);
    assert "" + [c] == [c];
  }

  lemma NumberLexeme(input: seq<char>, st: LexState)
    requires Valid(input, st)
    requires SkipSpaces(input, st).last.Chr? && IsNumChar(SkipSpaces(input, st).last.c)
    ensures GetTok(input, st).tok == TokNumber && IsNumeral(GetTok(input, st).next.numStr)
  {
    var s := SkipSpaces(input, st);
    NumberBranch(input, st);
    FirstNumChar(input, s);
  }

  /** What the globals hold beside each token gettok returns: after tok_identifier,
      IdentifierStr is an identifier other than a keyword; after tok_number, the lexeme is
      a non-empty run of digits and points; a character token is none of white space,
      letter, digit, '.' or '#'. */
  lemma {:induction false} TokenLexemes(input: seq<char>, st: LexState)
    requires Valid(input, st)
    ensures var r := GetTok(input, st);
            && (r.tok == TokIdentifier ==> IsName(r.next.identifierStr))
            && (r.tok == TokNumber ==> IsNumeral(r.next.numStr))
            && (r.tok.TokChar? ==> IsOtherChar(r.tok.c))
    decreases Remaining(input, st)
  {
    var s := SkipSpaces(input, st);
    if s.last.Chr? && IsAlpha(s.last.c) {
      IdentifierLexeme(input, st);
      IdentifierBranch(input, st);
    } else if s.last.Chr? && IsNumChar(s.last.c) {
      NumberLexeme(input, st);
    } else if s.last == Chr('#') {
      CommentBranch(input, st);
      var t := SkipToEol(input, Advance(input, s));
      if t.last.Chr? {
        TokenLexemes(input, t);
      }
    }
  }
}
