/** The scanner of kaliedoscope.cpp (`gettok`), as functions over the whole input text.
    getchar() becomes a read of `input` at a cursor `pos`; it yields EOF once the cursor
    has reached the end, and keeps yielding EOF from then on. */
module Lexer {

  /** The value of the one-character pushback buffer `LastChar`: a character of the
      input, or EOF. */
  datatype LookAhead = Chr(c: char) | EndOfInput

  /** The codes gettok returns: the five negative enumerators of `Token`, or a raw
      character returned as its own token. */
  datatype Token = TokEof | TokDef | TokExtern | TokIdentifier | TokNumber | TokChar(c: char)

  /** What gettok reads and updates besides the text itself: getchar's cursor, the
      static `LastChar`, the global `IdentifierStr`, and the numeric lexeme that stands
      in for the global `NumVal`. */
  datatype LexState = LexState(pos: nat, last: LookAhead, identifierStr: string, numStr: string)

  /** A token together with the scanner state gettok leaves behind. */
  datatype Lexed = Lexed(tok: Token, next: LexState)

  // Character classes of the C locale: isspace, isalpha, isdigit, isalnum.
  predicate IsSpace(c: char) { c == ' ' || '\t' <= c <= '\r' }
  predicate IsAlpha(c: char) { 'a' <= c <= 'z' || 'A' <= c <= 'Z' }
  predicate IsDigit(c: char) { '0' <= c <= '9' }
  predicate IsAlnum(c: char) { IsAlpha(c) || IsDigit(c) }
  /** A character the number loop accepts: a digit or a decimal point. */
  predicate IsNumChar(c: char) { IsDigit(c) || c == '.' }
  /** A character that ends a comment. */
  predicate IsEol(c: char) { c == '\n' || c == '\r' }

  /** The scanner before its first call (kaliedoscope.cpp:28): LastChar starts as a space,
      and nothing has been read. */
  const Initial: LexState := LexState(0, Chr(' '), "", "")

  /** The cursor is within the text, and LastChar is EOF only once the text is used up. */
  predicate Valid(input: seq<char>, st: LexState) {
    st.pos <= |input| && (st.last == EndOfInput ==> st.pos == |input|)
  }

  /** The text gettok has not yet consumed: LastChar, then what getchar has not read. */
  function Pending(input: seq<char>, st: LexState): (p: seq<char>)
    requires Valid(input, st)
    ensures p == [] <==> st.last == EndOfInput
    ensures st.last.Chr? ==> p[0] == st.last.c
  {
    (if st.last.Chr? then [st.last.c] else []) + input[st.pos..]
  }

  /** The length of the pending text, which every loop of gettok and every recursive
      call shortens. */
  function Remaining(input: seq<char>, st: LexState): nat
    requires Valid(input, st)
  {
    (if st.last.Chr? then 1 else 0) + (|input| - st.pos)
  }

  /** One read into LastChar (kaliedoscope.cpp:32): the pending text loses its first
      character. */
  function Advance(input: seq<char>, st: LexState): (r: LexState)
    requires Valid(input, st)
    ensures Valid(input, r)
    ensures st.last.Chr? ==> Remaining(input, r) == Remaining(input, st) - 1
    ensures st.last == EndOfInput ==> r == st
  {
    if st.pos < |input| then st.(pos := st.pos + 1, last := Chr(input[st.pos]))
    else st.(last := EndOfInput)
  }

  /** The white-space loop (kaliedoscope.cpp:31-33): read on while LastChar is a space. */
  function SkipSpaces(input: seq<char>, st: LexState): (r: LexState)
    requires Valid(input, st)
    ensures Valid(input, r)
    ensures r.identifierStr == st.identifierStr && r.numStr == st.numStr
    ensures Remaining(input, r) <= Remaining(input, st)
    ensures !(r.last.Chr? && IsSpace(r.last.c))
    decreases Remaining(input, st)
  {
    if st.last.Chr? && IsSpace(st.last.c) then SkipSpaces(input, Advance(input, st)) else st
  }

  /** The identifier loop (kaliedoscope.cpp:38-40), entered just after a read: while
      LastChar is alphanumeric, append it to IdentifierStr and read the next one. */
  function ScanIdent(input: seq<char>, st: LexState): (r: LexState)
    requires Valid(input, st)
    ensures Valid(input, r)
    ensures r.numStr == st.numStr
    ensures Remaining(input, r) <= Remaining(input, st)
    ensures !(r.last.Chr? && IsAlnum(r.last.c))
    decreases Remaining(input, st)
  {
    if st.last.Chr? && IsAlnum(st.last.c) then
      ScanIdent(input, Advance(input, st.(identifierStr := st.identifierStr + [st.last.c])))
    else st
  }

  /** The do-while loop that collects `NumStr`: while LastChar is a digit or '.', append
      it to `num` and read the next one. Returns the lexeme and the new state. */
  function ScanNumber(input: seq<char>, st: LexState, num: string): (r: (string, LexState))
    requires Valid(input, st)
    ensures Valid(input, r.1)
    ensures r.1.identifierStr == st.identifierStr && r.1.numStr == st.numStr
    ensures Remaining(input, r.1) <= Remaining(input, st)
    ensures !(r.1.last.Chr? && IsNumChar(r.1.last.c))
    decreases Remaining(input, st)
  {
    if st.last.Chr? && IsNumChar(st.last.c) then
      ScanNumber(input, Advance(input, st), num + [st.last.c])
    else (num, st)
  }

  /** The comment loop after its first getchar: read until EOF, '\n' or '\r'. */
  function SkipToEol(input: seq<char>, st: LexState): (r: LexState)
    requires Valid(input, st)
    ensures Valid(input, r)
    ensures r.identifierStr == st.identifierStr && r.numStr == st.numStr
    ensures Remaining(input, r) <= Remaining(input, st)
    ensures r.last == EndOfInput || IsEol(r.last.c)
    decreases Remaining(input, st)
  {
    if st.last.Chr? && !IsEol(st.last.c) then SkipToEol(input, Advance(input, st)) else st
  }

  /** Exactly "def" and "extern" are keywords; every other identifier is an identifier. */
  function KeywordOr(id: string): Token {
    if id == "def" then TokDef else if id == "extern" then TokExtern else TokIdentifier
  }

  /** gettok: skip white space, then scan an identifier or keyword, a number, a comment
      (and go on with the token after it), EOF, or a single character.
      Every token other than EOF consumes at least one character, and EOF is returned
      only when nothing is left. */
  function GetTok(input: seq<char>, st: LexState): (r: Lexed)
    requires Valid(input, st)
    ensures Valid(input, r.next)
    ensures Remaining(input, r.next) <= Remaining(input, st)
    ensures r.tok != TokEof ==> Remaining(input, r.next) < Remaining(input, st)
    ensures r.tok == TokEof ==> r.next.last == EndOfInput
    decreases Remaining(input, st)
  {
    var s := SkipSpaces(input, st);
    if s.last.Chr? && IsAlpha(s.last.c) then
      var t := ScanIdent(input, Advance(input, s.(identifierStr := [s.last.c])));
      Lexed(KeywordOr(t.identifierStr), t)
    else if s.last.Chr? && IsNumChar(s.last.c) then
      var (num, t) := ScanNumber(input, s, "");
      Lexed(TokNumber, t.(numStr := num))
    else if s.last == Chr('#') then
      var t := SkipToEol(input, Advance(input, s));
      if t.last.Chr? then GetTok(input, t) else Lexed(TokEof, t)
    else if s.last == EndOfInput then
      Lexed(TokEof, s)
    else
      Lexed(TokChar(s.last.c), Advance(input, s))
  }
}
