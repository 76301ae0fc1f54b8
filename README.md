# Kaleidoscope front end in Dafny

This project models the lexer and the recursive-descent parser of `kaliedoscope.cpp`,
the front end of the Kaleidoscope toy language. The lexer (`gettok`) turns characters
into tokens: identifiers, the keywords `def` and `extern`, numbers, single-character
tokens and end of input. It skips white space and `#` comments. The parser reads one
token ahead (`CurTok`, advanced by `getNextToken`) and builds expression, prototype and
function nodes. It climbs operator precedence over the table `<` 10, `+` 20, `-` 20,
`*` 40.

The model has two layers:

- **Specification.** Modules `Lexer` and `Grammar` state every C++ function as a Dafny
  function of the input text and the parser state. The state holds getchar's cursor,
  `LastChar`, `IdentifierStr`, the numeric lexeme and `CurTok`. Each result is a node
  or an error carrying the C++ message verbatim, together with the new state. The
  termination measure is the number of characters not yet consumed, plus one while
  `CurTok` is not EOF. Every token other than EOF strictly decreases it.
- **Implementation.** Module `Kaleidoscope` is the program as it runs: a class `Parser`
  whose fields are the file's globals. Each C++ function that updates them becomes a
  method with the same loops and branches. Each method is proved to return exactly the
  result, and to leave exactly the state, that the specification gives.

Four modules hold the proofs:

- `LexerProperties` covers the lexer on the text still to be read: maximal munch,
  keywords, comments, single characters and sticky EOF.
- `GrammarProperties` covers precedence and associativity, the tokens that start an
  expression, how failures propagate, the order of the prototype checks, and the driver.
- `TextProperties` runs the lexer and the parser together on text: a prototype written
  `name( a b c)` parses to that name and those parameters, in order.
- `WellFormedness` shows that every node the parser reports is built only from
  numerals, non-keyword identifiers and operators of the table.

Files: `ast.dfy`, `lexer.dfy`, `grammar.dfy`, `kaleidoscope.dfy`,
`lexer_properties.dfy`, `grammar_properties.dfy`, `text_properties.dfy`, `wellformed.dfy`.

## Model

| member | source | states |
|---|---|---|
| Lexer.Advance | kaliedoscope.cpp:32 | getchar reads one more character into LastChar; at EOF nothing changes |
| Lexer.SkipSpaces | kaliedoscope.cpp:31-33 | afterwards LastChar is not white space; IdentifierStr and the lexeme are untouched |
| Lexer.ScanIdent | kaliedoscope.cpp:37-40 | the identifier loop stops at the first character that is not alphanumeric |
| Lexer.ScanNumber | kaliedoscope.cpp:52-55 | the number loop stops at the first character that is neither a digit nor '.' |
| Lexer.SkipToEol | kaliedoscope.cpp:61-63 | the comment loop stops at EOF, '\n' or '\r' |
| Lexer.GetTok | kaliedoscope.cpp:27-76 | every token but tok_eof consumes at least one character; tok_eof comes only when LastChar is EOF |
| LexerProperties.AdvanceDrops | kaliedoscope.cpp:32 | getchar removes exactly the first character of the pending text |
| LexerProperties.SkipSpacesDrops | kaliedoscope.cpp:31-33 | the space loop drops exactly the leading run of white space |
| LexerProperties.ScanIdentTakes | kaliedoscope.cpp:36-40 | the identifier loop appends exactly the maximal run of alphanumerics to IdentifierStr |
| LexerProperties.ScanNumberTakes | kaliedoscope.cpp:50-55 | the number loop appends exactly the maximal run of digits and '.' to the lexeme |
| LexerProperties.SkipToEolDrops | kaliedoscope.cpp:60-63 | the comment loop drops exactly the text before the next end of line |
| LexerProperties.ScanIdentKeepsIdentifier | kaliedoscope.cpp:37-40 | appending alphanumerics to an identifier gives an identifier |
| LexerProperties.ScanNumberKeepsNumChars | kaliedoscope.cpp:52-55 | the lexeme holds only digits and '.', and the loop never shortens it |
| LexerProperties.LexIdentifier | kaliedoscope.cpp:31-48 | after white space, a maximal `[a-zA-Z][a-zA-Z0-9]*` run is tok_def for exactly "def", tok_extern for exactly "extern" and tok_identifier otherwise; IdentifierStr is the run; the next character is not consumed |
| LexerProperties.LexNumber | kaliedoscope.cpp:50-58 | after white space, a maximal run of digits and '.' (such as "1.23.45") is one tok_number whose lexeme is the run |
| LexerProperties.LexCommentSkipped | kaliedoscope.cpp:60-67 | a comment up to an end of line yields no token: gettok returns what it returns on the text after the end of line |
| LexerProperties.LexCommentAtEnd | kaliedoscope.cpp:60-72 | a comment that runs to the end of the input yields tok_eof |
| LexerProperties.LexOtherChar | kaliedoscope.cpp:73-75 | any other character is its own token, and exactly that character is consumed |
| LexerProperties.LexEndOfInput | kaliedoscope.cpp:70-72 | when only white space is left, gettok returns tok_eof and consumes it all |
| LexerProperties.AtEndOfInput | kaliedoscope.cpp:31-72 | with LastChar at EOF, gettok returns tok_eof and changes nothing |
| LexerProperties.EofIsSticky | kaliedoscope.cpp:27-72 | once gettok has returned tok_eof, the next call returns tok_eof again and changes nothing |
| LexerProperties.TokenLexemes | kaliedoscope.cpp:36-75 | after tok_identifier, IdentifierStr is an identifier other than a keyword; after tok_number, the lexeme is a non-empty run of digits and '.'; a character token is no white space, letter, digit, '.' or '#' |
| Grammar.GetNextToken | kaliedoscope.cpp:153-155 | reading the next token never increases the measure, and strictly decreases it unless CurTok is already EOF |
| Grammar.TokPrecedence | kaliedoscope.cpp:247-256 | the result is -1 or positive; it is positive exactly for a character token with a table entry, and then it is that entry |
| Grammar.ParseNumberExpr | kaliedoscope.cpp:171-175 | a number always succeeds and consumes its token |
| Grammar.ParseParenExpr | kaliedoscope.cpp:178-189 | consumes at least the '(' whether it succeeds or fails |
| Grammar.ParseIdentifierExpr | kaliedoscope.cpp:194-221 | consumes at least the identifier whether it succeeds or fails |
| Grammar.ParseArgs | kaliedoscope.cpp:203-216 | on success CurTok is ')', at least one argument was added, and the earlier arguments are kept in order; what each round appends is stated by GrammarProperties.ArgumentErrors |
| Grammar.ParsePrimary | kaliedoscope.cpp:227-238 | a success consumes input; a failure consumes input or leaves the state as it was |
| Grammar.ParseExpression | kaliedoscope.cpp:259-265 | a success consumes input; a failure consumes input or leaves the state as it was |
| Grammar.ParseBinOpRHS | kaliedoscope.cpp:269-300 | never increases the measure, so precedence climbing terminates |
| Grammar.TighterOperand | kaliedoscope.cpp:286-293 | never increases the measure |
| Grammar.ParamNames | kaliedoscope.cpp:316-319 | the parameter loop ends at a token that is not an identifier and keeps the names so far in order |
| Grammar.ParsePrototype | kaliedoscope.cpp:304-326 | never increases the measure |
| Grammar.ParseDefinition | kaliedoscope.cpp:330-340 | consumes at least `def` whether it succeeds or fails |
| Grammar.ParseExtern | kaliedoscope.cpp:344-347 | consumes at least `extern` whether it succeeds or fails |
| Grammar.ParseTopLevelExpr | kaliedoscope.cpp:351-357 | a failure consumes input or leaves the state as it was |
| Grammar.HandleDefinition | kaliedoscope.cpp:383-390 | handling a definition always consumes input |
| Grammar.HandleExtern | kaliedoscope.cpp:392-399 | handling an extern always consumes input |
| Grammar.HandleTopLevelExpression | kaliedoscope.cpp:401-409 | handling a top-level expression always consumes input, so the driver cannot loop on a bad token |
| Grammar.Dispatch | kaliedoscope.cpp:363-378 | each case of the driver's switch other than EOF and ';' consumes input |
| Grammar.MainLoop | kaliedoscope.cpp:361-381 | the reports come in order, each appended after those already made; at EOF nothing more is reported. The bound on their number is GrammarProperties.MainLoopAppends, their well-formedness WellFormedness.MainLoopWellFormed |
| Grammar.Run | kaliedoscope.cpp:418-422 | primes the first token and runs MainLoop with no reports yet; an empty input gives no report. The bound is GrammarProperties.RunLength, well-formedness WellFormedness.RunWellFormed |
| GrammarProperties.LeftSpineOfLeftOperand | kaliedoscope.cpp:296-297 | the left operand of a combined node stays on the left spine of every tree built on top of it |
| GrammarProperties.BinOpRHSResult | kaliedoscope.cpp:273-299 | LHS comes back unchanged when the current operator binds less tightly than ExprPrec; on success the loop stops only at such a token, and the incoming LHS stays leftmost in the result |
| GrammarProperties.TighterOperandStops | kaliedoscope.cpp:286-293 | once tighter operators have taken the right operand, the next operator binds no more tightly than BinOp; if none binds more tightly, RHS is unchanged |
| GrammarProperties.ExpressionEndsAtNonOperator | kaliedoscope.cpp:259-265 | a parsed expression ends at a token that is not a binary operator |
| GrammarProperties.NotTighterNestsLeft | kaliedoscope.cpp:273-299 | in `a op1 b op2 c`, an op2 binding no more tightly than op1 gives `(a op1 b) op2 c`; equal precedences associate left, as in "1-2-3" |
| GrammarProperties.TighterNestsRight | kaliedoscope.cpp:273-299 | in `a op1 b op2 c`, an op2 binding more tightly than op1 gives `a op1 (b op2 c)`, as in "1+2*3" |
| GrammarProperties.RightOperandFailure | kaliedoscope.cpp:282-292 | a failed right operand, or a failure of the tighter operators after it, is the failure of the whole ParseBinOpRHS |
| GrammarProperties.PrimaryStarts | kaliedoscope.cpp:227-238 | only an identifier, a number or '(' starts an expression; any other token gives "Unkown token when expecting an expression" and stays in CurTok |
| GrammarProperties.NumberIsLeaf | kaliedoscope.cpp:171-175 | a number is a Number node for its lexeme and consumes exactly its token |
| GrammarProperties.ParenIsTransparent | kaliedoscope.cpp:178-189 | parentheses build no node; the result is the inner expression when ')' follows it, else "expected ')'"; an inner failure is passed on |
| GrammarProperties.VariableOrCall | kaliedoscope.cpp:194-221 | an identifier without '(' after it is a Variable; with '(' every success is a Call of that name; `name()` has no arguments; otherwise a successful argument list becomes exactly the Call's arguments, in order, and the token after ')' is read |
| GrammarProperties.ArgumentErrors | kaliedoscope.cpp:203-216 | each parsed argument is appended after the earlier ones; ')' ends the list with it, ',' goes on with the next argument (so a failure there fails the list); a failed argument fails the list with its message; a token other than ',' or ')' after an argument gives "Expected ')' or ',' in argument list" |
| GrammarProperties.CallArgumentFailure | kaliedoscope.cpp:202-210 | a failed argument list fails the whole call with the same message |
| GrammarProperties.PrototypeChecks | kaliedoscope.cpp:304-326 | a name, then '(', then ')' after the parameters are checked in this order, each with its own message; on success the prototype holds the name and the parameters, and ')' is consumed |
| GrammarProperties.ParamNamesTakesIdentifiers | kaliedoscope.cpp:316-319 | each identifier token is appended as the next parameter, and the loop stops at the first other token |
| GrammarProperties.DefinitionNeedsBoth | kaliedoscope.cpp:330-340 | a definition succeeds exactly when its prototype and its body do, and fails with the first failure's message |
| GrammarProperties.ExternIsPrototype | kaliedoscope.cpp:344-347 | an extern is the prototype after the keyword |
| GrammarProperties.TopLevelExprWrapsAnon | kaliedoscope.cpp:351-357 | a top-level expression is wrapped in a prototype with empty name and no parameters; it fails exactly when the expression does |
| GrammarProperties.FailureSkipsOneToken | kaliedoscope.cpp:383-409 | after a failed definition, extern or top-level expression the driver skips exactly one token; after a success it skips none |
| GrammarProperties.MainLoopAppends | kaliedoscope.cpp:361-381 | the driver only appends to what it has reported, and reports at most one construct per unit of the measure |
| GrammarProperties.RunLength | kaliedoscope.cpp:411-425 | over any input the driver reports at most one construct per character, plus one |
| TextProperties.CloseParenToken | kaliedoscope.cpp:73-75 | with ")" and more pending, the next token is ')' and exactly that character is consumed |
| TextProperties.NameToken | kaliedoscope.cpp:31-49 | with a space, a non-keyword name and then no letter or digit pending, the next token is tok_identifier, IdentifierStr is the name, and the text after it stays pending |
| TextProperties.ParamNamesFromText | kaliedoscope.cpp:316-321 | with " a b c)" pending, the parameter loop collects exactly a, b and c in order, stops on ')' and leaves the text after ')' pending |
| TextProperties.PrototypeFromText | kaliedoscope.cpp:304-326 | the text `name( a b c)` followed by more parses to the prototype of that name with those parameters in order, and CurTok is then the first token read from the text after ')' |
| WellFormedness.NextTokenLexemes | kaliedoscope.cpp:153-155 | after getNextToken, IdentifierStr is a non-keyword identifier when CurTok is tok_identifier, and the lexeme is a numeral when CurTok is tok_number |
| WellFormedness.PrimaryWellFormed | kaliedoscope.cpp:227-238 | a primary keeps that agreement and builds a well-formed node |
| WellFormedness.ParenWellFormed | kaliedoscope.cpp:178-189 | a parenthesised expression keeps the agreement and builds a well-formed node |
| WellFormedness.IdentifierWellFormed | kaliedoscope.cpp:194-221 | variables and callees are non-keyword identifiers; call arguments are well formed |
| WellFormedness.ArgsWellFormed | kaliedoscope.cpp:203-216 | every argument collected is well formed |
| WellFormedness.ExpressionWellFormed | kaliedoscope.cpp:259-265 | an expression is built only from numerals, non-keyword identifiers and table operators |
| WellFormedness.BinOpWellFormed | kaliedoscope.cpp:269-300 | every Binary node's operator has an entry in the precedence table |
| WellFormedness.OperandWellFormed | kaliedoscope.cpp:286-293 | the operand the tighter operators take back is well formed |
| WellFormedness.ParamNamesWellFormed | kaliedoscope.cpp:316-319 | every parameter name is a non-keyword identifier |
| WellFormedness.PrototypeWellFormed | kaliedoscope.cpp:304-326 | a prototype's name and parameters are non-keyword identifiers |
| WellFormedness.DefinitionWellFormed | kaliedoscope.cpp:330-340 | a definition has a well-formed prototype and body |
| WellFormedness.ExternWellFormed | kaliedoscope.cpp:344-347 | an extern has a well-formed prototype |
| WellFormedness.TopLevelExprWellFormed | kaliedoscope.cpp:351-357 | a top-level expression's body is well formed |
| WellFormedness.DispatchWellFormed | kaliedoscope.cpp:363-409 | whatever the driver handles, it reports a well-formed construct |
| WellFormedness.MainLoopWellFormed | kaliedoscope.cpp:361-381 | every construct MainLoop reports is well formed |
| WellFormedness.RunWellFormed | kaliedoscope.cpp:411-425 | over any input, every construct the driver reports is well formed |
| Kaleidoscope.Parser.constructor | kaliedoscope.cpp:28 | a fresh parser has nothing read, LastChar ' ' and CurTok zero |
| Kaleidoscope.Parser.ReadChar | kaliedoscope.cpp:32 | `LastChar = getchar()` updates the scanner as Advance does and leaves CurTok alone |
| Kaleidoscope.Parser.GetTok | kaliedoscope.cpp:27-76 | the four loops and the recursive call after a comment return the token and leave the globals as GetTok gives |
| Kaleidoscope.Parser.GetNextToken | kaliedoscope.cpp:153-155 | CurTok becomes the token gettok returns |
| Kaleidoscope.Parser.ParseNumberExpr | kaliedoscope.cpp:171-175 | result and new state are those of Grammar.ParseNumberExpr |
| Kaleidoscope.Parser.ParseParenExpr | kaliedoscope.cpp:178-189 | result and new state are those of Grammar.ParseParenExpr |
| Kaleidoscope.Parser.ParseIdentifierExpr | kaliedoscope.cpp:194-221 | the argument loop with push_back gives the result and new state of Grammar.ParseIdentifierExpr |
| Kaleidoscope.Parser.ParsePrimary | kaliedoscope.cpp:227-238 | result and new state are those of Grammar.ParsePrimary |
| Kaleidoscope.Parser.ParseExpression | kaliedoscope.cpp:259-265 | result and new state are those of Grammar.ParseExpression |
| Kaleidoscope.Parser.ParseBinOpRHS | kaliedoscope.cpp:269-300 | the loop that reassigns LHS gives the result and new state of Grammar.ParseBinOpRHS |
| Kaleidoscope.Parser.ParsePrototype | kaliedoscope.cpp:304-326 | the parameter loop with push_back gives the result and new state of Grammar.ParsePrototype |
| Kaleidoscope.Parser.ParseDefinition | kaliedoscope.cpp:330-340 | result and new state are those of Grammar.ParseDefinition |
| Kaleidoscope.Parser.ParseExtern | kaliedoscope.cpp:344-347 | result and new state are those of Grammar.ParseExtern |
| Kaleidoscope.Parser.ParseTopLevelExpr | kaliedoscope.cpp:351-357 | result and new state are those of Grammar.ParseTopLevelExpr |
| Kaleidoscope.Parser.HandleDefinition | kaliedoscope.cpp:383-390 | report and new state are those of Grammar.HandleDefinition |
| Kaleidoscope.Parser.HandleExtern | kaliedoscope.cpp:392-399 | report and new state are those of Grammar.HandleExtern |
| Kaleidoscope.Parser.HandleTopLevelExpression | kaliedoscope.cpp:401-409 | report and new state are those of Grammar.HandleTopLevelExpression |
| Kaleidoscope.Parser.MainLoop | kaliedoscope.cpp:361-381 | the loop's reports, in order, are those of Grammar.MainLoop |
| Kaleidoscope.Parser.Run | kaliedoscope.cpp:420-423 | priming the first token and running MainLoop reports exactly Grammar.Run |

## Left out

- `getchar` and stdin: the input is a sequence of characters, read through a cursor. EOF is the state where the cursor is at the end.
- Bytes: `getchar` returns bytes, and each character of the model's input stands for one byte value 0..255. Text in a multi-byte encoding is given to the model byte by byte. An `é` in UTF-8 is two characters there, so two tokens, not one. The model says nothing about inputs holding characters above 255.
- Declaration order: as written, `ParseParenExpr` (kaliedoscope.cpp:180) calls `ParseExpression`, and `ParseExpression` (kaliedoscope.cpp:264) calls `ParseBinOpRHS`, before either is declared. `MainLoop` (kaliedoscope.cpp:371-377) also calls the `Handle*` functions before they are defined (kaliedoscope.cpp:383-409). So the file does not compile as it stands. The model is the program with the missing forward declarations added. Dafny's modules need no declaration order.
- `NumVal` and `strtod`: floating-point conversion is not modelled. A number keeps its lexeme, and `Number` nodes carry it.
- `fprintf` diagnostics in `LogError`/`LogErrorP` and the prompts of MainLoop: these are output. A failure is an `Err` value carrying the string passed to `LogError` or `LogErrorP`; the code prints it after "Erro: " and before a newline.
- `main`'s filling of `BinopPrecedence` is the constant map `Grammar.BinopPrecedence`.
- Insertion by `BinopPrecedence[CurTok]`: `map::operator[]` adds an entry of zero for an unknown character. The model reads the table with a default of zero. The added entries never change a returned precedence.
- `unique_ptr`, `move` and the virtual destructor: AST nodes are immutable datatypes.
- Character classes are those of the C locale (`isspace`, `isalpha`, `isdigit`, `isalnum`), on byte values.
- Grammar.ParseTopLevelExpr: when the expression fails, the C++ function has no return statement, which is undefined behaviour. The model returns the expression's failure, as the callers expect a null result there.
- Grammar.ParseBinOpRHS: requires `ExprPrec >= 0`. The file's callers pass only 0 and an operator's precedence plus one.
- Grammar.ParseNumberExpr, Grammar.ParseParenExpr, Grammar.ParseIdentifierExpr, Grammar.ParseDefinition, Grammar.ParseExtern, Grammar.HandleDefinition, Grammar.HandleExtern: each requires the token its caller has already checked (`tok_def` and `tok_extern` for the two Handle functions, as the switch at kaliedoscope.cpp:370-374 ensures). The C++ functions are only called in that situation.
- Grammar.ParseArgs: its own ensures give the kept prefix and the count only. The contents, one argument per round, in order, and the failure after ',' are stated by GrammarProperties.ArgumentErrors.
- Grammar.HandleTopLevelExpression: requires a token other than EOF, the only case in which MainLoop calls it.
- The message strings are those of the code: "Unkown token when expecting an expression", "Expected ')' or ',' in argument list", and so on.
- Grammar.MainLoop and Grammar.Run: MainLoop returns the list of reports instead of printing them. Their own ensures give the kept prefix and the empty input. The bound on the number of reports is stated by GrammarProperties.MainLoopAppends and GrammarProperties.RunLength, and well-formedness by WellFormedness.MainLoopWellFormed and WellFormedness.RunWellFormed.
