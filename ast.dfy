/** The abstract syntax tree built by the Kaleidoscope parser, and the result of a
    parse: a node, or the diagnostic that LogError / LogErrorP would print. */
module Ast {

  /** ExprAST and its four subclasses. A numeric literal keeps its lexeme: the
      floating-point value strtod would give it is not part of this model. */
  datatype Expr =
    | Number(lexeme: string)
    | Variable(name: string)
    | Binary(op: char, lhs: Expr, rhs: Expr)
    | Call(callee: string, args: seq<Expr>)

  /** PrototypeAST: a function's name and its parameter names, in order. */
  datatype Prototype = Prototype(name: string, params: seq<string>)

  /** FunctionAST: a prototype and the body expression. */
  datatype FunctionDef = FunctionDef(proto: Prototype, body: Expr)

  /** A parse either produces a node or fails with the message it reported
      (the C++ code returns nullptr after printing the message). */
  datatype Result<T> = Ok(value: T) | Err(msg: string)
}
