/**
 * The abstract syntax tree: six node kinds, immutable once built. Expression
 * nodes form `Expr`; a prototype and a function definition are their own types,
 * as `PrototypeAST` and `FunctionAST` are only ever used as such.
 */
module Ast {

  datatype Option<+T> = None | Some(value: T)

  /**
   * NumberExprAST, VariableExprAST, BinaryExprAST and CallExprAST. A Binary node
   * keeps its operator as an int and its children in the order left, right; its
   * left child is an owning pointer that the parser can leave null (`None`).
   */
  datatype Expr =
    | Number(text: string)
    | Variable(name: string)
    | Binary(op: int, lhs: Option<Expr>, rhs: Expr)
    | Call(callee: string, args: seq<Expr>)

  /** PrototypeAST: a function name and its parameter names, in order. `get_name` is `name`. */
  datatype Prototype = Prototype(name: string, params: seq<string>)

  /** FunctionAST: exactly one prototype and one body. */
  datatype Function = Function(proto: Prototype, body: Expr)

  /** Every child of every node is present: no null pointer anywhere in the tree. */
  predicate WellFormed(e: Expr) {
    match e
    case Number(_) => true
    case Variable(_) => true
    case Binary(_, l, r) => l.Some? && WellFormed(l.value) && WellFormed(r)
    case Call(_, args) => forall i | 0 <= i < |args| :: WellFormed(args[i])
  }
}
