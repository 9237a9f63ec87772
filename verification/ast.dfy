/**
 * The syntax tree as the analysis sees it. Parsing and traversal belong to
 * the TypeScript compiler API; a node here records only what the rule asks
 * of it: whether it is a call, the text of its callee, its arguments, and
 * the text of its nearest enclosing catch clause and arrow function.
 */
module Ast {
  import opened Wrappers

  /** A call argument: whether it is an object literal, and the source text of each of its children, in order. */
  datatype Argument = Argument(isObjectLiteral: bool, children: seq<string>)

  /**
   * A syntax node. `callee` and `arguments` are meaningful only when
   * `isCall` holds. `catchClause` is the text of the nearest enclosing catch
   * clause, `arrowFunction` that of the nearest enclosing arrow function.
   */
  datatype Node = Node(
    isCall: bool,
    callee: string,
    arguments: seq<Argument>,
    catchClause: Option<string>,
    arrowFunction: Option<string>)

  /** A source file, as the sequence of its descendant nodes in traversal order. */
  datatype SourceFile = SourceFile(nodes: seq<Node>)
}
