/**
 * The node model shared by the parser, the formatter and the two emitters.
 *
 * The parser's own enum has four variants (Element, Text, Component, StateBinding); the
 * formatter also matches on Import and Expression nodes and on an expression tree. One
 * datatype holds all six; the parser never produces the last two (nor StateBinding).
 */
module Ast {
  import opened Props

  datatype BinaryOperator =
    | Add | Subtract | Multiply | Divide
    | Equals | NotEquals | GreaterThan | LessThan
    | And | Or

  /**
   * Expressions of the formatter. A number carries the text its `f64` value displays as,
   * since floating-point formatting is outside the model.
   */
  datatype Expression =
    | StringLiteral(literal: string)
    | Number(display: string)
    | SignalAccess(signalName: string)
    | PropertyAccess(signal: string, property: string)
    | BinaryOperation(left: Expression, operator: BinaryOperator, right: Expression)
    | FunctionCall(callee: string, args: seq<Expression>)

  datatype Node =
    | Element(tag: string, props: Props, children: seq<Node>)
    | Text(text: string)
    | Component(name: string, props: Props, children: seq<Node>)
    | StateBinding(signal: string, operation: string)
    | Import(names: seq<string>, from: string)
    | ExpressionNode(expr: Expression)

  /** The variants the parser's enum declares. */
  predicate IsParserKind(n: Node) {
    n.Element? || n.Text? || n.Component? || n.StateBinding?
  }

  /** A node, and all of its descendants, of the parser's four variants. */
  predicate IsParserTree(n: Node) {
    IsParserKind(n)
    && (n.Element? || n.Component? ==> forall i :: 0 <= i < |n.children| ==> IsParserTree(n.children[i]))
  }

  /** The children of `n`; leaves have none. */
  function ChildrenOf(n: Node): seq<Node> {
    if n.Element? || n.Component? then n.children else []
  }
}
