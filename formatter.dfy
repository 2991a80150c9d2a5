/**
 * The auto-formatter: it parses a source text and writes every node back, one line per
 * node in pre-order, indented by its depth. The functions give the text each piece of the
 * formatter appends; the methods append it to an output string as the formatter does.
 */
module Formatter {
  import opened Wrappers
  import opened Strings
  import opened Props
  import opened Ast
  import opened Parser

  /** The formatter's settings: how many indent characters one level of depth takes. */
  datatype FerrumFormatter = FerrumFormatter(indentSize: nat, indentChar: char)

  /** `FerrumFormatter::default`: four spaces per level. */
  function Default(): FerrumFormatter
  {
    FerrumFormatter(4, ' ')
  }

  /** `indent_string`: `depth * indent_size` copies of the indent character. */
  function IndentString(f: FerrumFormatter, depth: nat): (r: string)
    ensures |r| == depth * f.indentSize
    ensures forall i :: 0 <= i < |r| ==> r[i] == f.indentChar
  {
    seq(depth * f.indentSize, _ => f.indentChar)
  }

  // ------------------------------------------------------------------ expressions

  /** The infix text of an operator, padded by a space on both sides. */
  function OperatorText(op: BinaryOperator): (r: string)
    ensures |r| >= 3 && r[0] == ' ' && r[|r| - 1] == ' '
  {
    match op
    case Add => " + "
    case Subtract => " - "
    case Multiply => " * "
    case Divide => " / "
    case Equals => " == "
    case NotEquals => " != "
    case GreaterThan => " > "
    case LessThan => " < "
    case And => " && "
    case Or => " || "
  }

  /** `expression_to_string`. */
  function ExpressionToString(e: Expression): string
    decreases e, 1
  {
    match e
    case StringLiteral(s) => "\"" + s + "\""
    case Number(display) => display
    case SignalAccess(s) => s
    case PropertyAccess(signal, property) => signal + "." + property
    case BinaryOperation(left, op, right) =>
      ExpressionToString(left) + OperatorText(op) + ExpressionToString(right)
    case FunctionCall(callee, args) => callee + "(" + Join(ArgumentStrings(e, |args|), ", ") + ")"
  }

  /** The text of the first `k` arguments of a call, each on its own. */
  function ArgumentStrings(call: Expression, k: nat): (r: seq<string>)
    requires call.FunctionCall? && k <= |call.args|
    ensures |r| == k
    decreases call, 0, k
  {
    if k == 0 then [] else ArgumentStrings(call, k - 1) + [ExpressionToString(call.args[k - 1])]
  }

  /** The line `format_expression` writes for `e` after `indent`. */
  function ExpressionLine(e: Expression, indent: string): string
  {
    match e
    case StringLiteral(s) => indent + "\"" + s + "\"" + "\n"
    case Number(display) => indent + display + "\n"
    case SignalAccess(s) => indent + s + "\n"
    case PropertyAccess(signal, property) => indent + signal + "." + property + "\n"
    case BinaryOperation(left, op, right) =>
      indent + ExpressionToString(left) + OperatorText(op) + ExpressionToString(right) + "\n"
    case FunctionCall(callee, args) =>
      indent + callee + "(" + Join(ArgumentStrings(e, |args|), ", ") + ")" + "\n"
  }

  // ------------------------------------------------------------------ nodes

  /** `#id` when the props hold an `id`. */
  function IdText(props: Props): string
  {
    match Get(props, "id")
    case Some(id) => "#" + id
    case None => ""
  }

  /** `.name` for each whitespace-separated name of the first `k` class tokens. */
  function ClassTokensText(tokens: seq<string>): string
  {
    if tokens == [] then "" else ClassTokensText(tokens[..|tokens| - 1]) + ("." + tokens[|tokens| - 1])
  }

  /** The classes of the `class` prop, each as `.name`. */
  function ClassText(props: Props): string
  {
    match Get(props, "class")
    case Some(classes) => ClassTokensText(SplitWhitespace(classes))
    case None => ""
  }

  /** ` key="value"` for one prop, or nothing for `id` and `class`. */
  function OtherPropText(key: string, value: string): string
  {
    if key != "id" && key != "class" then " " + key + "=\"" + value + "\"" else ""
  }

  /** The props other than `id` and `class`, in the iteration order of `props`. */
  function OtherPropsText(props: Props): string
  {
    if props == [] then ""
    else OtherPropsText(props[..|props| - 1]) + OtherPropText(props[|props| - 1].0, props[|props| - 1].1)
  }

  /** The `key: value` pairs of a component's props. */
  function PropPairs(props: Props): (r: seq<string>)
    ensures |r| == |props|
  {
    if props == [] then []
    else PropPairs(props[..|props| - 1]) + [props[|props| - 1].0 + ": " + props[|props| - 1].1]
  }

  /** The line of an element: tag, `#id`, `.class` names, the other props. */
  function ElementLine(indent: string, tag: string, props: Props): string
  {
    indent + tag + IdText(props) + ClassText(props) + OtherPropsText(props) + "\n"
  }

  /** The line of a component: its name and its props as `key: value` in parentheses. */
  function ComponentLine(indent: string, name: string, props: Props): string
  {
    indent + name + "(" + Join(PropPairs(props), ", ") + ")" + "\n"
  }

  /** A text is quoted exactly when it contains a space. */
  function TextLine(indent: string, text: string): string
  {
    if ' ' in text then indent + "\"" + text + "\"" + "\n" else indent + text + "\n"
  }

  function StateBindingLine(indent: string, signal: string, operation: string): string
  {
    if operation == [] then indent + signal + "\n" else indent + signal + "." + operation + "\n"
  }

  /** An import is written without indent. */
  function ImportLine(names: seq<string>, from: string): string
  {
    "import { " + Join(names, ", ") + " } from \"" + from + "\"" + "\n"
  }

  /** The line `format_node` writes for `n` itself, before any of its children. */
  function NodeLine(f: FerrumFormatter, n: Node, depth: nat): string
  {
    var indent := IndentString(f, depth);
    match n
    case Element(tag, props, _) => ElementLine(indent, tag, props)
    case Text(text) => TextLine(indent, text)
    case Component(name, props, _) => ComponentLine(indent, name, props)
    case StateBinding(signal, operation) => StateBindingLine(indent, signal, operation)
    case Import(names, from) => ImportLine(names, from)
    case ExpressionNode(e) => ExpressionLine(e, indent)
  }

  /** `format_node(n, depth)`: the line of `n`, then the text of its children one level deeper. */
  function NodeText(f: FerrumFormatter, n: Node, depth: nat): string
    decreases n, 1
  {
    if n.Element? || n.Component? then NodeLine(f, n, depth) + ChildrenText(f, n, |n.children|, depth + 1)
    else NodeLine(f, n, depth)
  }

  /** The text of the first `k` children of `n`, each at `depth`. */
  function ChildrenText(f: FerrumFormatter, n: Node, k: nat, depth: nat): string
    requires (n.Element? || n.Component?) && k <= |n.children|
    decreases n, 0, k
  {
    if k == 0 then "" else ChildrenText(f, n, k - 1, depth) + NodeText(f, n.children[k - 1], depth)
  }

  /** The text of the top-level `nodes`, each at depth 0. */
  function NodesText(f: FerrumFormatter, nodes: seq<Node>): string
  {
    if nodes == [] then "" else NodesText(f, nodes[..|nodes| - 1]) + NodeText(f, nodes[|nodes| - 1], 0)
  }

  /** `format`: the formatted nodes of `input`, or the parser's failure. */
  function FormatSpec(f: FerrumFormatter, input: string): Result<string>
  {
    match ParseSpec(input)
    case Ok(nodes) => Ok(NodesText(f, nodes))
    case Err(message) => Err(message)
    case Panic(at) => Panic(at)
  }

  // ------------------------------------------------------------------ the formatter

  method FormatExpression(e: Expression, indent: string, output: string) returns (out: string)
    ensures out == output + ExpressionLine(e, indent)
  {
    match e
    case StringLiteral(s) =>
      out := output + (indent + "\"" + s + "\"" + "\n");
    case Number(display) =>
      out := output + (indent + display + "\n");
    case SignalAccess(s) =>
      out := output + (indent + s + "\n");
    case PropertyAccess(signal, property) =>
      out := output + (indent + signal + "." + property + "\n");
    case BinaryOperation(left, op, right) =>
      out := output + (indent + ExpressionToString(left) + OperatorText(op) + ExpressionToString(right) + "\n");
    case FunctionCall(callee, args) =>
      out := output + (indent + callee + "(" + Join(ArgumentStrings(e, |args|), ", ") + ")" + "\n");
  }

  /** The head line of an element: tag, `#id`, `.class` names and the other props. */
  method ElementHead(tag: string, props: Props, indent: string, output: string) returns (out: string)
    ensures out == output + ElementLine(indent, tag, props)
  {
    var head := indent + tag;
    var id := Get(props, "id");
    if id.Some? {
      head := head + ("#" + id.value);
    }
    assert head == indent + tag + IdText(props);
    var classes := Get(props, "class");
    if classes.Some? {
      head := ClassTokens(SplitWhitespace(classes.value), head);
    }
    assert head == indent + tag + IdText(props) + ClassText(props);
    head := OtherProps(props, head);
    out := output + (head + "\n");
  }

  method ComponentHead(name: string, props: Props, indent: string, output: string) returns (out: string)
    ensures out == output + ComponentLine(indent, name, props)
  {
    var line := indent + name + "(";
    line := line + Join(PropPairs(props), ", ");
    out := output + (line + (")" + "\n"));
  }

  method ClassTokens(tokens: seq<string>, output: string) returns (out: string)
    ensures out == output + ClassTokensText(tokens)
  {
    out := output;
    for i := 0 to |tokens|
      invariant out == output + ClassTokensText(tokens[..i])
    {
      AppendAssoc(output, ClassTokensText(tokens[..i]), "." + tokens[i]);
      out := out + ("." + tokens[i]);
      assert tokens[..i + 1][..i] == tokens[..i];
      assert ClassTokensText(tokens[..i + 1]) == ClassTokensText(tokens[..i]) + ("." + tokens[i]);
    }
    assert tokens[..|tokens|] == tokens;
  }

  method OtherProps(props: Props, output: string) returns (out: string)
    ensures out == output + OtherPropsText(props)
  {
    out := output;
    for i := 0 to |props|
      invariant out == output + OtherPropsText(props[..i])
    {
      var (key, value) := props[i];
      AppendAssoc(output, OtherPropsText(props[..i]), OtherPropText(key, value));
      OtherPropsStep(props, i);
      if key != "id" && key != "class" {
        out := out + (" " + key + "=\"" + value + "\"");
      } else {
        assert out + OtherPropText(key, value) == out;
      }
    }
    assert props[..|props|] == props;
  }

  lemma OtherPropsStep(props: Props, i: nat)
    requires i < |props|
    ensures OtherPropsText(props[..i + 1]) == OtherPropsText(props[..i]) + OtherPropText(props[i].0, props[i].1)
  {
    assert props[..i + 1][..i] == props[..i];
  }

  lemma ChildrenTextStep(f: FerrumFormatter, n: Node, i: nat, depth: nat)
    requires (n.Element? || n.Component?) && i < |n.children|
    ensures ChildrenText(f, n, i + 1, depth) == ChildrenText(f, n, i, depth) + NodeText(f, n.children[i], depth)
  {
  }

  /** Every child in order, at `depth`. */
  method FormatChildren(f: FerrumFormatter, n: Node, depth: nat, output: string) returns (out: string)
    requires n.Element? || n.Component?
    ensures out == output + ChildrenText(f, n, |n.children|, depth)
    decreases n, 0
  {
    // The children are collected and then appended to `output` in one step, which gives
    // the same text as appending each of them to `output` in turn.
    var children := n.children;
    var text := "";
    for i := 0 to |children|
      invariant text == ChildrenText(f, n, i, depth)
    {
      ChildrenTextStep(f, n, i, depth);
      text := FormatNode(f, children[i], depth, text);
    }
    out := output + text;
  }

  method FormatNode(f: FerrumFormatter, n: Node, depth: nat, output: string) returns (out: string)
    ensures out == output + NodeText(f, n, depth)
    decreases n, 1
  {
    var indent := IndentString(f, depth);
    match n {
      case Element(tag, props, children) =>
        out := ElementHead(tag, props, indent, output);
      case Text(text) =>
        if ' ' in text {
          out := output + (indent + "\"" + text + "\"" + "\n");
        } else {
          out := output + (indent + text + "\n");
        }
      case Component(name, props, children) =>
        out := ComponentHead(name, props, indent, output);
      case StateBinding(signal, operation) =>
        if operation == [] {
          out := output + (indent + signal + "\n");
        } else {
          out := output + (indent + signal + "." + operation + "\n");
        }
      case Import(names, from) =>
        out := output + ("import { " + Join(names, ", ") + " } from \"" + from + "\"" + "\n");
      case ExpressionNode(e) =>
        out := FormatExpression(e, indent, output);
    }
    assert out == output + NodeLine(f, n, depth);
    if n.Element? || n.Component? {
      AppendAssoc(output, NodeLine(f, n, depth), ChildrenText(f, n, |n.children|, depth + 1));
      out := FormatChildren(f, n, depth + 1, out);
    } else {
      assert NodeText(f, n, depth) == NodeLine(f, n, depth);
    }
  }

  method Format(f: FerrumFormatter, input: string) returns (r: Result<string>)
    ensures r == FormatSpec(f, input)
  {
    var parsed := Parse(input);
    if parsed.Err? {
      return Err(parsed.message);
    } else if parsed.Panic? {
      return Panic(parsed.at);
    }
    var nodes := parsed.value;
    var output := "";
    for i := 0 to |nodes|
      invariant output == NodesText(f, nodes[..i])
    {
      output := FormatNode(f, nodes[i], 0, output);
      assert nodes[..i + 1][..i] == nodes[..i];
      assert NodesText(f, nodes[..i + 1]) == NodesText(f, nodes[..i]) + NodeText(f, nodes[i], 0);
    }
    assert nodes[..|nodes|] == nodes;
    r := Ok(output);
  }
}
