/**
 * The Rust code generator of the DSL front end: every node becomes a `view!` macro
 * invocation, and the whole file starts with the Leptos prelude import.
 *
 * The text of a childless element or component ends with the closing characters passed as
 * `close`. The generator as written closes it with a slash, a line feed and TWO closing
 * braces, one more than the single `{` it opened; `NodeRust` uses the single brace the
 * element-with-children branch uses, and `AsWrittenUnbalanced` shows the difference.
 */
module ViewCode {
  import opened Props
  import opened Ast

  /** The text that closes a childless element or component. */
  const SelfClose := "/>\n}"
  /** The closing text of the generator as written: a plain string literal with two braces. */
  const AsWrittenSelfClose := "/>\n}}"

  const Prelude := "use leptos::*;\n\n"

  // ------------------------------------------------------------------ attributes

  /** The attribute text of one element prop; `class` and `id` are written like any key. */
  function AttributeText(key: string, value: string): (r: string)
    ensures r == key + "=\"" + value + "\" "
  {
    if key == "class" then "class=\"" + value + "\" "
    else if key == "id" then "id=\"" + value + "\" "
    else key + "=\"" + value + "\" "
  }

  /** A component prop is written unquoted: its value is a Rust expression. */
  function ComponentAttributeText(key: string, value: string): string
  {
    key + "=" + value + " "
  }

  /** The attributes of an element, in the iteration order of `p`. */
  function ElementAttributes(p: Props): string
  {
    if p == [] then ""
    else ElementAttributes(p[..|p| - 1]) + AttributeText(p[|p| - 1].0, p[|p| - 1].1)
  }

  function ComponentAttributes(p: Props): string
  {
    if p == [] then ""
    else ComponentAttributes(p[..|p| - 1]) + ComponentAttributeText(p[|p| - 1].0, p[|p| - 1].1)
  }

  // ------------------------------------------------------------------ nodes

  /** The name an element or component is written with. */
  function OpenName(n: Node): string
    requires n.Element? || n.Component?
  {
    if n.Element? then n.tag else n.name
  }

  /** `node_to_rust`, with `close` ending a childless element or component. */
  function NodeRustWith(n: Node, close: string): string
    requires IsParserTree(n)
    decreases n, 3, 0
  {
    match n
    case Element(tag, props, _) =>
      "view! {\n    <" + tag + " " + ElementAttributes(props) + BodyWith(n, close)
    case Component(name, props, _) =>
      "view! {\n    <" + name + " " + ComponentAttributes(props) + BodyWith(n, close)
    case Text(text) => "\"" + text + "\""
    case StateBinding(signal, operation) => "{move || " + signal + "." + operation + "}"
  }

  /** What follows the attributes: the self-closing end, or the children and a closing tag. */
  function BodyWith(n: Node, close: string): string
    requires IsParserTree(n) && (n.Element? || n.Component?)
    decreases n, 2, 0
  {
    if n.children == [] then close
    else ">\n" + ChildLinesWith(n, |n.children|, close) + "    </" + OpenName(n) + ">\n}"
  }

  /** One line per child among the first `k`, each indented by eight spaces. */
  function ChildLinesWith(n: Node, k: nat, close: string): string
    requires IsParserTree(n) && (n.Element? || n.Component?) && k <= |n.children|
    decreases n, 1, k
  {
    if k == 0 then ""
    else ChildLinesWith(n, k - 1, close) + "        " + ChildRustWith(n.children[k - 1], close) + "\n"
  }

  /** `child_to_rust`: a text child is quoted; any other child is generated as a node. */
  function ChildRustWith(c: Node, close: string): string
    requires IsParserTree(c)
    decreases c, 4, 0
  {
    if c.Text? then "\"" + c.text + "\"" else NodeRustWith(c, close)
  }

  function NodeRust(n: Node): string
    requires IsParserTree(n)
  {
    NodeRustWith(n, SelfClose)
  }

  /** The generated code of `nodes[..k]`: each node followed by a line feed. */
  function NodesRust(nodes: seq<Node>): string
    requires forall i :: 0 <= i < |nodes| ==> IsParserTree(nodes[i])
  {
    if nodes == [] then ""
    else NodesRust(nodes[..|nodes| - 1]) + NodeRust(nodes[|nodes| - 1]) + "\n"
  }

  /** `generate_rust`: the prelude import, then every node. */
  function GenerateRustSpec(nodes: seq<Node>): string
    requires forall i :: 0 <= i < |nodes| ==> IsParserTree(nodes[i])
  {
    Prelude + NodesRust(nodes)
  }

  /** A child is generated exactly as the same node at the top level. */
  lemma ChildRustIsNodeRust(c: Node, close: string)
    requires IsParserTree(c)
    ensures ChildRustWith(c, close) == NodeRustWith(c, close)
  {
  }

  // ------------------------------------------------------------------ the generator

  method ElementAttributesText(props: Props) returns (s: string)
    ensures s == ElementAttributes(props)
  {
    s := "";
    for i := 0 to |props|
      invariant s == ElementAttributes(props[..i])
    {
      var (key, value) := props[i];
      if key == "class" {
        s := s + ("class=\"" + value + "\" ");
      } else if key == "id" {
        s := s + ("id=\"" + value + "\" ");
      } else {
        s := s + (key + "=\"" + value + "\" ");
      }
      assert props[..i + 1][..i] == props[..i];
    }
    assert props[..|props|] == props;
  }

  method ComponentAttributesText(props: Props) returns (s: string)
    ensures s == ComponentAttributes(props)
  {
    s := "";
    for i := 0 to |props|
      invariant s == ComponentAttributes(props[..i])
    {
      var (key, value) := props[i];
      s := s + (key + "=" + value + " ");
      assert props[..i + 1][..i] == props[..i];
    }
    assert props[..|props|] == props;
  }

  /** The end of an element or component: self-closing, or each child on its own line. */
  method BodyText(n: Node) returns (s: string)
    requires IsParserTree(n) && (n.Element? || n.Component?)
    ensures s == BodyWith(n, SelfClose)
    decreases n, 2
  {
    if n.children == [] {
      return SelfClose;
    }
    var lines := ChildLinesText(n);
    s := ">\n" + lines + "    </" + OpenName(n) + ">\n}";
  }

  /** The loop over the children of an element or component. */
  method ChildLinesText(n: Node) returns (s: string)
    requires IsParserTree(n) && (n.Element? || n.Component?)
    ensures s == ChildLinesWith(n, |n.children|, SelfClose)
    decreases n, 1
  {
    s := "";
    for i := 0 to |n.children|
      invariant s == ChildLinesWith(n, i, SelfClose)
    {
      var child := ChildToRust(n.children[i]);
      s := s + "        " + child + "\n";
    }
  }

  method NodeToRust(n: Node) returns (rust: string)
    requires IsParserTree(n)
    ensures rust == NodeRust(n)
    decreases n, 3
  {
    match n
    case Element(tag, props, _) =>
      var attributes := ElementAttributesText(props);
      var body := BodyText(n);
      rust := "view! {\n    <" + tag + " " + attributes + body;
    case Component(name, props, _) =>
      var attributes := ComponentAttributesText(props);
      var body := BodyText(n);
      rust := "view! {\n    <" + name + " " + attributes + body;
    case Text(text) =>
      rust := "\"" + text + "\"";
    case StateBinding(signal, operation) =>
      rust := "{move || " + signal + "." + operation + "}";
  }

  method ChildToRust(c: Node) returns (rust: string)
    requires IsParserTree(c)
    ensures rust == ChildRustWith(c, SelfClose)
    decreases c, 4
  {
    if c.Text? {
      return "\"" + c.text + "\"";
    }
    rust := NodeToRust(c);
  }

  method GenerateRust(nodes: seq<Node>) returns (code: string)
    requires forall i :: 0 <= i < |nodes| ==> IsParserTree(nodes[i])
    ensures code == GenerateRustSpec(nodes)
  {
    code := Prelude;
    for i := 0 to |nodes|
      invariant code == Prelude + NodesRust(nodes[..i])
    {
      var rust := NodeToRust(nodes[i]);
      code := code + rust + "\n";
      assert nodes[..i + 1][..i] == nodes[..i];
      assert NodesRust(nodes[..i + 1]) == NodesRust(nodes[..i]) + NodeRust(nodes[i]) + "\n";
    }
    assert nodes[..|nodes|] == nodes;
  }
}
