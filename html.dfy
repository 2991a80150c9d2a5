/**
 * The dev server's HTML emitter: every parsed node becomes plain HTML (no script), and a
 * page wraps the nodes' HTML in a fixed document shell with the stylesheet inlined.
 *
 * Each generator is a method that builds its string with appends in loops, proved equal
 * to a recursive function. The source's generators return a result, but every branch of
 * `node_to_html` succeeds, so each method's contract says its result is `Ok`.
 */
module Html {
  import opened Wrappers
  import opened Props
  import opened Ast

  // ------------------------------------------------------------------ the specification

  /** ` key='value'` for each prop of an element, in the iteration order of `p`. */
  function PropAttributes(p: Props): string
  {
    if p == [] then ""
    else PropAttributes(p[..|p| - 1]) + (" " + p[|p| - 1].0 + "='" + p[|p| - 1].1 + "'")
  }

  /** ` data-key='value'` for each prop of a component. */
  function DataAttributes(p: Props): string
  {
    if p == [] then ""
    else DataAttributes(p[..|p| - 1]) + (" data-" + p[|p| - 1].0 + "='" + p[|p| - 1].1 + "'")
  }

  /**
   * `node_to_html`. An element keeps its tag and always gets a closing tag; a component
   * becomes a `div` naming it; a text is written verbatim; every other node writes nothing.
   */
  function NodeHtml(n: Node): string
    decreases n, 1, 0
  {
    match n
    case Element(tag, props, children) =>
      "<" + tag + PropAttributes(props) + ">" + ChildrenHtml(n, |children|) + ("</" + tag + ">")
    case Text(text) => text
    case Component(name, props, children) =>
      "<div data-component='" + name + "'" + DataAttributes(props) + ">"
      + ChildrenHtml(n, |children|) + "</div>"
    case _ => ""
  }

  /** The HTML of the first `k` children of `n`, in order. */
  function ChildrenHtml(n: Node, k: nat): string
    requires (n.Element? || n.Component?) && k <= |n.children|
    decreases n, 0, k
  {
    if k == 0 then "" else ChildrenHtml(n, k - 1) + NodeHtml(n.children[k - 1])
  }

  /** `generate_body_html_from_nodes`: the nodes' HTML, in order, with no shell. */
  function BodyHtml(nodes: seq<Node>): string
  {
    if nodes == [] then "" else BodyHtml(nodes[..|nodes| - 1]) + NodeHtml(nodes[|nodes| - 1])
  }

  /** Everything the page holds before the nodes; `stylesheet` is the bundled CSS file. */
  function DocumentHead(stylesheet: string): string
  {
    "<!DOCTYPE html>" + "<html lang='en'>" + "<head>" + "<meta charset='UTF-8'>"
    + "<meta name='viewport' content='width=device-width, initial-scale=1.0'>"
    + "<title>Ferrum App - Pure Rust</title>" + "<style>" + stylesheet + "</style>"
    + "</head>" + "<body>" + "<div id='ferrum-app'>"
  }

  const DocumentTail := "</div>" + "</body>" + "</html>"

  /** `generate_html_from_nodes`: the nodes' HTML inside the document shell. */
  function DocumentHtml(stylesheet: string, nodes: seq<Node>): string
  {
    DocumentHead(stylesheet) + BodyHtml(nodes) + DocumentTail
  }

  // ------------------------------------------------------------------ the generators

  method PropAttributesText(props: Props) returns (s: string)
    ensures s == PropAttributes(props)
  {
    s := "";
    for i := 0 to |props|
      invariant s == PropAttributes(props[..i])
    {
      var (key, value) := props[i];
      s := s + (" " + key + "='" + value + "'");
      assert props[..i + 1][..i] == props[..i];
    }
    assert props[..|props|] == props;
  }

  method DataAttributesText(props: Props) returns (s: string)
    ensures s == DataAttributes(props)
  {
    s := "";
    for i := 0 to |props|
      invariant s == DataAttributes(props[..i])
    {
      var (key, value) := props[i];
      s := s + (" data-" + key + "='" + value + "'");
      assert props[..i + 1][..i] == props[..i];
    }
    assert props[..|props|] == props;
  }

  /** The loop over the children of an element or component. */
  method ChildrenToHtml(n: Node) returns (s: string)
    requires n.Element? || n.Component?
    ensures s == ChildrenHtml(n, |n.children|)
    decreases n, 0
  {
    s := "";
    for i := 0 to |n.children|
      invariant s == ChildrenHtml(n, i)
    {
      var r := NodeToHtml(n.children[i]);
      s := s + r.value;
    }
  }

  method NodeToHtml(n: Node) returns (r: Result<string>)
    ensures r == Ok(NodeHtml(n))
    decreases n, 1
  {
    match n {
      case Element(tag, props, _) =>
        var attributes := PropAttributesText(props);
        var children := ChildrenToHtml(n);
        var html := "<" + tag + attributes + ">";
        html := html + children;
        html := html + ("</" + tag + ">");
        r := Ok(html);
      case Text(text) =>
        r := Ok(text);
      case Component(name, props, _) =>
        var attributes := DataAttributesText(props);
        var children := ChildrenToHtml(n);
        var html := "<div data-component='" + name + "'" + attributes + ">";
        html := html + children;
        html := html + "</div>";
        r := Ok(html);
      case StateBinding(_, _) =>
        r := Ok("");
      case Import(_, _) =>
        r := Ok("");
      case ExpressionNode(_) =>
        r := Ok("");
    }
  }

  /** The loop over the top-level nodes, shared by both generators. */
  method NodesToHtml(nodes: seq<Node>) returns (s: string)
    ensures s == BodyHtml(nodes)
  {
    s := "";
    for i := 0 to |nodes|
      invariant s == BodyHtml(nodes[..i])
    {
      var r := NodeToHtml(nodes[i]);
      s := s + r.value;
      assert nodes[..i + 1][..i] == nodes[..i];
    }
    assert nodes[..|nodes|] == nodes;
  }

  method GenerateBodyHtml(nodes: seq<Node>) returns (r: Result<string>)
    ensures r == Ok(BodyHtml(nodes))
  {
    var html := NodesToHtml(nodes);
    r := Ok(html);
  }

  method GenerateHtml(stylesheet: string, nodes: seq<Node>) returns (r: Result<string>)
    ensures r == Ok(DocumentHtml(stylesheet, nodes))
  {
    var head := DocumentHead(stylesheet);
    var body := NodesToHtml(nodes);
    r := Ok(head + body + DocumentTail);
  }
}
