/**
 * What the dev server's HTML promises: every element and component opens exactly one tag
 * and closes exactly one (even for tag names HTML treats as void), the body is the nodes'
 * HTML in order, and the page starts with the doctype and ends by closing the app `div`.
 */
module HtmlProperties {
  import opened Props
  import opened Ast
  import opened Strings
  import opened Html

  // ------------------------------------------------------------------ tag counting

  /** `c` is one of the two angle brackets. */
  predicate Angle(c: char) {
    c == '<' || c == '>'
  }

  predicate PropsFreeOf(p: Props, c: char) {
    forall i :: 0 <= i < |p| ==> c !in p[i].0 && c !in p[i].1
  }

  /** No tag, name, prop or text anywhere in `n` holds `c`. */
  predicate FreeOf(n: Node, c: char)
    decreases n
  {
    match n
    case Element(tag, props, children) =>
      c !in tag && PropsFreeOf(props, c) && forall i :: 0 <= i < |children| ==> FreeOf(children[i], c)
    case Component(name, props, children) =>
      c !in name && PropsFreeOf(props, c) && forall i :: 0 <= i < |children| ==> FreeOf(children[i], c)
    case Text(text) => c !in text
    case _ => true
  }

  predicate ChildrenFreeOf(n: Node, c: char)
    requires n.Element? || n.Component?
  {
    forall i :: 0 <= i < |n.children| ==> FreeOf(n.children[i], c)
  }

  /** The number of elements and components in `n`: the nodes that become tags. */
  function Tags(n: Node): nat
    decreases n, 1
  {
    if n.Element? || n.Component? then 1 + ChildrenTags(n, |n.children|) else 0
  }

  function ChildrenTags(n: Node, k: nat): nat
    requires (n.Element? || n.Component?) && k <= |n.children|
    decreases n, 0, k
  {
    if k == 0 then 0 else ChildrenTags(n, k - 1) + Tags(n.children[k - 1])
  }

  lemma CountAppend3(a: string, b: string, d: string, c: char)
    ensures Count(a + b + d, c) == Count(a, c) + Count(b, c) + Count(d, c)
  {
    CountAppend(a + b, d, c);
    CountAppend(a, b, c);
  }

  /** A one-character string counts one for its own character. */
  lemma CountSingle(x: char, c: char)
    ensures Count([x], c) == if x == c then 1 else 0
  {
    assert CountTo([x], c, 0) == 0;
  }

  lemma {:induction false} PropAttributesFree(p: Props, c: char)
    requires Angle(c) && PropsFreeOf(p, c)
    ensures c !in PropAttributes(p)
  {
    if p != [] {
      PropAttributesFree(p[..|p| - 1], c);
    }
  }

  lemma {:induction false} DataAttributesFree(p: Props, c: char)
    requires Angle(c) && PropsFreeOf(p, c)
    ensures c !in DataAttributes(p)
  {
    if p != [] {
      DataAttributesFree(p[..|p| - 1], c);
    }
  }

  /** Text around which one `<` and one `>` are written counts one for either bracket. */
  lemma Bracketed(middle: string, c: char)
    requires Angle(c) && c !in middle
    ensures Count("<" + middle + ">", c) == 1
  {
    CountAppend3("<", middle, ">", c);
    CountAbsent(middle, c);
    CountSingle('<', c);
    CountSingle('>', c);
  }

  /** The opening tag of an element holds one of each bracket. */
  lemma OpenElementCount(tag: string, props: Props, c: char)
    requires Angle(c) && c !in tag && PropsFreeOf(props, c)
    ensures Count("<" + tag + PropAttributes(props) + ">", c) == 1
  {
    PropAttributesFree(props, c);
    AppendAssoc("<", tag, PropAttributes(props));
    Bracketed(tag + PropAttributes(props), c);
  }

  /** The opening `div` of a component holds one of each bracket. */
  lemma OpenComponentCount(name: string, props: Props, c: char)
    requires Angle(c) && c !in name && PropsFreeOf(props, c)
    ensures Count("<div data-component='" + name + "'" + DataAttributes(props) + ">", c) == 1
  {
    var attributes := DataAttributes(props);
    DataAttributesFree(props, c);
    ComponentOpenSplit(name, attributes);
    assert c !in "div data-component='";
    Bracketed("div data-component='" + name + "'" + attributes, c);
  }

  lemma ComponentOpenSplit(name: string, attributes: string)
    ensures "<div data-component='" + name + "'" + attributes + ">"
            == "<" + ("div data-component='" + name + "'" + attributes) + ">"
  {
    assert "<div data-component='" == "<" + "div data-component='";
  }

  /** The closing tag of an element or component holds one of each bracket. */
  lemma CloseTagCount(n: Node, c: char)
    requires Angle(c) && (n.Element? || n.Component?)
    requires n.Element? ==> c !in n.tag
    ensures n.Element? ==> Count("</" + n.tag + ">", c) == 1
    ensures n.Component? ==> Count("</div>", c) == 1
  {
    if n.Element? {
      assert "</" + n.tag + ">" == "<" + ("/" + n.tag) + ">";
      Bracketed("/" + n.tag, c);
    } else {
      assert "</div>" == "<" + "/div" + ">";
      Bracketed("/div", c);
    }
  }

  /**
   * Every element and component writes exactly one `<` and one `>` for its opening tag and
   * one of each for its closing tag; texts and other nodes write none of their own.
   */
  lemma {:induction false} NodeHtmlTags(n: Node, c: char)
    requires Angle(c) && FreeOf(n, c)
    ensures Count(NodeHtml(n), c) == 2 * Tags(n)
    decreases n, 1, 0, 0
  {
    match n
    case Element(tag, props, children) =>
      var children := ChildrenHtml(n, |n.children|);
      OpenElementCount(tag, props, c);
      CloseTagCount(n, c);
      ChildrenHtmlTags(n, |n.children|, c);
      CountAppend3("<" + tag + PropAttributes(props) + ">", children, "</" + tag + ">", c);
    case Component(name, props, children) =>
      var children := ChildrenHtml(n, |n.children|);
      OpenComponentCount(name, props, c);
      CloseTagCount(n, c);
      ChildrenHtmlTags(n, |n.children|, c);
      CountAppend3("<div data-component='" + name + "'" + DataAttributes(props) + ">", children, "</div>", c);
    case Text(text) =>
      CountAbsent(text, c);
    case StateBinding(_, _) =>
    case Import(_, _) =>
    case ExpressionNode(_) =>
  }

  lemma {:induction false} ChildrenHtmlTags(n: Node, k: nat, c: char)
    requires Angle(c) && (n.Element? || n.Component?) && k <= |n.children|
    requires ChildrenFreeOf(n, c)
    ensures Count(ChildrenHtml(n, k), c) == 2 * ChildrenTags(n, k)
    decreases n, 0, k, 1
  {
    if k > 0 {
      ChildHtmlTags(n, k - 1, c);
    }
  }

  /** One more child adds its own tags to those of the children before it. */
  lemma {:induction false} ChildHtmlTags(n: Node, i: nat, c: char)
    requires Angle(c) && (n.Element? || n.Component?) && i < |n.children|
    requires ChildrenFreeOf(n, c)
    ensures Count(ChildrenHtml(n, i + 1), c) == 2 * ChildrenTags(n, i + 1)
    decreases n, 0, i + 1, 0
  {
    assert FreeOf(n.children[i], c);
    ChildrenHtmlTags(n, i, c);
    NodeHtmlTags(n.children[i], c);
    ChildrenTagsStep(n, i, c);
  }

  lemma ChildrenTagsStep(n: Node, i: nat, c: char)
    requires (n.Element? || n.Component?) && i < |n.children|
    requires Count(ChildrenHtml(n, i), c) == 2 * ChildrenTags(n, i)
    requires Count(NodeHtml(n.children[i]), c) == 2 * Tags(n.children[i])
    ensures Count(ChildrenHtml(n, i + 1), c) == 2 * ChildrenTags(n, i + 1)
  {
    CountAppend(ChildrenHtml(n, i), NodeHtml(n.children[i]), c);
  }

  /** A void tag name such as `br` still gets a closing tag. */
  lemma VoidElementClosed()
    ensures NodeHtml(Element("br", [], [])) == "<br></br>"
  {
    assert PropAttributes([]) == "";
    assert ChildrenHtml(Element("br", [], []), 0) == "";
  }

  // ------------------------------------------------------------------ body and page

  /** The body of two node lists is the body of the first followed by that of the second. */
  lemma {:induction false} BodyHtmlAppend(a: seq<Node>, b: seq<Node>)
    ensures BodyHtml(a + b) == BodyHtml(a) + BodyHtml(b)
  {
    if b == [] {
      assert a + b == a;
    } else {
      var b' := b[..|b| - 1];
      assert (a + b)[..|a + b| - 1] == a + b';
      BodyHtmlAppend(a, b');
      AppendAssoc(BodyHtml(a), BodyHtml(b'), NodeHtml(b[|b| - 1]));
    }
  }

  /** Nodes that write no HTML can be dropped from the body. */
  lemma SilentNode(nodes: seq<Node>, n: Node)
    requires !(n.Element? || n.Component? || n.Text?)
    ensures BodyHtml(nodes + [n]) == BodyHtml(nodes)
  {
    assert (nodes + [n])[..|nodes|] == nodes;
  }

  lemma StartsWithAppend(a: string, b: string, p: string)
    requires StartsWith(a, p)
    ensures StartsWith(a + b, p)
  {
    assert (a + b)[..|p|] == a[..|p|];
  }

  /** The page starts with the doctype and ends by closing the app `div`, the body and the page. */
  lemma DocumentFrame(stylesheet: string, nodes: seq<Node>)
    ensures StartsWith(DocumentHtml(stylesheet, nodes), "<!DOCTYPE html>")
    ensures EndsWith(DocumentHtml(stylesheet, nodes), "</div></body></html>")
  {
    var d := "<!DOCTYPE html>";
    var s := d + "<html lang='en'>" + "<head>" + "<meta charset='UTF-8'>"
      + "<meta name='viewport' content='width=device-width, initial-scale=1.0'>"
      + "<title>Ferrum App - Pure Rust</title>" + "<style>";
    HeadStart(s);
    StartsWithAppend(s, stylesheet, d);
    StartsWithAppend(s + stylesheet, "</style>", d);
    StartsWithAppend(s + stylesheet + "</style>", "</head>", d);
    StartsWithAppend(s + stylesheet + "</style>" + "</head>", "<body>", d);
    StartsWithAppend(s + stylesheet + "</style>" + "</head>" + "<body>", "<div id='ferrum-app'>", d);
    var head := DocumentHead(stylesheet);
    StartsWithAppend(head, BodyHtml(nodes), d);
    StartsWithAppend(head + BodyHtml(nodes), DocumentTail, d);
    var page := head + BodyHtml(nodes) + DocumentTail;
    assert DocumentTail == "</div></body></html>";
    assert page[|page| - |DocumentTail|..] == DocumentTail;
  }

  /**
   * The fixed text before the stylesheet starts with the doctype. The text is a parameter pinned
   * by the requires so that `DocumentFrame` can name it once and build on it piece by piece.
   */
  lemma HeadStart(s: string)
    requires s == "<!DOCTYPE html>" + "<html lang='en'>" + "<head>" + "<meta charset='UTF-8'>"
      + "<meta name='viewport' content='width=device-width, initial-scale=1.0'>"
      + "<title>Ferrum App - Pure Rust</title>" + "<style>"
    ensures StartsWith(s, "<!DOCTYPE html>")
  {
    var d := "<!DOCTYPE html>";
    assert StartsWith(d, d);
    StartsWithAppend(d, "<html lang='en'>", d);
    StartsWithAppend(d + "<html lang='en'>", "<head>", d);
    StartsWithAppend(d + "<html lang='en'>" + "<head>", "<meta charset='UTF-8'>", d);
    StartsWithAppend(d + "<html lang='en'>" + "<head>" + "<meta charset='UTF-8'>",
      "<meta name='viewport' content='width=device-width, initial-scale=1.0'>", d);
    StartsWithAppend(d + "<html lang='en'>" + "<head>" + "<meta charset='UTF-8'>"
      + "<meta name='viewport' content='width=device-width, initial-scale=1.0'>",
      "<title>Ferrum App - Pure Rust</title>", d);
    StartsWithAppend(d + "<html lang='en'>" + "<head>" + "<meta charset='UTF-8'>"
      + "<meta name='viewport' content='width=device-width, initial-scale=1.0'>"
      + "<title>Ferrum App - Pure Rust</title>", "<style>", d);
  }
}
