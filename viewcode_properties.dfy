/**
 * What the generated Rust code promises about its braces. Every `view! {` the generator
 * opens is closed again, and a state binding's `{` is too, as long as the names, props and
 * texts of the nodes hold no brace of their own. The same does not hold for the closing
 * text of a childless node as written.
 */
module ViewCodeProperties {
  import opened Props
  import opened Ast
  import opened Strings
  import opened ViewCode

  // ------------------------------------------------------------------ brace counting

  /** Opening braces minus closing braces. */
  function Balance(s: string): int
  {
    Count(s, '{') - Count(s, '}')
  }

  lemma BalanceAppend(a: string, b: string)
    ensures Balance(a + b) == Balance(a) + Balance(b)
  {
    CountToAppend(a, b, '{', |b|);
    CountToAppend(a, b, '}', |b|);
  }

  predicate BraceFree(s: string) {
    forall i :: 0 <= i < |s| ==> s[i] != '{' && s[i] != '}'
  }

  lemma BalanceFree(s: string)
    requires BraceFree(s)
    ensures Balance(s) == 0
  {
    CountToAbsent(s, '{', |s|);
    CountToAbsent(s, '}', |s|);
  }

  lemma BalanceAppend3(a: string, b: string, c: string)
    ensures Balance(a + b + c) == Balance(a) + Balance(b) + Balance(c)
  {
    BalanceAppend(a + b, c);
    BalanceAppend(a, b);
  }

  lemma BraceBalance()
    ensures Balance("{") == 1 && Balance("}") == -1
  {
  }

  // ------------------------------------------------------------------ the fixed texts

  lemma OpenBalance()
    ensures Balance("view! {\n    <") == 1
  {
    assert "view! {\n    <" == "view! " + "{" + "\n    <";
    BalanceAppend3("view! ", "{", "\n    <");
    BalanceFree("view! ");
    BalanceFree("\n    <");
    BraceBalance();
  }

  lemma SelfCloseBalance()
    ensures Balance(SelfClose) == -1
  {
    assert SelfClose == "/>\n" + "}";
    BalanceAppend("/>\n", "}");
    BalanceFree("/>\n");
    BraceBalance();
  }

  lemma AsWrittenSelfCloseBalance()
    ensures Balance(AsWrittenSelfClose) == -2
  {
    assert AsWrittenSelfClose == SelfClose + "}";
    BalanceAppend(SelfClose, "}");
    SelfCloseBalance();
    BraceBalance();
  }

  lemma CloseLineBalance()
    ensures Balance(">\n}") == -1
  {
    assert ">\n}" == ">\n" + "}";
    BalanceAppend(">\n", "}");
    BalanceFree(">\n");
    BraceBalance();
  }

  lemma BindingBalance(signal: string, operation: string)
    requires BraceFree(signal) && BraceFree(operation)
    ensures Balance("{move || " + signal + "." + operation + "}") == 0
  {
    assert "{move || " == "{" + "move || ";
    BalanceAppend("{", "move || ");
    BalanceFree("move || ");
    BraceBalance();
    BalanceAppend3("{move || ", signal, ".");
    BalanceAppend3("{move || " + signal + ".", operation, "}");
    BalanceFree(signal);
    BalanceFree(".");
    BalanceFree(operation);
  }

  // ------------------------------------------------------------------ nodes

  predicate PropsBraceFree(p: Props) {
    forall i :: 0 <= i < |p| ==> BraceFree(p[i].0) && BraceFree(p[i].1)
  }

  /** No name, prop, text, signal or operation anywhere in `n` holds a brace. */
  predicate TreeBraceFree(n: Node)
    decreases n
  {
    match n
    case Element(tag, props, children) =>
      BraceFree(tag) && PropsBraceFree(props)
      && forall i :: 0 <= i < |children| ==> TreeBraceFree(children[i])
    case Component(name, props, children) =>
      BraceFree(name) && PropsBraceFree(props)
      && forall i :: 0 <= i < |children| ==> TreeBraceFree(children[i])
    case Text(text) => BraceFree(text)
    case StateBinding(signal, operation) => BraceFree(signal) && BraceFree(operation)
    case Import(names, from) => false
    case ExpressionNode(_) => false
  }

  lemma AttributeTextFree(key: string, value: string)
    requires BraceFree(key) && BraceFree(value)
    ensures BraceFree(AttributeText(key, value))
  {
  }

  lemma ComponentAttributeTextFree(key: string, value: string)
    requires BraceFree(key) && BraceFree(value)
    ensures BraceFree(ComponentAttributeText(key, value))
  {
  }

  lemma {:induction false} ElementAttributesBalance(p: Props)
    requires PropsBraceFree(p)
    ensures Balance(ElementAttributes(p)) == 0
  {
    if p != [] {
      var (key, value) := p[|p| - 1];
      ElementAttributesBalance(p[..|p| - 1]);
      AttributeTextFree(key, value);
      BalanceAppend(ElementAttributes(p[..|p| - 1]), AttributeText(key, value));
      BalanceFree(AttributeText(key, value));
    }
  }

  lemma {:induction false} ComponentAttributesBalance(p: Props)
    requires PropsBraceFree(p)
    ensures Balance(ComponentAttributes(p)) == 0
  {
    if p != [] {
      var (key, value) := p[|p| - 1];
      ComponentAttributesBalance(p[..|p| - 1]);
      ComponentAttributeTextFree(key, value);
      BalanceAppend(ComponentAttributes(p[..|p| - 1]), ComponentAttributeText(key, value));
      BalanceFree(ComponentAttributeText(key, value));
    }
  }

  /** Every node without braces of its own is generated with as many `{` as `}`. */
  lemma {:induction false} NodeRustBalanced(n: Node)
    requires IsParserTree(n) && TreeBraceFree(n)
    ensures Balance(NodeRust(n)) == 0
    decreases n, 3, 0
  {
    match n
    case Element(tag, props, _) =>
      ElementAttributesBalance(props);
      BodyBalanced(n);
      OpenedBalance(tag, ElementAttributes(props), BodyWith(n, SelfClose));
    case Component(name, props, _) =>
      ComponentAttributesBalance(props);
      BodyBalanced(n);
      OpenedBalance(name, ComponentAttributes(props), BodyWith(n, SelfClose));
    case Text(text) =>
      BalanceFree("\"");
      BalanceFree(text);
      BalanceAppend3("\"", text, "\"");
    case StateBinding(signal, operation) =>
      BindingBalance(signal, operation);
  }

  /** The opening `view! {` line opens one brace more than the rest of the node text. */
  lemma OpenedBalance(name: string, attributes: string, body: string)
    requires BraceFree(name) && Balance(attributes) == 0
    ensures Balance("view! {\n    <" + name + " " + attributes + body) == 1 + Balance(body)
  {
    var open := "view! {\n    <";
    OpenBalance();
    BalanceFree(name);
    BalanceFree(" ");
    BalanceAppend3(open, name, " ");
    BalanceAppend3(open + name + " ", attributes, body);
  }

  /** The end of an element or component closes exactly the brace its `view! {` opened. */
  lemma {:induction false} BodyBalanced(n: Node)
    requires IsParserTree(n) && TreeBraceFree(n) && (n.Element? || n.Component?)
    ensures Balance(BodyWith(n, SelfClose)) == -1
    decreases n, 2, 0
  {
    if n.children == [] {
      SelfCloseBalance();
    } else {
      var lines := ChildLinesWith(n, |n.children|, SelfClose);
      ChildLinesBalanced(n, |n.children|);
      CloseLineBalance();
      BalanceFree(">\n");
      BalanceFree("    </");
      BalanceFree(OpenName(n));
      BalanceAppend3(">\n", lines, "    </");
      BalanceAppend3(">\n" + lines + "    </", OpenName(n), ">\n}");
    }
  }

  lemma {:induction false} ChildLinesBalanced(n: Node, k: nat)
    requires IsParserTree(n) && TreeBraceFree(n) && (n.Element? || n.Component?)
    requires k <= |n.children|
    ensures Balance(ChildLinesWith(n, k, SelfClose)) == 0
    decreases n, 1, k
  {
    if k > 0 {
      var child := n.children[k - 1];
      ChildLinesBalanced(n, k - 1);
      NodeRustBalanced(child);
      ChildRustIsNodeRust(child, SelfClose);
      var before := ChildLinesWith(n, k - 1, SelfClose);
      BalanceFree("        ");
      BalanceFree("\n");
      BalanceAppend3(before, "        ", NodeRust(child));
      BalanceAppend(before + "        " + NodeRust(child), "\n");
    }
  }

  /** The whole generated file has as many `{` as `}`. */
  lemma {:induction false} GenerateRustBalanced(nodes: seq<Node>)
    requires forall i :: 0 <= i < |nodes| ==> IsParserTree(nodes[i]) && TreeBraceFree(nodes[i])
    ensures Balance(GenerateRustSpec(nodes)) == 0
  {
    NodesRustBalanced(nodes);
    PreludeBalance();
    BalanceAppend(Prelude, NodesRust(nodes));
  }

  lemma PreludeBalance()
    ensures Balance(Prelude) == 0
  {
    BalanceFree(Prelude);
  }

  lemma {:induction false} NodesRustBalanced(nodes: seq<Node>)
    requires forall i :: 0 <= i < |nodes| ==> IsParserTree(nodes[i]) && TreeBraceFree(nodes[i])
    ensures Balance(NodesRust(nodes)) == 0
  {
    if nodes != [] {
      var last := nodes[|nodes| - 1];
      NodesRustBalanced(nodes[..|nodes| - 1]);
      NodeRustBalanced(last);
      BalanceFree("\n");
      BalanceAppend3(NodesRust(nodes[..|nodes| - 1]), NodeRust(last), "\n");
    }
  }

  // ------------------------------------------------------------------ as written

  /**
   * As written, a childless element or component without braces of its own closes one
   * brace more than it opens.
   */
  lemma AsWrittenChildless(n: Node)
    requires IsParserTree(n) && TreeBraceFree(n) && (n.Element? || n.Component?)
    requires n.children == []
    ensures Balance(NodeRustWith(n, AsWrittenSelfClose)) == -1
  {
    AsWrittenSelfCloseBalance();
    assert BodyWith(n, AsWrittenSelfClose) == AsWrittenSelfClose;
    if n.Element? {
      ElementAttributesBalance(n.props);
      OpenedBalance(n.tag, ElementAttributes(n.props), AsWrittenSelfClose);
    } else {
      ComponentAttributesBalance(n.props);
      OpenedBalance(n.name, ComponentAttributes(n.props), AsWrittenSelfClose);
    }
  }

  /** The element `br` (the line `<br>`) opens one `{` and closes two as written; fixed, it balances. */
  lemma AsWrittenUnbalanced()
    ensures Balance(NodeRustWith(Element("br", [], []), AsWrittenSelfClose)) == -1
    ensures Balance(NodeRust(Element("br", [], []))) == 0
  {
    var br := Element("br", [], []);
    assert TreeBraceFree(br);
    AsWrittenChildless(br);
    NodeRustBalanced(br);
  }
}
