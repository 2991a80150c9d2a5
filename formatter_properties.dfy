/**
 * What the formatter promises: indentation by depth, the fixed operator table, `id` and
 * `class` written only in their shorthand places, exactly one line per node, and plain text
 * lines that the parser reads back as the same nodes.
 */
module FormatterProperties {
  import opened Wrappers
  import opened Strings
  import opened Props
  import opened Ast
  import opened Parser
  import opened Formatter

  // ------------------------------------------------------------------ indentation

  /** One level deeper is one more indent unit. */
  lemma IndentStringNext(f: FerrumFormatter, depth: nat)
    ensures IndentString(f, depth + 1) == IndentString(f, depth) + IndentString(f, 1)
  {
    assert (depth + 1) * f.indentSize == depth * f.indentSize + f.indentSize;
  }

  /** The default formatter indents by four spaces per level. */
  lemma DefaultIndent(depth: nat)
    ensures |IndentString(Default(), depth)| == 4 * depth
    ensures forall i :: 0 <= i < 4 * depth ==> IndentString(Default(), depth)[i] == ' '
  {
  }

  // ------------------------------------------------------------------ expressions

  /** No two operators are written the same way. */
  lemma OperatorTextInjective(a: BinaryOperator, b: BinaryOperator)
    ensures OperatorText(a) == OperatorText(b) ==> a == b
  {
    if OperatorText(a) == OperatorText(b) {
      var t := OperatorText(a);
      assert t[1] == OperatorText(b)[1];
      if |t| == 3 {
        assert t[1] in "+-*/><";
      } else {
        assert t[1..3] == OperatorText(b)[1..3];
      }
    }
  }

  /** `format_expression` writes the indent, the text `expression_to_string` gives, and a line feed. */
  lemma ExpressionLineIsString(e: Expression, indent: string)
    ensures ExpressionLine(e, indent) == indent + ExpressionToString(e) + "\n"
  {
    match e
    case StringLiteral(s) =>
      AppendAssoc(indent, "\"" + s, "\"");
      AppendAssoc(indent, "\"", s);
    case Number(_) =>
    case SignalAccess(_) =>
    case PropertyAccess(signal, property) =>
      AppendAssoc(indent, signal + ".", property);
      AppendAssoc(indent, signal, ".");
    case BinaryOperation(left, op, right) =>
      var l, o, r := ExpressionToString(left), OperatorText(op), ExpressionToString(right);
      AppendAssoc(indent, l + o, r);
      AppendAssoc(indent, l, o);
    case FunctionCall(callee, args) =>
      var a := Join(ArgumentStrings(e, |args|), ", ");
      AppendAssoc(indent, callee + "(" + a, ")");
      AppendAssoc(indent, callee + "(", a);
      AppendAssoc(indent, callee, "(");
  }

  // ------------------------------------------------------------------ element props

  lemma OtherPropsTextCons(x: (string, string), rest: Props)
    ensures OtherPropsText([x] + rest) == OtherPropText(x.0, x.1) + OtherPropsText(rest)
    decreases |rest|
  {
    if rest == [] {
      assert ([x] + rest)[..0] == [];
    } else {
      var p := [x] + rest;
      assert p[..|p| - 1] == [x] + rest[..|rest| - 1];
      OtherPropsTextCons(x, rest[..|rest| - 1]);
      AppendAssoc(OtherPropText(x.0, x.1), OtherPropsText(rest[..|rest| - 1]),
                  OtherPropText(rest[|rest| - 1].0, rest[|rest| - 1].1));
    }
  }

  /** Setting `id` or `class` never changes the ` key="value"` part of an element line. */
  lemma {:induction false} OtherPropsIgnoreIdClass(p: Props, k: string, v: string)
    requires k == "id" || k == "class"
    ensures OtherPropsText(Insert(p, k, v)) == OtherPropsText(p)
  {
    if p == [] {
      assert Insert(p, k, v) == [(k, v)] + [];
      OtherPropsTextCons((k, v), []);
    } else if p[0].0 == k {
      OtherPropsTextCons((k, v), p[1..]);
      OtherPropsTextCons(p[0], p[1..]);
      assert [p[0]] + p[1..] == p;
    } else {
      OtherPropsIgnoreIdClass(p[1..], k, v);
      OtherPropsTextCons(p[0], Insert(p[1..], k, v));
      OtherPropsTextCons(p[0], p[1..]);
      assert [p[0]] + p[1..] == p;
    }
  }

  // ------------------------------------------------------------------ one line per node

  predicate PropsNewlineFree(p: Props) {
    forall i :: 0 <= i < |p| ==> '\n' !in p[i].0 && '\n' !in p[i].1
  }

  /** No name, prop, text, signal or operation anywhere in `n` holds a line feed. */
  predicate NewlineFree(n: Node)
    decreases n
  {
    match n
    case Element(tag, props, children) =>
      '\n' !in tag && PropsNewlineFree(props)
      && forall i :: 0 <= i < |children| ==> NewlineFree(children[i])
    case Component(name, props, children) =>
      '\n' !in name && PropsNewlineFree(props)
      && forall i :: 0 <= i < |children| ==> NewlineFree(children[i])
    case Text(text) => '\n' !in text
    case StateBinding(signal, operation) => '\n' !in signal && '\n' !in operation
    case Import(_, _) => false
    case ExpressionNode(_) => false
  }

  predicate ChildrenNewlineFree(n: Node)
    requires n.Element? || n.Component?
  {
    forall i :: 0 <= i < |n.children| ==> NewlineFree(n.children[i])
  }

  /** The number of nodes in the tree `n`. */
  function TreeSize(n: Node): nat
    decreases n, 1
  {
    if n.Element? || n.Component? then 1 + ChildrenSize(n, |n.children|) else 1
  }

  function ChildrenSize(n: Node, k: nat): nat
    requires (n.Element? || n.Component?) && k <= |n.children|
    decreases n, 0, k
  {
    if k == 0 then 0 else ChildrenSize(n, k - 1) + TreeSize(n.children[k - 1])
  }

  lemma {:induction false} JoinNewlineFree(parts: seq<string>, sep: string)
    requires '\n' !in sep && forall i :: 0 <= i < |parts| ==> '\n' !in parts[i]
    ensures '\n' !in Join(parts, sep)
  {
    if |parts| > 1 {
      JoinNewlineFree(parts[1..], sep);
    }
  }

  lemma {:induction false} ClassTokensNewlineFree(tokens: seq<string>)
    requires forall i :: 0 <= i < |tokens| ==> NoWhitespace(tokens[i])
    ensures '\n' !in ClassTokensText(tokens)
  {
    if tokens != [] {
      var last := tokens[|tokens| - 1];
      ClassTokensNewlineFree(tokens[..|tokens| - 1]);
      assert IsWhitespace('\n');
      assert '\n' !in last;
    }
  }

  lemma ClassTextNewlineFree(props: Props)
    ensures '\n' !in ClassText(props)
  {
    match Get(props, "class")
    case Some(classes) =>
      SplitWhitespaceTokens(classes);
      ClassTokensNewlineFree(SplitWhitespace(classes));
    case None =>
  }

  lemma GetNewlineFree(props: Props, k: string)
    requires PropsNewlineFree(props)
    ensures Get(props, k).Some? ==> '\n' !in Get(props, k).value
    decreases |props|
  {
    if props != [] && props[0].0 != k {
      assert forall i :: 0 <= i < |props[1..]| ==> props[1..][i] == props[i + 1];
      GetNewlineFree(props[1..], k);
    }
  }

  lemma {:induction false} OtherPropsNewlineFree(props: Props)
    requires PropsNewlineFree(props)
    ensures '\n' !in OtherPropsText(props)
  {
    if props != [] {
      OtherPropsNewlineFree(props[..|props| - 1]);
    }
  }

  lemma {:induction false} PropPairsNewlineFree(props: Props)
    requires PropsNewlineFree(props)
    ensures forall i :: 0 <= i < |props| ==> '\n' !in PropPairs(props)[i]
  {
    if props != [] {
      PropPairsNewlineFree(props[..|props| - 1]);
      var r := PropPairs(props);
      forall i | 0 <= i < |props|
        ensures '\n' !in r[i]
      {
        if i < |props| - 1 {
          assert r[i] == PropPairs(props[..|props| - 1])[i];
        }
      }
    }
  }

  /** A line body without line feeds, followed by one, holds exactly one line feed. */
  lemma OneLine(body: string)
    requires '\n' !in body
    ensures Count(body + "\n", '\n') == 1
  {
    CountAppend(body, "\n", '\n');
    CountAbsent(body, '\n');
  }

  /** No literal, number, name or property anywhere in `e` holds a line feed. */
  predicate ExpressionNewlineFree(e: Expression)
    decreases e
  {
    match e
    case StringLiteral(s) => '\n' !in s
    case Number(display) => '\n' !in display
    case SignalAccess(s) => '\n' !in s
    case PropertyAccess(signal, property) => '\n' !in signal && '\n' !in property
    case BinaryOperation(left, _, right) => ExpressionNewlineFree(left) && ExpressionNewlineFree(right)
    case FunctionCall(callee, args) =>
      '\n' !in callee && forall i :: 0 <= i < |args| ==> ExpressionNewlineFree(args[i])
  }

  lemma OperatorNewlineFree(op: BinaryOperator)
    ensures '\n' !in OperatorText(op)
  {
  }

  /** `expression_to_string` adds no line feed of its own: an expression is one line of text. */
  lemma {:induction false} ExpressionTextNewlineFree(e: Expression)
    requires ExpressionNewlineFree(e)
    ensures '\n' !in ExpressionToString(e)
    decreases e, 1
  {
    match e
    case StringLiteral(_) =>
    case Number(_) =>
    case SignalAccess(_) =>
    case PropertyAccess(_, _) =>
    case BinaryOperation(left, op, right) =>
      ExpressionTextNewlineFree(left);
      ExpressionTextNewlineFree(right);
      OperatorNewlineFree(op);
    case FunctionCall(_, args) =>
      ArgumentStringsNewlineFree(e, |args|);
      JoinNewlineFree(ArgumentStrings(e, |args|), ", ");
  }

  lemma {:induction false} ArgumentStringsNewlineFree(call: Expression, k: nat)
    requires call.FunctionCall? && k <= |call.args| && ExpressionNewlineFree(call)
    ensures forall i :: 0 <= i < k ==> '\n' !in ArgumentStrings(call, k)[i]
    decreases call, 0, k
  {
    if k > 0 {
      ArgumentStringsNewlineFree(call, k - 1);
      ExpressionTextNewlineFree(call.args[k - 1]);
    }
  }

  /** `format_expression` writes exactly one line. */
  lemma ExpressionLineCount(e: Expression, indent: string)
    requires '\n' !in indent && ExpressionNewlineFree(e)
    ensures Count(ExpressionLine(e, indent), '\n') == 1
  {
    ExpressionLineIsString(e, indent);
    ExpressionTextNewlineFree(e);
    OneLine(indent + ExpressionToString(e));
  }

  /** The line a node itself is written on. */
  lemma NodeLineCount(f: FerrumFormatter, n: Node, depth: nat)
    requires f.indentChar != '\n' && NewlineFree(n)
    ensures Count(NodeLine(f, n, depth), '\n') == 1
  {
    var indent := IndentString(f, depth);
    assert '\n' !in indent;
    match n
    case Element(tag, props, _) =>
      GetNewlineFree(props, "id");
      ClassTextNewlineFree(props);
      OtherPropsNewlineFree(props);
      OneLine(indent + tag + IdText(props) + ClassText(props) + OtherPropsText(props));
    case Text(text) =>
      if ' ' in text {
        OneLine(indent + "\"" + text + "\"");
      } else {
        OneLine(indent + text);
      }
    case Component(name, props, _) =>
      PropPairsNewlineFree(props);
      JoinNewlineFree(PropPairs(props), ", ");
      OneLine(indent + name + "(" + Join(PropPairs(props), ", ") + ")");
    case StateBinding(signal, operation) =>
      if operation == [] {
        OneLine(indent + signal);
      } else {
        OneLine(indent + signal + "." + operation);
      }
  }

  /** `format_node` writes exactly one line per node of the tree, in pre-order. */
  lemma {:induction false} NodeTextLines(f: FerrumFormatter, n: Node, depth: nat)
    requires f.indentChar != '\n' && NewlineFree(n)
    ensures Count(NodeText(f, n, depth), '\n') == TreeSize(n)
    decreases n, 1, 0, 0
  {
    NodeLineCount(f, n, depth);
    if n.Element? || n.Component? {
      ChildrenTextLines(f, n, |n.children|, depth + 1);
      CountAppend(NodeLine(f, n, depth), ChildrenText(f, n, |n.children|, depth + 1), '\n');
    }
  }

  lemma {:induction false} ChildrenTextLines(f: FerrumFormatter, n: Node, k: nat, depth: nat)
    requires f.indentChar != '\n' && (n.Element? || n.Component?) && k <= |n.children|
    requires ChildrenNewlineFree(n)
    ensures Count(ChildrenText(f, n, k, depth), '\n') == ChildrenSize(n, k)
    decreases n, 0, k, 1
  {
    if k > 0 {
      ChildLines(f, n, k - 1, depth);
    }
  }

  /** One more child adds its own lines to those of the children before it. */
  lemma {:induction false} ChildLines(f: FerrumFormatter, n: Node, i: nat, depth: nat)
    requires f.indentChar != '\n' && (n.Element? || n.Component?) && i < |n.children|
    requires ChildrenNewlineFree(n)
    ensures Count(ChildrenText(f, n, i + 1, depth), '\n') == ChildrenSize(n, i + 1)
    decreases n, 0, i + 1, 0
  {
    assert NewlineFree(n.children[i]);
    ChildrenTextLines(f, n, i, depth);
    NodeTextLines(f, n.children[i], depth);
    ChildrenCountStep(f, n, i, depth);
  }

  lemma ChildrenCountStep(f: FerrumFormatter, n: Node, i: nat, depth: nat)
    requires (n.Element? || n.Component?) && i < |n.children|
    requires Count(ChildrenText(f, n, i, depth), '\n') == ChildrenSize(n, i)
    requires Count(NodeText(f, n.children[i], depth), '\n') == TreeSize(n.children[i])
    ensures Count(ChildrenText(f, n, i + 1, depth), '\n') == ChildrenSize(n, i + 1)
  {
    ChildrenTextStep(f, n, i, depth);
    CountAppend(ChildrenText(f, n, i, depth), NodeText(f, n.children[i], depth), '\n');
  }

  // ------------------------------------------------------------------ round trip

  /** A line of plain text: the parser reads it as a text node. */
  predicate PlainText(t: string) {
    t != [] && IsBareText(t) && '<' !in t && '\n' !in t && Trim(t) == t && !StartsWith(t, "//")
  }

  /** Formatting a plain text node and parsing the result gives the node back. */
  lemma FormatParseText(t: string)
    requires PlainText(t)
    ensures ParseSpec(NodesText(Default(), [Text(t)])) == Ok([Text(t)])
  {
    FormattedText(t);
    ParseTextLine(t);
  }

  /** At the top level a plain text node is written as itself on a line of its own. */
  lemma FormattedText(t: string)
    requires PlainText(t)
    ensures NodesText(Default(), [Text(t)]) == t + "\n"
  {
    assert [Text(t)][..0] == [];
    assert IndentString(Default(), 0) == "";
    assert NodeText(Default(), Text(t), 0) == t + "\n";
  }

  /** The parser reads a plain text line back as one text node. */
  lemma ParseTextLine(t: string)
    requires PlainText(t)
    ensures ParseSpec(t + "\n") == Ok([Text(t)])
  {
    assert !IsWhitespace(t[|t| - 1]);
    LinesOfLine(t);
    ParseLineText(t);
    OutcomesAt([t], 0);
    var outcomes := Outcomes([t]);
    var st := ParseState([], []);
    assert Attach(st, Text(t)) == ParseState([Text(t)], []);
    assert ParseStep(st, outcomes[0]) == Ok(ParseState([Text(t)], []));
    assert ParseFrom(outcomes, 1, ParseState([Text(t)], [])) == Ok([Text(t)]);
    assert ParseSpec(t + "\n") == ParseFrom(outcomes, 0, st);
  }

  /** A line without a line feed, ended by one, is a single line. */
  lemma LinesOfLine(t: string)
    requires '\n' !in t && (t == [] || t[|t| - 1] != '\r')
    ensures Lines(t + "\n") == [t]
  {
    var s := t + "\n";
    FindAfter(t);
    assert s[..|t|] == t;
    assert s[|t| + 1..] == [];
    assert DropCarriageReturn(t) == t;
  }

  lemma FindAfter(t: string)
    requires '\n' !in t
    ensures Find(t + "\n", '\n') == Some(|t|)
  {
    var s := t + "\n";
    assert s[..|t|] == t;
    assert s[|t|] == '\n';
  }

  /** A plain text line parses as a text node. */
  lemma ParseLineText(t: string)
    requires PlainText(t)
    ensures Outcome(t) == Parsed(Indent(t), Ok(Text(t)))
  {
    assert !IsSkipped(t);
    assert Find(t, '(').None?;
    assert ParseLineSpec(t) == Ok(Text(t));
  }
}
