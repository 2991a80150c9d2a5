/**
 * The inputs of the parser's and the formatter's own unit tests, read by `parse` as written:
 * a component line with one prop above an indented text, and a shorthand element with an id
 * and a class above two indented shorthand lines.
 */
module SourceExamples {
  import opened Wrappers
  import opened Strings
  import opened Props
  import opened Ast
  import opened Parser
  import opened ParserProperties
  import opened Formatter
  import opened FormatterProperties
  import opened FormatterIdempotence
  import opened ParserExamples

  // ------------------------------------------------------------------ string facts

  /** A string without whitespace is its own only `split_whitespace` token. */
  lemma SingleToken(s: string)
    requires s != [] && NoWhitespace(s)
    ensures SplitWhitespace(s) == [s]
  {
    assert LeadingWhitespace(s) == 0;
    assert TrimStart(s) == s;
    assert WordEnd(s) == |s|;
    assert s[..|s|] == s && s[|s|..] == [];
  }

  /** No token of `split_whitespace` holds a character the string does not hold. */
  lemma {:induction false} SplitWhitespaceAvoids(s: string, c: char)
    requires c !in s
    ensures forall p :: p in SplitWhitespace(s) ==> c !in p
    decreases |s|
  {
    var t := TrimStart(s);
    if t != [] {
      var k := WordEnd(t);
      assert forall j :: 0 <= j < |t| ==> t[j] == s[LeadingWhitespace(s) + j];
      assert forall j :: 0 <= j < k ==> t[..k][j] == t[j];
      assert forall j :: 0 <= j < |t| - k ==> t[k..][j] == t[k + j];
      SplitWhitespaceAvoids(t[k..], c);
      assert SplitWhitespace(s) == [t[..k]] + SplitWhitespace(t[k..]);
    }
  }

  /** A line whose first character is not `/` is no comment. */
  lemma NotComment(s: string)
    requires s != [] && s[0] != '/'
    ensures !StartsWith(s, "//")
  {
    assert |s| < 2 || s[..2][0] == s[0];
  }

  /** Splitting at the only `c` of `a + [c] + b` gives `a` and `b`. */
  lemma SplitOnceAt(a: string, b: string, c: char)
    requires c !in a
    ensures SplitOnceOr(a + [c] + b, c) == (a, b)
  {
    var s := a + [c] + b;
    var r := SplitOnceOr(s, c);
    assert s[|a|] == c && s[..|a|] == a;
    assert s[|r.0|] == c && s[..|r.0|] == r.0;
    assert |r.0| == |a|;
    assert s[|a| + 1..] == b;
  }

  /** A single space before a trimmed string is all that trimming removes. */
  lemma TrimSpace(v: string)
    requires v != [] && !IsWhitespace(v[0]) && !IsWhitespace(v[|v| - 1])
    ensures Trim(" " + v) == v
  {
    var s := " " + v;
    assert s[1..] == v;
    assert LeadingWhitespace(v) == 0;
    assert LeadingWhitespace(s) == 1;
    assert TrailingWhitespace(v) == 0;
  }

  // ------------------------------------------------------------------ component lines

  /** The text between the parentheses of `name(key: value)` is read as the one prop. */
  lemma OnePropArguments(key: string, value: string)
    requires Word(key)
    requires value != [] && ',' !in value && !IsWhitespace(value[0]) && !IsWhitespace(value[|value| - 1])
    ensures ParsePropsSpec(key + ": " + value) == [(key, value)]
  {
    var inner := key + ": " + value;
    assert ',' !in inner by {
      assert forall j :: 0 <= j < |value| ==> inner[|key| + 2 + j] == value[j];
      assert forall j :: 0 <= j < |key| ==> inner[j] == key[j];
    }
    assert Split(inner, ',') == [inner];
    OnePropSegment(key, value);
    assert InsertSegment([], inner) == [(key, value)];
    assert PropsFrom([inner], 1, [(key, value)]) == [(key, value)];
  }

  lemma OnePropSegment(key: string, value: string)
    requires Word(key)
    requires value != [] && !IsWhitespace(value[0]) && !IsWhitespace(value[|value| - 1])
    ensures PropSegment(key + ": " + value) == Some((key, value))
  {
    var inner := key + ": " + value;
    PairColon(key, value);
    assert inner[0] == key[0] && inner[|inner| - 1] == value[|value| - 1];
    TrimIdentity(inner);
    TrimIdentity(key);
    TrimSpace(value);
  }

  /** The first `:` of `key: value` follows the key. */
  lemma PairColon(key: string, value: string)
    requires Word(key)
    ensures var inner := key + ": " + value;
            Find(inner, ':') == Some(|key|) && inner[..|key|] == key && inner[|key| + 1..] == " " + value
  {
    var inner := key + ": " + value;
    assert inner[|key|] == ':' && inner[..|key|] == key;
    assert inner[|key| + 1..] == " " + value;
  }

  /** The name of `name(args)` and the text between its parentheses. */
  lemma CallParts(name: string, args: string)
    requires Word(name)
    ensures var line := name + "(" + args + ")";
            && Find(line, '(') == Some(|name|) && EndsWith(line, ")")
            && line[..|name|] == name && line[|name| + 1..|line| - 1] == args
  {
    var line := name + "(" + args + ")";
    assert line[|name|] == '(' && line[..|name|] == name;
    assert line[|line| - 1] == ')';
    assert line[|name| + 1..|line| - 1] == args;
  }

  /** `parse_line` reads `name(key: value)` as a component whose one prop maps `key` to `value`. */
  lemma ComponentOneProp(name: string, key: string, value: string)
    requires Word(name) && Word(key)
    requires value != [] && ',' !in value && !IsWhitespace(value[0]) && !IsWhitespace(value[|value| - 1])
    ensures ParseLineSpec(name + "(" + key + ": " + value + ")")
            == Ok(Component(name, [(key, value)], []))
  {
    var line := name + "(" + (key + ": " + value) + ")";
    assert line == name + "(" + key + ": " + value + ")";
    CallParts(name, key + ": " + value);
    TrimIdentity(name);
    OnePropArguments(key, value);
  }

  /** The line `name(key: value)`, with no line feed in it, is that component, at indent 0. */
  lemma ComponentOnePropLine(name: string, key: string, value: string)
    requires Word(name) && Word(key)
    requires value != [] && ',' !in value && !IsWhitespace(value[0]) && !IsWhitespace(value[|value| - 1])
    requires '\n' !in value
    ensures SingleLine(name + "(" + key + ": " + value + ")")
    ensures Outcome(name + "(" + key + ": " + value + ")")
            == Parsed(0, Ok(Component(name, [(key, value)], [])))
  {
    var line := name + "(" + key + ": " + value + ")";
    assert line[0] == name[0] && line[|line| - 1] == ')';
    OutcomeAtZero(line);
    CallLineSingle(name, key, value);
    ComponentOneProp(name, key, value);
  }

  /** A line that starts and ends with a visible character, and does not open a comment, is read at indent 0 as it stands. */
  lemma OutcomeAtZero(line: string)
    requires line != [] && !IsWhitespace(line[0]) && !IsWhitespace(line[|line| - 1]) && line[0] != '/'
    ensures Outcome(line) == Parsed(0, ParseLineSpec(line))
  {
    UnindentedLine(line);
    TrimIdentity(line);
    NotComment(line);
  }

  lemma CallLineSingle(name: string, key: string, value: string)
    requires Word(name) && Word(key) && '\n' !in value
    ensures SingleLine(name + "(" + key + ": " + value + ")")
  {
    var line := name + "(" + key + ": " + value + ")";
    assert forall j :: 0 <= j < |name| ==> line[j] == name[j];
    assert forall j :: 0 <= j < |key| ==> line[|name| + 1 + j] == key[j];
    assert forall j :: 0 <= j < |value| ==> line[|name| + |key| + 3 + j] == value[j];
    assert line[|line| - 1] == ')';
  }

  // ------------------------------------------------------------------ shorthand lines

  /** The characters of `tag#id.cls` are letters, `#` and `.`. */
  lemma ShorthandChars(tag: string, id: string, cls: string)
    requires Word(tag) && Word(id) && Word(cls)
    ensures var line := tag + "#" + id + "." + cls;
            forall i :: 0 <= i < |line| ==>
              'a' <= line[i] <= 'z' || 'A' <= line[i] <= 'Z' || line[i] == '#' || line[i] == '.'
  {
    var line := tag + "#" + id + "." + cls;
    forall i | 0 <= i < |line|
      ensures 'a' <= line[i] <= 'z' || 'A' <= line[i] <= 'Z' || line[i] == '#' || line[i] == '.'
    {
      if i < |tag| {
        assert line[i] == tag[i];
      } else if i == |tag| {
      } else if i < |tag| + 1 + |id| {
        assert line[i] == id[i - |tag| - 1];
      } else if i == |tag| + 1 + |id| {
      } else {
        assert line[i] == cls[i - |tag| - 2 - |id|];
      }
    }
  }

  /** `tag#id.cls`: the element `tag` with the id `id` and the one class `cls`. */
  lemma ShorthandIdClass(tag: string, id: string, cls: string)
    requires Word(tag) && Word(id) && Word(cls)
    ensures ShorthandSpec(tag + "#" + id + "." + cls)
            == Ok(Element(tag, [("id", id), ("class", cls)], []))
  {
    var line := tag + "#" + id + "." + cls;
    ShorthandChars(tag, id, cls);
    SingleToken(line);
    HeadIdClass(tag, id, cls);
    OneTokenShorthand(line, tag, id, cls);
  }

  /** A one-word shorthand whose head has an id and a class is that element. */
  lemma OneTokenShorthand(line: string, tag: string, id: string, cls: string)
    requires SplitWhitespace(line) == [line] && ShorthandHead(line) == (tag, id, cls)
    requires id != [] && cls != []
    ensures ShorthandSpec(line) == Ok(Element(tag, [("id", id), ("class", cls)], []))
  {
    var start := ShorthandState([("id", id)], [cls]);
    assert ShorthandStart(id, cls) == start;
    assert ShorthandFrom([line], 1, start) == Ok(start);
    assert Join([cls], " ") == cls;
    InsertAfter(("id", id), "class", cls);
  }

  /** Inserting a key other than the one key present appends it. */
  lemma InsertAfter(p0: (string, string), k: string, v: string)
    requires |p0.0| != |k|
    ensures Insert([p0], k, v) == [p0, (k, v)]
  {
    assert [p0][1..] == [];
  }

  /** The first token `tag#id.cls` splits into its tag, its id and its class. */
  lemma HeadIdClass(tag: string, id: string, cls: string)
    requires Word(tag) && Word(id)
    ensures ShorthandHead(tag + "#" + id + "." + cls) == (tag, id, cls)
  {
    var line := tag + "#" + id + "." + cls;
    assert line == tag + ['#'] + (id + "." + cls);
    SplitOnceAt(tag, id + "." + cls, '#');
    assert id + "." + cls == id + ['.'] + cls;
    SplitOnceAt(id, cls, '.');
  }

  /** The line `tag#id.cls` is that element, at indent 0. */
  lemma ShorthandIdClassOutcome(tag: string, id: string, cls: string)
    requires Word(tag) && Word(id) && Word(cls)
    ensures Outcome(tag + "#" + id + "." + cls)
            == Parsed(0, Ok(Element(tag, [("id", id), ("class", cls)], [])))
  {
    var line := tag + "#" + id + "." + cls;
    assert line[0] == tag[0] && line[|line| - 1] == cls[|cls| - 1];
    OutcomeAtZero(line);
    ShorthandIdClassLine(tag, id, cls);
  }

  /** `parse_line` reads `tag#id.cls` as a shorthand element. */
  lemma ShorthandIdClassLine(tag: string, id: string, cls: string)
    requires Word(tag) && Word(id) && Word(cls)
    ensures ParseLineSpec(tag + "#" + id + "." + cls)
            == Ok(Element(tag, [("id", id), ("class", cls)], []))
  {
    var line := tag + "#" + id + "." + cls;
    ShorthandChars(tag, id, cls);
    assert line[0] == tag[0] && line[|tag|] == '#';
    assert Find(line, '(') == None;
    ShorthandIdClass(tag, id, cls);
  }

  /** The formatter writes the element of `tag#id.cls` back as that line. */
  lemma ShorthandIdClassText(tag: string, id: string, cls: string)
    requires Word(tag) && Word(id) && Word(cls)
    ensures NodeText(Default(), Element(tag, [("id", id), ("class", cls)], []), 0)
            == tag + "#" + id + "." + cls + "\n"
  {
    var n := Element(tag, [("id", id), ("class", cls)], []);
    assert IndentString(Default(), 0) == [];
    IdClassLine(tag, id, cls);
    assert NodeLine(Default(), n, 0) == ElementLine([], tag, n.props);
    assert ChildrenText(Default(), n, 0, 1) == [];
  }

  /** With an id and one class, the element line is `tag#id.cls`. */
  lemma IdClassLine(tag: string, id: string, cls: string)
    requires Word(id) && Word(cls)
    ensures ElementLine([], tag, [("id", id), ("class", cls)]) == tag + "#" + id + "." + cls + "\n"
  {
    IdClassProps(id, cls);
    assert [] + tag == tag;
    AppendAssoc(tag, "#", id);
    AppendAssoc(tag + "#" + id, ".", cls);
  }

  /** The props `id` and `class` give `#id`, `.cls` and no other attribute. */
  lemma IdClassProps(id: string, cls: string)
    requires Word(id) && Word(cls)
    ensures var props := [("id", id), ("class", cls)];
            IdText(props) == "#" + id && ClassText(props) == "." + cls && OtherPropsText(props) == ""
  {
    var props := [("id", id), ("class", cls)];
    assert Get(props, "id") == Some(id);
    assert Get(props, "class") == Some(cls);
    assert forall i :: 0 <= i < |cls| ==> !IsWhitespace(cls[i]);
    SingleToken(cls);
    assert ClassTokensText([cls]) == "." + cls;
    assert props[..1] == [("id", id)] && [("id", id)][..0] == [];
    assert OtherPropText("id", id) == "" && OtherPropText("class", cls) == "";
    assert OtherPropsText([("id", id)]) == "";
  }

  /** Trimming keeps a character out. */
  lemma TrimAvoids(line: string, c: char)
    requires c !in line
    ensures c !in Trim(line)
  {
    var a, t := LeadingWhitespace(line), Trim(line);
    assert forall j :: 0 <= j < |t| ==> t[j] == line[a + j];
  }

  /** A shorthand line without `=` has no attribute word, so it cannot panic. */
  lemma ShorthandWithoutAttributes(t: string)
    requires t != [] && !IsWhitespace(t[0]) && '=' !in t
    ensures ShorthandSpec(t).Ok?
  {
    ShorthandErr(t);
    ShorthandPanic(t);
    SplitWhitespaceAvoids(t, '=');
    var parts := SplitWhitespace(t);
    assert forall j :: 1 <= j < |parts| ==> parts[j] in parts;
  }

  /**
   * A line with some non-blank text and none of `(`, `<`, `=` or `/` parses to a node: a
   * text, or a shorthand element none of whose words is an attribute.
   */
  lemma ShorthandOrTextLine(line: string)
    requires !AllWhitespace(line)
    requires '(' !in line && '<' !in line && '=' !in line && '/' !in line
    ensures Outcome(line).Parsed? && Outcome(line).parsed.Ok?
  {
    var t := Trim(line);
    TrimEmpty(line);
    TrimAvoids(line, '(');
    TrimAvoids(line, '<');
    TrimAvoids(line, '=');
    TrimAvoids(line, '/');
    NotComment(t);
    assert Find(t, '(') == None;
    if !IsBareText(t) {
      ShorthandWithoutAttributes(t);
    }
  }

  /** A character that is none of `(`, `<`, `=`, `/` and a line feed. */
  predicate QuietChar(c: char) {
    c != '(' && c != '<' && c != '=' && c != '/' && c != '\n'
  }

  /** A non-blank text of quiet characters that does not end in a carriage return. */
  predicate QuietText(text: string) {
    && text != [] && !IsWhitespace(text[0]) && text[|text| - 1] != '\r'
    && forall i :: 0 <= i < |text| ==> QuietChar(text[i])
  }

  /** A quiet text indented by four spaces is one line, and it parses to a node. */
  lemma IndentedPlainLine(text: string)
    requires QuietText(text)
    ensures LineParses("    " + text)
  {
    var line := "    " + text;
    assert '(' !in text && '<' !in text && '=' !in text && '/' !in text && '\n' !in text;
    assert forall j :: 0 <= j < |text| ==> line[4 + j] == text[j];
    assert line[4] == text[0] && line[|line| - 1] == text[|text| - 1];
    ShorthandOrTextLine(line);
  }

  // ------------------------------------------------------------------ documents

  /** One line that parses to a node. */
  predicate LineParses(line: string) {
    SingleLine(line) && Outcome(line).Parsed? && Outcome(line).parsed.Ok?
  }

  /** Every line of `rest` is one line. */
  predicate AllSingle(rest: seq<string>) {
    forall j :: 0 <= j < |rest| ==> SingleLine(rest[j])
  }

  /** Every outcome is a parsed node. */
  predicate AllOk(os: seq<LineOutcome>) {
    forall j :: 0 <= j < |os| ==> os[j].Parsed? && os[j].parsed.Ok?
  }

  /** Every line of `rest` is one line that parses to a node. */
  predicate AllParse(rest: seq<string>) {
    AllSingle(rest) && AllOk(Outcomes(rest))
  }

  lemma AllParseOne(a: string)
    requires LineParses(a)
    ensures AllParse([a])
  {
    AllSingleOne(a);
    OutcomesOne(a);
    AllOkOne(Outcome(a));
  }

  lemma AllSingleOne(a: string)
    requires SingleLine(a)
    ensures AllSingle([a])
  {
  }

  lemma AllOkOne(o: LineOutcome)
    requires o.Parsed? && o.parsed.Ok?
    ensures AllOk([o])
  {
  }

  lemma AllParseTwo(a: string, b: string)
    requires LineParses(a) && LineParses(b)
    ensures AllParse([a, b])
  {
    AllParseOne(a);
    OutcomesCons(a, [b]);
    OutcomesOne(b);
    AllSingleJoin([a], b);
    AllOkJoin([Outcome(a)], Outcome(b));
  }

  lemma OutcomesOne(a: string)
    ensures Outcomes([a]) == [Outcome(a)]
  {
    OutcomesCons(a, []);
    assert [a] + [] == [a];
  }

  lemma AllSingleJoin(rest: seq<string>, a: string)
    requires AllSingle(rest) && SingleLine(a)
    ensures AllSingle(rest + [a])
  {
    assert forall j :: 0 <= j < |rest| ==> (rest + [a])[j] == rest[j];
  }

  lemma AllOkJoin(os: seq<LineOutcome>, o: LineOutcome)
    requires AllOk(os) && o.Parsed? && o.parsed.Ok?
    ensures AllOk(os + [o])
  {
    assert forall j :: 0 <= j < |os| ==> (os + [o])[j] == os[j];
  }

  /** The lines of `rest`, each followed by a line feed. */
  function LinesText(rest: seq<string>): (s: string)
    ensures |s| >= |rest|
  {
    if rest == [] then "" else rest[0] + "\n" + LinesText(rest[1..])
  }

  lemma {:induction false} LinesOfText(rest: seq<string>)
    requires AllSingle(rest)
    ensures Lines(LinesText(rest)) == rest
  {
    if rest != [] {
      assert forall j :: 0 <= j < |rest| - 1 ==> rest[1..][j] == rest[j + 1];
      LinesOfText(rest[1..]);
      LinesCons(rest[0], LinesText(rest[1..]));
      assert [rest[0]] + rest[1..] == rest;
    }
  }

  lemma {:induction false} ContentOfParsed(os: seq<LineOutcome>)
    requires AllOk(os)
    ensures ContentNodes(os, 0).Ok?
  {
    if os != [] {
      assert forall j :: 0 <= j < |os| - 1 ==> os[1..][j] == os[j + 1];
      ContentOfParsed(os[1..]);
      assert [os[0]] + os[1..] == os;
      ContentNodesCons(os[0], os[1..]);
    }
  }

  /** A text that starts with a line feed starts with an empty line. */
  lemma LinesBlankFirst(rest: string)
    ensures Lines("\n" + rest) == [[]] + Lines(rest)
  {
    var s := "\n" + rest;
    assert Find(s, '\n') == Some(0);
    assert s[..0] == [] && s[1..] == rest;
  }

  /** A skipped line adds no node. */
  lemma ContentSkipFirst(os: seq<LineOutcome>)
    ensures ContentNodes([Skip] + os, 0) == ContentNodes(os, 0)
  {
    ContentNodesShift(Skip, os, 0);
  }

  /** The outcomes of a blank line, then `first`, then the lines of `rest`. */
  lemma DocumentOutcomes(first: string, rest: seq<string>)
    requires SingleLine(first) && AllSingle(rest)
    ensures Outcomes(Lines("\n" + first + "\n" + LinesText(rest)))
            == [Skip] + ([Outcome(first)] + Outcomes(rest))
  {
    var body := first + "\n" + LinesText(rest);
    AppendAssoc("\n", first, "\n");
    AppendAssoc("\n", first + "\n", LinesText(rest));
    var none: string := [];
    LinesBlankFirst(body);
    LinesCons(first, LinesText(rest));
    LinesOfText(rest);
    OutcomesCons(none, [first] + rest);
    OutcomesCons(first, rest);
    assert Outcome(none) == Skip;
  }

  /** As written, a first node that takes children is the whole result. */
  lemma ParentFirstResult(e: Node, tail: seq<Node>)
    requires HasChildren(e)
    ensures MapOk(Ok([e] + tail), [], true) == Ok([e])
  {
    assert ([e] + tail)[0] == e;
    assert UpToFirstParent([e] + tail) == [e];
    assert [] + [e] == [e];
  }

  /**
   * A blank line, then a line that parses at indent 0 to a node taking children, then lines
   * that each parse: `parse` as written returns that node alone, with no children.
   */
  lemma ParentFirstDocument(first: string, e: Node, rest: seq<string>)
    requires SingleLine(first) && Outcome(first) == Parsed(0, Ok(e)) && HasChildren(e)
    requires AllParse(rest)
    ensures ParseSpec("\n" + first + "\n" + LinesText(rest)) == Ok([e])
  {
    var input := "\n" + first + "\n" + LinesText(rest);
    DocumentOutcomes(first, rest);
    var os := [Outcome(first)] + Outcomes(rest);
    ContentOfParsed(Outcomes(rest));
    var tail := ContentNodes(Outcomes(rest), 0).value;
    ContentNodesCons(Outcome(first), Outcomes(rest));
    ContentSkipFirst(os);
    assert ContentNodes(Outcomes(Lines(input)), 0) == Ok([e] + tail);
    ParentFirstResult(e, tail);
    ParseResult(input);
  }

  // ------------------------------------------------------------------ the component test

  /** The line `Button(onclick: set_count(-1))`. */
  const ButtonLine: string := "Button" + "(" + "onclick" + ": " + "set_count(-1)" + ")"

  /** The quoted text `"-"`, indented by four spaces. */
  const ButtonChildLine: string := "    " + "\"-\""

  /**
   * The parser's component test: a blank line, the component, and its indented text, each
   * line ended by a line feed.
   */
  const ButtonInput: string := "\n" + ButtonLine + "\n" + LinesText([ButtonChildLine])

  lemma ButtonLineOutcome()
    ensures SingleLine(ButtonLine)
    ensures Outcome(ButtonLine) == Parsed(0, Ok(Component("Button", [("onclick", "set_count(-1)")], [])))
  {
    assert Word("Button") && Word("onclick");
    assert ',' !in "set_count(-1)" && '\n' !in "set_count(-1)";
    ComponentOnePropLine("Button", "onclick", "set_count(-1)");
  }

  lemma ButtonChildOutcome()
    ensures LineParses(ButtonChildLine)
  {
    QuietDash();
    IndentedPlainLine("\"-\"");
  }

  lemma QuietDash()
    ensures QuietText("\"-\"")
  {
  }

  /**
   * The component test's input gives one node: the component `Button` whose prop `onclick`
   * is `set_count(-1)`.
   */
  lemma ButtonInputParse()
    ensures ParseSpec(ButtonInput) == Ok([Component("Button", [("onclick", "set_count(-1)")], [])])
  {
    ButtonLineOutcome();
    ButtonChildOutcome();
    AllParseOne(ButtonChildLine);
    ParentFirstDocument(ButtonLine, Component("Button", [("onclick", "set_count(-1)")], []), [ButtonChildLine]);
  }

  // ------------------------------------------------------------------ the formatter test

  /** The line `div#app.container`. */
  const AppLine: string := "div" + "#" + "app" + "." + "container"

  /** `h1.title "Hello World"`, indented by four spaces. */
  const TitleLine: string := "    " + "h1.title \"Hello World\""

  /** `p.text-gray-600 "Welcome to Ferrum"`, indented by four spaces. */
  const WelcomeLine: string := "    " + "p.text-gray-600 \"Welcome to Ferrum\""

  /**
   * The formatter's test of a simple element: a blank line, then the three lines above, each
   * ended by a line feed.
   */
  const AppInput: string := "\n" + AppLine + "\n" + LinesText([TitleLine, WelcomeLine])

  /** The `div` of the formatter's test, with its id and its class. */
  function AppElement(): (e: Node)
    ensures e.Element? && e.tag == "div" && e.children == []
    ensures Get(e.props, "id") == Some("app") && Get(e.props, "class") == Some("container")
  {
    Element("div", [("id", "app"), ("class", "container")], [])
  }

  lemma DivTakesChildren()
    ensures HasChildren(AppElement())
  {
  }

  lemma AppLineOutcome()
    ensures SingleLine(AppLine)
    ensures Outcome(AppLine) == Parsed(0, Ok(AppElement()))
  {
    assert Word("div") && Word("app") && Word("container");
    ShorthandIdClassOutcome("div", "app", "container");
    ShorthandChars("div", "app", "container");
  }

  lemma TitleOutcome()
    ensures LineParses(TitleLine)
  {
    QuietTitle();
    IndentedPlainLine("h1.title \"Hello World\"");
  }

  lemma QuietTitle()
    ensures QuietText("h1.title \"Hello World\"")
  {
  }

  lemma WelcomeOutcome()
    ensures LineParses(WelcomeLine)
  {
    QuietWelcome();
    IndentedPlainLine("p.text-gray-600 \"Welcome to Ferrum\"");
  }

  lemma QuietWelcome()
    ensures QuietText("p.text-gray-600 \"Welcome to Ferrum\"")
  {
  }

  /** As written, the formatter test's input parses to the `div` alone: both indented lines are lost. */
  lemma AppInputParse()
    ensures ParseSpec(AppInput) == Ok([AppElement()])
  {
    AppLineOutcome();
    TitleOutcome();
    WelcomeOutcome();
    AllParseTwo(TitleLine, WelcomeLine);
    DivTakesChildren();
    ParentFirstDocument(AppLine, AppElement(), [TitleLine, WelcomeLine]);
  }

  /**
   * As written, formatting the test's input gives the one line `div#app.container`: it holds
   * that line, and neither `h1.title` nor `p.text-gray-600`.
   */
  lemma AppInputFormat()
    ensures FormatSpec(Default(), AppInput) == Ok(AppLine + "\n")
  {
    AppInputParse();
    AppElementText();
    NodesTextOne(Default(), AppElement());
  }

  /** The `div` is written back as its line. */
  lemma AppElementText()
    ensures NodeText(Default(), AppElement(), 0) == AppLine + "\n"
  {
    assert Word("div") && Word("app") && Word("container");
    ShorthandIdClassText("div", "app", "container");
  }

  /** One top-level node is written as that node's text. */
  lemma NodesTextOne(f: FerrumFormatter, n: Node)
    ensures NodesText(f, [n]) == NodeText(f, n, 0)
  {
    assert [n][..0] == [];
  }
}
