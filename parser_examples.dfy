/**
 * Whole inputs, as text: the two inputs that show how `parse` as written loses lines, read
 * by the parser as written and by the corrected tree builder.
 */
module ParserExamples {
  import opened Wrappers
  import opened Strings
  import opened Ast
  import opened Parser
  import opened ParserTree
  import opened FormatterProperties
  import opened FormatterIdempotence

  /** A word of ASCII letters, such as `div`, `hello` or `Button`. */
  predicate Word(w: string) {
    w != [] && forall i :: 0 <= i < |w| ==> 'a' <= w[i] <= 'z' || 'A' <= w[i] <= 'Z'
  }

  /** A word is a plain text line. */
  lemma WordPlain(w: string)
    requires Word(w)
    ensures PlainText(w)
  {
    assert !IsWhitespace(w[0]) && !IsWhitespace(w[|w| - 1]);
    TrimIdentity(w);
    assert w[..1] != "/";
    assert !StartsWith(w, "//");
  }

  // ------------------------------------------------------------------ single lines

  /** A line `<tag>` whose tag holds no space, `(` or `>` is that element, at indent 0. */
  lemma BareElementLine(tag: string)
    requires ' ' !in tag && '(' !in tag && '>' !in tag
    ensures Outcome("<" + tag + ">") == Parsed(0, Ok(Element(tag, [], [])))
  {
    var line := "<" + tag + ">";
    assert line[0] == '<' && line[|line| - 1] == '>';
    UnindentedLine(line);
    TrimIdentity(line);
    assert !IsSkipped(line) by {
      assert line[..2] != "//";
    }
    assert '(' !in line;
    BareElement(tag);
  }

  lemma BareElement(tag: string)
    requires ' ' !in tag && '(' !in tag && '>' !in tag
    ensures HtmlElementSpec("<" + tag + ">") == Ok(Element(tag, [], []))
  {
    var line := "<" + tag + ">";
    FindOpen(tag);
    FindClose(tag);
    assert line[1..|tag| + 1] == tag;
    assert SplitOnceOr(tag, ' ') == (tag, "");
    assert SplitWhitespace("") == [];
  }

  lemma FindOpen(tag: string)
    ensures Find("<" + tag + ">", '<') == Some(0)
  {
  }

  lemma FindClose(tag: string)
    requires '>' !in tag
    ensures Find("<" + tag + ">", '>') == Some(|tag| + 1)
  {
    var line := "<" + tag + ">";
    assert line[|tag| + 1] == '>';
    assert line[..|tag| + 1] == "<" + tag;
  }

  /** A line without whitespace at either end has indent 0. */
  lemma UnindentedLine(line: string)
    requires line != [] && !IsWhitespace(line[0]) && !IsWhitespace(line[|line| - 1])
    ensures Indent(line) == 0
  {
    TrimIdentity(line);
    assert LeadingWhitespace(line) == 0;
    assert line[..0] == [] && line[|line|..] == [];
  }

  /** A plain text line is a text at indent 0. */
  lemma TextLineAtZero(t: string)
    requires PlainText(t)
    ensures Outcome(t) == Parsed(0, Ok(Text(t)))
  {
    ParseLineText(t);
    UnindentedLine(t);
  }

  /** A plain text line indented by two spaces is a text at indent 2. */
  lemma TextLineAtTwo(t: string)
    requires PlainText(t)
    ensures Outcome("  " + t) == Parsed(2, Ok(Text(t)))
  {
    var line := "  " + t;
    ParseLineText(t);
    assert LeadingWhitespace(line) == 2 by {
      assert line[1..][1..] == t;
      assert IsWhitespace(line[0]) && IsWhitespace(line[1]) && !IsWhitespace(line[2]);
    }
    assert line[2..] == t;
    assert TrailingWhitespace(t) == 0;
    assert Trim(line) == t;
    assert line[..2] == "  " && ByteLen("  ") == 2;
    assert line[2 + |t|..] == [] && ByteLen([]) == 0;
  }

  // ------------------------------------------------------------------ two lines

  /** The outcomes of two lines separated by a line feed. */
  lemma TwoLines(first: string, second: string)
    requires SingleLine(first) && second != [] && '\n' !in second
    ensures Outcomes(Lines(first + "\n" + second)) == [Outcome(first), Outcome(second)]
  {
    LinesCons(first, second);
    assert Lines(second) == [second] by {
      assert Find(second, '\n') == None;
    }
    OutcomesCons(first, [second]);
    assert [second][1..] == [];
  }

  /** `<tag>` followed by the word `text` indented by two spaces. */
  lemma IndentedChildLines(tag: string, text: string)
    requires Word(tag) && Word(text)
    ensures Outcomes(Lines("<" + tag + ">" + "\n" + ("  " + text)))
            == [Parsed(0, Ok(Element(tag, [], []))), Parsed(2, Ok(Text(text)))]
  {
    var first := "<" + tag + ">";
    assert first[|first| - 1] == '>' && '\n' !in first;
    TwoLines(first, "  " + text);
    BareElementLine(tag);
    WordPlain(text);
    TextLineAtTwo(text);
  }

  /** `<tag>` followed by the word `text` at the same indent. */
  lemma UnindentedSiblingLines(tag: string, text: string)
    requires Word(tag) && Word(text)
    ensures Outcomes(Lines("<" + tag + ">" + "\n" + text))
            == [Parsed(0, Ok(Element(tag, [], []))), Parsed(0, Ok(Text(text)))]
  {
    var first := "<" + tag + ">";
    assert first[|first| - 1] == '>' && '\n' !in first;
    TwoLines(first, text);
    BareElementLine(tag);
    WordPlain(text);
    TextLineAtZero(text);
  }

  // ------------------------------------------------------------------ whole inputs

  /** The input `<div>`, a line feed, and `hello` indented by two spaces. */
  const IndentedChildText: string := "<" + "div" + ">" + "\n" + ("  " + "hello")

  /** The input `<div>`, a line feed, and `hello` at the same indent. */
  const UnindentedSiblingText: string := "<" + "div" + ">" + "\n" + "hello"

  lemma DivHelloWords()
    ensures Word("div") && Word("hello")
  {
  }

  /** `<div>` followed by the indented line `  hello`, as written: the `div` alone. */
  lemma IndentedChildInput()
    ensures ParseSpec(IndentedChildText) == Ok([Element("div", [], [])])
  {
    IndentedChildOutcomes();
    IndentedChildAsWritten();
  }

  /** The same input, corrected: `hello` is the only child of the `div`. */
  lemma IndentedChildInputCorrected()
    ensures ParseTreeSpec(IndentedChildText) == Ok([Element("div", [], [Text("hello")])])
  {
    IndentedChildOutcomes();
    IndentedChildCorrected();
  }

  lemma IndentedChildOutcomes()
    ensures Outcomes(Lines(IndentedChildText))
            == [Parsed(0, Ok(Element("div", [], []))), Parsed(2, Ok(Text("hello")))]
  {
    DivHelloWords();
    IndentedChildLines("div", "hello");
  }

  /** `<div>` followed by the unindented line `hello`, as written: `hello` is lost. */
  lemma UnindentedSiblingInput()
    ensures ParseSpec(UnindentedSiblingText) == Ok([Element("div", [], [])])
  {
    UnindentedSiblingOutcomes();
    UnindentedSiblingAsWritten();
  }

  /** The same input, corrected: two top-level nodes. */
  lemma UnindentedSiblingInputCorrected()
    ensures ParseTreeSpec(UnindentedSiblingText) == Ok([Element("div", [], []), Text("hello")])
  {
    UnindentedSiblingOutcomes();
    UnindentedSiblingCorrected();
  }

  lemma UnindentedSiblingOutcomes()
    ensures Outcomes(Lines(UnindentedSiblingText))
            == [Parsed(0, Ok(Element("div", [], []))), Parsed(0, Ok(Text("hello")))]
  {
    DivHelloWords();
    UnindentedSiblingLines("div", "hello");
  }
}
