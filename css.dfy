/**
 * CSS in Rust: a `Style` value built by chained calls, the table of utility classes with
 * their declarations, and the builder that joins utility declarations and custom CSS into
 * one string.
 *
 * `Style`'s builder methods take the style by value and return it, so a `Style` is a value
 * here and each builder is a function. `CssBuilder` is a class whose methods append to its
 * two lists.
 */
module Css {
  import opened Strings

  // ------------------------------------------------------------------ styles

  datatype Style = Style(
    properties: map<string, string>,
    pseudoClasses: map<string, Style>,
    mediaQueries: seq<(string, Style)>)

  function NewStyle(): (s: Style)
    ensures |s.properties| == 0 && |s.pseudoClasses| == 0 && |s.mediaQueries| == 0
  {
    Style(map[], map[], [])
  }

  /** `property(name, value)`: the last value set for a name wins; nothing else changes. */
  function Property(s: Style, name: string, value: string): (r: Style)
    ensures r.properties.Keys == s.properties.Keys + {name}
    ensures r.properties[name] == value
    ensures forall k :: k in s.properties && k != name ==> r.properties[k] == s.properties[k]
    ensures r.pseudoClasses == s.pseudoClasses && r.mediaQueries == s.mediaQueries
  {
    s.(properties := s.properties[name := value])
  }

  /** The style stored under pseudo-class `selector`, replacing any earlier one. */
  function PseudoClass(s: Style, selector: string, style: Style): (r: Style)
    ensures r.pseudoClasses.Keys == s.pseudoClasses.Keys + {selector}
    ensures r.pseudoClasses[selector] == style
    ensures forall k :: k in s.pseudoClasses && k != selector ==> r.pseudoClasses[k] == s.pseudoClasses[k]
    ensures r.properties == s.properties && r.mediaQueries == s.mediaQueries
  {
    s.(pseudoClasses := s.pseudoClasses[selector := style])
  }

  /** `hover(style)`: the `:hover` style is `style`; every other selector and the rest are kept. */
  function Hover(s: Style, style: Style): (r: Style)
    ensures r.pseudoClasses.Keys == s.pseudoClasses.Keys + {":hover"}
    ensures r.pseudoClasses[":hover"] == style
    ensures forall k :: k in s.pseudoClasses && k != ":hover" ==> r.pseudoClasses[k] == s.pseudoClasses[k]
    ensures r.properties == s.properties && r.mediaQueries == s.mediaQueries
  {
    PseudoClass(s, ":hover", style)
  }

  /** `focus(style)`: the `:focus` style is `style`; every other selector and the rest are kept. */
  function Focus(s: Style, style: Style): (r: Style)
    ensures r.pseudoClasses.Keys == s.pseudoClasses.Keys + {":focus"}
    ensures r.pseudoClasses[":focus"] == style
    ensures forall k :: k in s.pseudoClasses && k != ":focus" ==> r.pseudoClasses[k] == s.pseudoClasses[k]
    ensures r.properties == s.properties && r.mediaQueries == s.mediaQueries
  {
    PseudoClass(s, ":focus", style)
  }

  /** `media(query, style)`: appended after the earlier queries, duplicates kept. */
  function Media(s: Style, query: string, style: Style): (r: Style)
    ensures |r.mediaQueries| == |s.mediaQueries| + 1
    ensures r.mediaQueries[..|s.mediaQueries|] == s.mediaQueries
    ensures r.mediaQueries[|s.mediaQueries|] == (query, style)
    ensures r.properties == s.properties && r.pseudoClasses == s.pseudoClasses
  {
    s.(mediaQueries := s.mediaQueries + [(query, style)])
  }

  /** Setting the same property twice keeps only the second value. */
  lemma PropertyLastWins(s: Style, name: string, first: string, second: string)
    ensures Property(Property(s, name, first), name, second) == Property(s, name, second)
  {
    var a, b := Property(Property(s, name, first), name, second), Property(s, name, second);
    assert a.properties == b.properties;
  }

  /** Properties of different names can be set in either order. */
  lemma PropertiesCommute(s: Style, n1: string, v1: string, n2: string, v2: string)
    requires n1 != n2
    ensures Property(Property(s, n1, v1), n2, v2) == Property(Property(s, n2, v2), n1, v1)
  {
    var a, b := Property(Property(s, n1, v1), n2, v2), Property(Property(s, n2, v2), n1, v1);
    assert a.properties == b.properties;
  }

  /** Hover and focus styles are kept apart: setting one never disturbs the other. */
  lemma HoverFocusCommute(s: Style, hover: Style, focus: Style)
    ensures Hover(Focus(s, focus), hover) == Focus(Hover(s, hover), focus)
    ensures Hover(Focus(s, focus), hover).pseudoClasses[":focus"] == focus
  {
    var a, b := Hover(Focus(s, focus), hover), Focus(Hover(s, hover), focus);
    assert a.pseudoClasses == b.pseudoClasses;
  }

  // ------------------------------------------------------------------ numbers

  newtype u8 = x: int | 0 <= x < 0x100

  function Digit(d: nat): (c: char)
    requires d < 10
    ensures '0' <= c <= '9' && c as int - '0' as int == d
  {
    ('0' as int + d) as char
  }

  /** The decimal digits of `k`, without leading zeros. */
  function NatText(k: nat): (r: string)
    ensures |r| >= 1 && (r[0] == '0' ==> k == 0)
    ensures forall i :: 0 <= i < |r| ==> '0' <= r[i] <= '9'
    decreases k
  {
    if k < 10 then [Digit(k)] else NatText(k / 10) + [Digit(k % 10)]
  }

  /** The number a string of decimal digits denotes. */
  function DigitsValue(s: string): nat
    requires forall i :: 0 <= i < |s| ==> '0' <= s[i] <= '9'
  {
    if s == [] then 0 else DigitsValue(s[..|s| - 1]) * 10 + (s[|s| - 1] as int - '0' as int)
  }

  /** Reading back the digits of `k` gives `k`. */
  lemma {:induction false} NatTextValue(k: nat)
    ensures DigitsValue(NatText(k)) == k
    decreases k
  {
    if k >= 10 {
      var r := NatText(k);
      assert r[..|r| - 1] == NatText(k / 10);
      NatTextValue(k / 10);
    }
  }

  /**
   * The display of `n * 0.25` as a 64-bit float: every such value is exact, and it is
   * written with no fraction when whole and with its shortest fraction otherwise.
   */
  function QuarterText(n: u8): (r: string)
    ensures |r| >= 1 && '0' <= r[0] <= '9' && '0' <= r[|r| - 1] <= '9'
  {
    var whole := NatText(n as int / 4);
    var fraction := if n % 4 == 0 then "" else if n % 4 == 1 then ".25" else if n % 4 == 2 then ".5" else ".75";
    whole + fraction
  }

  // ------------------------------------------------------------------ utility classes

  datatype UtilityClass =
    | Flex | Grid | Block | Inline | Hidden
    | FlexRow | FlexCol | JustifyCenter | JustifyBetween | ItemsCenter | ItemsStart
    | P(n: u8) | M(n: u8)
    | TextSm | TextBase | TextLg | TextXl | FontBold | FontMedium
    | BgRed500 | BgBlue500 | BgGreen500 | TextWhite | TextGray800
    | WAuto | WFull | HAuto | HFull
    | Border | Border2 | Rounded | RoundedLg
    | Shadow | ShadowLg | Opacity50

  /** `property: value;`, the form of every utility declaration. */
  function Declaration(property: string, value: string): (r: string)
    ensures |r| >= 2 && r[|r| - 1] == ';'
    ensures property != [] ==> r[0] == property[0]
  {
    property + ": " + value + ";"
  }

  /** The property each utility class sets, by the groups of the utility table. */
  function PropertyName(u: UtilityClass): (name: string)
    ensures name != [] && 'a' <= name[0] <= 'z'
  {
    match u
    case Flex | Grid | Block | Inline | Hidden => "display"
    case FlexRow | FlexCol => "flex-direction"
    case JustifyCenter | JustifyBetween => "justify-content"
    case ItemsCenter | ItemsStart => "align-items"
    case P(_) => "padding"
    case M(_) => "margin"
    case TextSm | TextBase | TextLg | TextXl => "font-size"
    case FontBold | FontMedium => "font-weight"
    case BgRed500 | BgBlue500 | BgGreen500 => "background-color"
    case TextWhite | TextGray800 => "color"
    case WAuto | WFull => "width"
    case HAuto | HFull => "height"
    case Border | Border2 => "border"
    case Rounded | RoundedLg => "border-radius"
    case Shadow | ShadowLg => "box-shadow"
    case Opacity50 => "opacity"
  }

  /** The value each utility class gives its property; spacing is `n` quarters of a rem. */
  function PropertyValue(u: UtilityClass): (value: string)
    ensures value != []
  {
    match u
    case Flex => "flex"
    case Grid => "grid"
    case Block => "block"
    case Inline => "inline"
    case Hidden => "none"
    case FlexRow => "row"
    case FlexCol => "column"
    case JustifyCenter => "center"
    case JustifyBetween => "space-between"
    case ItemsCenter => "center"
    case ItemsStart => "flex-start"
    case P(n) => QuarterText(n) + "rem"
    case M(n) => QuarterText(n) + "rem"
    case TextSm => "0.875rem"
    case TextBase => "1rem"
    case TextLg => "1.125rem"
    case TextXl => "1.25rem"
    case FontBold => "bold"
    case FontMedium => "500"
    case BgRed500 => "#ef4444"
    case BgBlue500 => "#3b82f6"
    case BgGreen500 => "#10b981"
    case TextWhite => "white"
    case TextGray800 => "#1f2937"
    case WAuto => "auto"
    case WFull => "100%"
    case HAuto => "auto"
    case HFull => "100%"
    case Border => "1px solid #e5e7eb"
    case Border2 => "2px solid #e5e7eb"
    case Rounded => "0.25rem"
    case RoundedLg => "0.5rem"
    case Shadow => "0 1px 3px 0 rgba(0, 0, 0, 0.1)"
    case ShadowLg => "0 10px 15px -3px rgba(0, 0, 0, 0.1)"
    case Opacity50 => "0.5"
  }

  /**
   * `to_css`: one CSS declaration. It starts with a lower-case letter, the first of its
   * property name, and ends with `;`.
   */
  function ToCss(u: UtilityClass): (r: string)
    ensures |r| >= 2 && 'a' <= r[0] <= 'z' && r[|r| - 1] == ';'
  {
    Declaration(PropertyName(u), PropertyValue(u))
  }

  // ------------------------------------------------------------------ the builder

  /** Each part followed by one space, in order: the text both loops of `build` append. */
  function Spaced(parts: seq<string>): string
  {
    if parts == [] then "" else Spaced(parts[..|parts| - 1]) + (parts[|parts| - 1] + " ")
  }

  /** The declaration of each utility class, in order. */
  function Declarations(classes: seq<UtilityClass>): (ds: seq<string>)
    ensures |ds| == |classes|
    ensures forall i :: 0 <= i < |classes| ==> ds[i] == ToCss(classes[i])
  {
    seq(|classes|, i requires 0 <= i < |classes| => ToCss(classes[i]))
  }

  /** The text `build` returns for declarations `ds` and custom strings `styles`. */
  function BuildText(ds: seq<string>, styles: seq<string>): string
  {
    Trim(Spaced(ds) + Spaced(styles))
  }

  /** `build`: all utility declarations, then all custom strings, each with a space, trimmed. */
  function BuildSpec(classes: seq<UtilityClass>, styles: seq<string>): string
  {
    BuildText(Declarations(classes), styles)
  }

  /** What every utility declaration looks like: a lower-case letter first, `;` last. */
  predicate IsDeclaration(d: string)
  {
    |d| >= 2 && 'a' <= d[0] <= 'z' && d[|d| - 1] == ';'
  }

  /** A builder with nothing added builds the empty string. */
  lemma BuildEmpty()
    ensures BuildSpec([], []) == ""
  {
    assert Spaced(Declarations([])) + Spaced([]) == "";
    TrimIdentity("");
  }

  /** The spaced text opens with the first part and closes with the last part and a space. */
  lemma {:induction false} SpacedEnds(parts: seq<string>)
    requires parts != []
    ensures |parts[0]| < |Spaced(parts)|
    ensures Spaced(parts)[..|parts[0]|] == parts[0]
    ensures Spaced(parts)[|Spaced(parts)| - 1] == ' '
    ensures var last := parts[|parts| - 1];
      last != [] ==> Spaced(parts)[|Spaced(parts)| - 2] == last[|last| - 1]
    decreases |parts|
  {
    var init, last := parts[..|parts| - 1], parts[|parts| - 1] + " ";
    var t := Spaced(parts);
    assert t == Spaced(init) + last;
    if init != [] {
      SpacedEnds(init);
      assert init[0] == parts[0];
      assert t[..|parts[0]|] == Spaced(init)[..|parts[0]|];
    }
  }

  /** Trimming a string that starts with a non-space keeps it up to any later non-space. */
  lemma TrimKeepsPrefix(s: string, k: nat)
    requires k < |s| && !IsWhitespace(s[0]) && !IsWhitespace(s[k])
    ensures StartsWith(Trim(s), s[..k + 1])
  {
    var a, r := LeadingWhitespace(s), Trim(s);
    assert a == 0;
    assert |r| > k;
  }

  /** Trimming drops one final space after a non-space, and nothing at the front. */
  lemma TrimFinalSpace(s: string)
    requires |s| >= 2 && !IsWhitespace(s[0]) && !IsWhitespace(s[|s| - 2]) && IsWhitespace(s[|s| - 1])
    ensures Trim(s) == s[..|s| - 1]
  {
    TrimKeepsPrefix(s, |s| - 2);
  }

  /** The spaced text of declarations, first and last well formed, as the trim lemmas need it. */
  lemma SpacedDeclarations(ds: seq<string>)
    requires ds != [] && IsDeclaration(ds[0]) && IsDeclaration(ds[|ds| - 1])
    ensures |ds[0]| < |Spaced(ds)| && Spaced(ds)[..|ds[0]|] == ds[0]
    ensures !IsWhitespace(Spaced(ds)[0]) && !IsWhitespace(Spaced(ds)[|ds[0]| - 1])
    ensures !IsWhitespace(Spaced(ds)[|Spaced(ds)| - 2]) && Spaced(ds)[|Spaced(ds)| - 1] == ' '
  {
    SpacedEnds(ds);
    var c := Spaced(ds);
    assert c[0] == c[..|ds[0]|][0];
    assert c[|ds[0]| - 1] == c[..|ds[0]|][|ds[0]| - 1];
  }

  /**
   * Trimming text `c` that starts with a non-space and ends with a non-space and a space,
   * followed by nothing (`e` is empty), drops only that final space. `e` stands for the text
   * of no custom styles, so the conclusion is the `Trim` term `BuildText(ds, [])` unfolds to.
   */
  lemma TrimSpacedText(c: string, e: string)
    requires |c| >= 2 && !IsWhitespace(c[0]) && !IsWhitespace(c[|c| - 2]) && c[|c| - 1] == ' '
    requires e == []
    ensures Trim(c + e) + " " == c
  {
    assert c + e == c;
    TrimFinalSpace(c);
    assert c[..|c| - 1] + " " == c;
  }

  /**
   * What follows such text never changes its trimmed front. As above, `e` is the empty text of
   * no custom styles, written as a parameter so that the conclusion matches `BuildText(ds, [])`.
   */
  lemma TrimSpacedTextFirst(c: string, t: string, e: string)
    requires |c| >= 2 && !IsWhitespace(c[0]) && !IsWhitespace(c[|c| - 2]) && c[|c| - 1] == ' '
    requires e == []
    ensures StartsWith(Trim(c + t), Trim(c + e))
  {
    assert c + e == c;
    TrimFinalSpace(c);
    TrimKeepsPrefix(c + t, |c| - 2);
    assert (c + t)[..|c| - 1] == c[..|c| - 1];
  }

  /** Trimming `c + t` keeps `c` up to any non-space of `c`, when `c` starts with a non-space. */
  lemma TrimKeepsFront(c: string, t: string, k: nat)
    requires k < |c| && !IsWhitespace(c[0]) && !IsWhitespace(c[k])
    ensures StartsWith(Trim(c + t), c[..k + 1])
  {
    TrimKeepsPrefix(c + t, k);
    assert (c + t)[..k + 1] == c[..k + 1];
  }

  /** With no custom strings, the text is the spaced declarations without the final space. */
  lemma BuildTextDeclarationsOnly(ds: seq<string>)
    requires ds != [] && IsDeclaration(ds[0]) && IsDeclaration(ds[|ds| - 1])
    ensures BuildText(ds, []) + " " == Spaced(ds)
  {
    SpacedDeclarations(ds);
    TrimSpacedText(Spaced(ds), Spaced([]));
  }

  /** Custom strings never change the trimmed text of the declarations before them. */
  lemma BuildTextDeclarationsFirst(ds: seq<string>, styles: seq<string>)
    requires ds != [] && IsDeclaration(ds[0]) && IsDeclaration(ds[|ds| - 1])
    ensures StartsWith(BuildText(ds, styles), BuildText(ds, []))
  {
    SpacedDeclarations(ds);
    TrimSpacedTextFirst(Spaced(ds), Spaced(styles), Spaced([]));
  }

  /** The text starts with the first declaration, whatever follows it. */
  lemma BuildTextFirst(ds: seq<string>, styles: seq<string>)
    requires ds != [] && IsDeclaration(ds[0]) && IsDeclaration(ds[|ds| - 1])
    ensures StartsWith(BuildText(ds, styles), ds[0])
  {
    SpacedDeclarations(ds);
    TrimKeepsFront(Spaced(ds), Spaced(styles), |ds[0]| - 1);
  }

  /** With no custom strings, `build` is the utility text without its final space. */
  lemma BuildClassesOnly(classes: seq<UtilityClass>)
    requires classes != []
    ensures BuildSpec(classes, []) + " " == Spaced(Declarations(classes))
  {
    var ds := Declarations(classes);
    assert IsDeclaration(ds[0]) && IsDeclaration(ds[|ds| - 1]);
    BuildTextDeclarationsOnly(ds);
  }

  /**
   * Every utility declaration comes before every custom string: whatever the custom strings,
   * `build` starts with what the utility classes alone build.
   */
  lemma BuildClassesFirst(classes: seq<UtilityClass>, styles: seq<string>)
    requires classes != []
    ensures StartsWith(BuildSpec(classes, styles), BuildSpec(classes, []))
  {
    var ds := Declarations(classes);
    assert IsDeclaration(ds[0]) && IsDeclaration(ds[|ds| - 1]);
    BuildTextDeclarationsFirst(ds, styles);
  }

  /** `build` starts with the declaration of the first utility class added. */
  lemma BuildStartsWithFirst(classes: seq<UtilityClass>, styles: seq<string>)
    requires classes != []
    ensures StartsWith(BuildSpec(classes, styles), ToCss(classes[0]))
  {
    var ds := Declarations(classes);
    assert IsDeclaration(ds[0]) && IsDeclaration(ds[|ds| - 1]);
    BuildTextFirst(ds, styles);
  }

  class CssBuilder {
    var classes: seq<UtilityClass>
    var customStyles: seq<string>

    constructor()
      ensures classes == [] && customStyles == []
    {
      classes := [];
      customStyles := [];
    }

    method Add(utility: UtilityClass)
      modifies this
      ensures classes == old(classes) + [utility]
      ensures customStyles == old(customStyles)
    {
      classes := classes + [utility];
    }

    method Custom(css: string)
      modifies this
      ensures customStyles == old(customStyles) + [css]
      ensures classes == old(classes)
    {
      customStyles := customStyles + [css];
    }

    /**
     * `build`. The two loops of the source append to one string; here each loop builds its
     * own text and the two are joined, which is the same text.
     */
    method Build() returns (css: string)
      ensures css == BuildSpec(classes, customStyles)
    {
      var declarations := ClassesText();
      var custom := SpacedText(customStyles);
      css := Trim(declarations + custom);
    }

    /** The first loop of `build`: each utility declaration and a space. */
    method ClassesText() returns (s: string)
      ensures s == Spaced(Declarations(classes))
    {
      ghost var ds := Declarations(classes);
      s := "";
      for i := 0 to |classes|
        invariant s == Spaced(ds[..i])
      {
        s := s + (ToCss(classes[i]) + " ");
        assert ds[..i + 1][..i] == ds[..i];
      }
      assert ds[..|classes|] == ds;
    }
  }

  /** The second loop of `build`: each custom string and a space. */
  method SpacedText(parts: seq<string>) returns (s: string)
    ensures s == Spaced(parts)
  {
    s := "";
    for i := 0 to |parts|
      invariant s == Spaced(parts[..i])
    {
      s := s + (parts[i] + " ");
      assert parts[..i + 1][..i] == parts[..i];
    }
    assert parts[..|parts|] == parts;
  }
}
