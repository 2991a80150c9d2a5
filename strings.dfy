/**
 * The Rust `str` operations the DSL front end relies on, over strings as sequences of
 * Unicode scalar values. Indices are character indices; `ByteLen` gives the UTF-8 length
 * where the source compares `len()` values.
 */
module Strings {
  import opened Wrappers

  /** `char::is_whitespace`: the characters with the Unicode White_Space property. */
  predicate IsWhitespace(c: char) {
    ('\t' <= c <= '\r') || c == ' ' || c == '\U{85}' || c == '\U{A0}' || c == '\U{1680}'
    || ('\U{2000}' <= c <= '\U{200A}') || c == '\U{2028}' || c == '\U{2029}'
    || c == '\U{202F}' || c == '\U{205F}' || c == '\U{3000}'
  }

  predicate AllWhitespace(s: string) {
    forall i :: 0 <= i < |s| ==> IsWhitespace(s[i])
  }

  predicate NoWhitespace(s: string) {
    forall i :: 0 <= i < |s| ==> !IsWhitespace(s[i])
  }

  /** Number of bytes of `c` in UTF-8. */
  function Utf8Len(c: char): (n: nat)
    ensures 1 <= n <= 4
  {
    if c as int < 0x80 then 1
    else if c as int < 0x800 then 2
    else if c as int < 0x1_0000 then 3
    else 4
  }

  /** `str::len`: the length of `s` in UTF-8 bytes. */
  function ByteLen(s: string): (n: nat)
    ensures |s| <= n <= 4 * |s|
  {
    if s == [] then 0 else Utf8Len(s[0]) + ByteLen(s[1..])
  }

  lemma {:induction false} ByteLenAppend(a: string, b: string)
    ensures ByteLen(a + b) == ByteLen(a) + ByteLen(b)
  {
    if a == [] {
      assert a + b == b;
    } else {
      assert (a + b)[1..] == a[1..] + b;
      ByteLenAppend(a[1..], b);
    }
  }

  /** Number of whitespace characters at the start of `s`. */
  function LeadingWhitespace(s: string): (k: nat)
    ensures k <= |s| && AllWhitespace(s[..k])
    ensures k < |s| ==> !IsWhitespace(s[k])
  {
    if s != [] && IsWhitespace(s[0]) then
      var k := 1 + LeadingWhitespace(s[1..]);
      assert forall i :: 1 <= i < k ==> s[..k][i] == s[1..][..k - 1][i - 1];
      k
    else 0
  }

  /** Number of whitespace characters at the end of `s`. */
  function TrailingWhitespace(s: string): (k: nat)
    ensures k <= |s| && AllWhitespace(s[|s| - k..])
    ensures k < |s| ==> !IsWhitespace(s[|s| - k - 1])
  {
    if s != [] && IsWhitespace(s[|s| - 1]) then
      1 + TrailingWhitespace(s[..|s| - 1])
    else 0
  }

  /** `str::trim_start`. */
  function TrimStart(s: string): (r: string)
    ensures r == s[LeadingWhitespace(s)..]
    ensures r != [] ==> !IsWhitespace(r[0])
  {
    s[LeadingWhitespace(s)..]
  }

  /** A slice of a suffix is a slice of the whole. */
  lemma SliceOfSuffix(s: string, a: nat, i: nat, j: nat)
    requires a <= |s| && i <= j <= |s| - a
    ensures s[a..][i..j] == s[a + i..a + j]
  {
  }

  /**
   * `str::trim`: `s` without its leading and trailing whitespace. The result is the slice
   * of `s` starting after the leading whitespace; what follows it in `s` is whitespace only.
   */
  function Trim(s: string): (r: string)
    ensures LeadingWhitespace(s) + |r| <= |s|
    ensures r == s[LeadingWhitespace(s)..LeadingWhitespace(s) + |r|]
    ensures AllWhitespace(s[LeadingWhitespace(s) + |r|..])
    ensures r != [] ==> !IsWhitespace(r[0]) && !IsWhitespace(r[|r| - 1])
  {
    var a := LeadingWhitespace(s);
    var t := s[a..];
    var b := TrailingWhitespace(t);
    SliceOfSuffix(s, a, 0, |t| - b);
    SliceOfSuffix(s, a, |t| - b, |t|);
    t[..|t| - b]
  }

  /** Trimming leaves nothing exactly when the string is whitespace only. */
  lemma TrimEmpty(s: string)
    ensures Trim(s) == [] <==> AllWhitespace(s)
  {
    var a, r := LeadingWhitespace(s), Trim(s);
    assert a < |s| ==> s[a..][0] == s[a];
    if r == [] {
      assert a == |s|;
      assert s == s[..a];
    }
  }

  /** A string with no whitespace at either end is its own trim. */
  lemma TrimIdentity(s: string)
    requires s == [] || (!IsWhitespace(s[0]) && !IsWhitespace(s[|s| - 1]))
    ensures Trim(s) == s
  {
    if s != [] {
      assert LeadingWhitespace(s) == 0;
      assert TrailingWhitespace(s) == 0;
    }
  }

  /** `str::find(c)`: the index of the first occurrence of `c`. */
  function Find(s: string, c: char): (r: Option<nat>)
    ensures r.Some? ==> r.value < |s| && s[r.value] == c && c !in s[..r.value]
    ensures r.None? <==> c !in s
  {
    if s == [] then None
    else if s[0] == c then Some(0)
    else match Find(s[1..], c)
      case Some(i) =>
        assert s[..i + 1] == [s[0]] + s[1..][..i];
        Some(i + 1)
      case None => None
  }

  /** `str::starts_with`. */
  predicate StartsWith(s: string, p: string) {
    |p| <= |s| && s[..|p|] == p
  }

  /** `str::ends_with`. */
  predicate EndsWith(s: string, p: string) {
    |p| <= |s| && s[|s| - |p|..] == p
  }

  /** `str::split_once(c)`: the text before and after the first `c`. */
  function SplitOnce(s: string, c: char): (r: Option<(string, string)>)
    ensures r.None? <==> c !in s
    ensures r.Some? ==> s == r.value.0 + [c] + r.value.1 && c !in r.value.0
  {
    match Find(s, c)
    case Some(i) =>
      assert s == s[..i] + [c] + s[i + 1..];
      Some((s[..i], s[i + 1..]))
    case None => None
  }

  /** `s.split_once(c).unwrap_or((s, ""))`. */
  function SplitOnceOr(s: string, c: char): (r: (string, string))
    ensures c in s ==> s == r.0 + [c] + r.1 && c !in r.0
    ensures c !in s ==> r == (s, "")
  {
    match SplitOnce(s, c)
    case Some(p) => p
    case None => (s, "")
  }

  /** `[parts].join(sep)`. */
  function Join(parts: seq<string>, sep: string): string
  {
    if |parts| == 0 then ""
    else if |parts| == 1 then parts[0]
    else parts[0] + sep + Join(parts[1..], sep)
  }

  /** The concatenation of all `parts`, in order. */
  function Concat(parts: seq<string>): string
  {
    if parts == [] then "" else parts[0] + Concat(parts[1..])
  }

  lemma {:induction false} ConcatAppend(a: seq<string>, b: seq<string>)
    ensures Concat(a + b) == Concat(a) + Concat(b)
  {
    if a == [] {
      assert a + b == b;
    } else {
      assert (a + b)[1..] == a[1..] + b;
      ConcatAppend(a[1..], b);
    }
  }

  /** `str::split(c)`: every piece between occurrences of `c`, empty pieces included. */
  function Split(s: string, c: char): (r: seq<string>)
    ensures |r| >= 1
    decreases |s|
  {
    match Find(s, c)
    case Some(i) => [s[..i]] + Split(s[i + 1..], c)
    case None => [s]
  }

  /** No piece of `split(c)` contains `c`. */
  lemma {:induction false} SplitPieces(s: string, c: char)
    ensures forall i :: 0 <= i < |Split(s, c)| ==> c !in Split(s, c)[i]
    decreases |s|
  {
    match Find(s, c)
    case Some(i) =>
      var rest := Split(s[i + 1..], c);
      SplitPieces(s[i + 1..], c);
      var r := Split(s, c);
      assert r == [s[..i]] + rest;
      forall j | 0 <= j < |r|
        ensures c !in r[j]
      {
        if j > 0 {
          assert r[j] == rest[j - 1];
        }
      }
    case None =>
  }

  /** Splitting on `c` and joining the pieces with `c` gives back the string. */
  lemma {:induction false} JoinSplit(s: string, c: char)
    ensures Join(Split(s, c), [c]) == s
    decreases |s|
  {
    match Find(s, c)
    case Some(i) =>
      var rest := Split(s[i + 1..], c);
      JoinSplit(s[i + 1..], c);
      assert Split(s, c) == [s[..i]] + rest;
      assert ([s[..i]] + rest)[1..] == rest;
      assert Join(Split(s, c), [c]) == s[..i] + [c] + Join(rest, [c]);
      assert s == s[..i] + [c] + s[i + 1..];
    case None =>
  }

  /** Index of the first whitespace character of `s`, or `|s|`. */
  function WordEnd(s: string): (k: nat)
    ensures k <= |s| && NoWhitespace(s[..k])
    ensures k < |s| ==> IsWhitespace(s[k])
  {
    if s == [] || IsWhitespace(s[0]) then 0
    else
      var k := 1 + WordEnd(s[1..]);
      assert forall i :: 1 <= i < k ==> s[..k][i] == s[1..][..k - 1][i - 1];
      k
  }

  /** `str::split_whitespace`: the maximal runs of non-whitespace characters, in order. */
  function SplitWhitespace(s: string): (r: seq<string>)
    decreases |s|
  {
    var t := TrimStart(s);
    if t == [] then []
    else
      var k := WordEnd(t);
      [t[..k]] + SplitWhitespace(t[k..])
  }

  /** Every token of `split_whitespace` is non-empty and holds no whitespace. */
  lemma {:induction false} SplitWhitespaceTokens(s: string)
    ensures forall i :: 0 <= i < |SplitWhitespace(s)| ==>
              SplitWhitespace(s)[i] != [] && NoWhitespace(SplitWhitespace(s)[i])
    decreases |s|
  {
    var t := TrimStart(s);
    if t != [] {
      var k := WordEnd(t);
      var rest := SplitWhitespace(t[k..]);
      SplitWhitespaceTokens(t[k..]);
      assert !IsWhitespace(t[0]);
      var r := SplitWhitespace(s);
      assert r == [t[..k]] + rest;
      forall i | 0 <= i < |r|
        ensures r[i] != [] && NoWhitespace(r[i])
      {
        if i > 0 {
          assert r[i] == rest[i - 1];
        }
      }
    }
  }

  /** `split_whitespace` yields no token exactly when the string is whitespace only. */
  lemma SplitWhitespaceEmpty(s: string)
    ensures SplitWhitespace(s) == [] <==> AllWhitespace(s)
  {
    var a := LeadingWhitespace(s);
    if a < |s| {
      assert !IsWhitespace(s[a]);
    } else {
      assert s == s[..a];
    }
  }

  /** Rust's `str::lines`: pieces between line feeds, a `\r` before the line feed removed. */
  function Lines(s: string): seq<string>
    decreases |s|
  {
    if s == [] then []
    else match Find(s, '\n')
      case Some(i) => [DropCarriageReturn(s[..i])] + Lines(s[i + 1..])
      case None => [s]
  }

  function DropCarriageReturn(line: string): (r: string)
    ensures r == line || r + "\r" == line
  {
    if line != [] && line[|line| - 1] == '\r' then line[..|line| - 1] else line
  }

  /** A line body that `str::lines` keeps whole: no line feed, no final carriage return. */
  predicate SingleLine(b: string) {
    '\n' !in b && (b == [] || b[|b| - 1] != '\r')
  }

  /** A single line followed by a line feed is the first of the lines. */
  lemma LinesCons(b: string, rest: string)
    requires SingleLine(b)
    ensures Lines(b + "\n" + rest) == [b] + Lines(rest)
  {
    var s := b + "\n" + rest;
    assert s[..|b|] == b;
    assert s[|b|] == '\n';
    assert Find(s, '\n') == Some(|b|);
    assert s[|b| + 1..] == rest;
    assert DropCarriageReturn(b) == b;
  }

  /** The number of occurrences of `c` among the first `k` characters of `s`. */
  function CountTo(s: string, c: char, k: nat): (n: nat)
    requires k <= |s|
    ensures n <= k
  {
    if k == 0 then 0 else CountTo(s, c, k - 1) + (if s[k - 1] == c then 1 else 0)
  }

  /** The number of occurrences of `c` in `s`. */
  function Count(s: string, c: char): nat
  {
    CountTo(s, c, |s|)
  }

  lemma {:induction false} CountToPrefix(a: string, b: string, c: char, k: nat)
    requires k <= |a|
    ensures CountTo(a + b, c, k) == CountTo(a, c, k)
  {
    if k > 0 {
      CountToPrefix(a, b, c, k - 1);
      assert (a + b)[k - 1] == a[k - 1];
    }
  }

  lemma {:induction false} CountToAppend(a: string, b: string, c: char, k: nat)
    requires k <= |b|
    ensures CountTo(a + b, c, |a| + k) == Count(a, c) + CountTo(b, c, k)
  {
    if k == 0 {
      CountToPrefix(a, b, c, |a|);
    } else {
      CountToAppend(a, b, c, k - 1);
      assert (a + b)[|a| + k - 1] == b[k - 1];
    }
  }

  lemma {:induction false} CountToAbsent(s: string, c: char, k: nat)
    requires k <= |s| && forall i :: 0 <= i < |s| ==> s[i] != c
    ensures CountTo(s, c, k) == 0
  {
    if k > 0 {
      CountToAbsent(s, c, k - 1);
    }
  }

  lemma CountAppend(a: string, b: string, c: char)
    ensures Count(a + b, c) == Count(a, c) + Count(b, c)
  {
    CountToAppend(a, b, c, |b|);
  }

  lemma CountAbsent(s: string, c: char)
    requires c !in s
    ensures Count(s, c) == 0
  {
    CountToAbsent(s, c, |s|);
  }

  lemma AppendAssoc(a: string, b: string, c: string)
    ensures a + b + c == a + (b + c)
  {
  }
}
