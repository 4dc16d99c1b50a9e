/** XMLUtils: escaping of markup characters, filtering of characters that
    XML 1.0 does not allow, and the S production of section 2.3 of XML 1.0. */
module XMLUtils {
  import opened Wrappers
  import opened JavaStrings

  /** Production [3] S of XML 1.0: space, tab, line feed, carriage return. */
  predicate IsXmlSpace(c: char) {
    c == ' ' || c == '\t' || c == '\n' || c == '\r'
  }

  // ---------------------------------------------------------------------
  // cleanText

  /** The escape written for one character. */
  function Escape(c: char): string {
    if c == '&' then "&amp;"
    else if c == '<' then "&lt;"
    else if c == '>' then "&gt;"
    else [c]
  }

  /** Reference definition: every character escaped on its own. */
  function EscapeEach(s: string): string {
    if s == [] then [] else Escape(s[0]) + EscapeEach(s[1..])
  }

  /** Every `&` of `r` begins one of the three escapes cleanText writes. */
  ghost predicate AmpersandsEscaped(r: string) {
    forall i :: 0 <= i < |r| && r[i] == '&' ==>
      OccursAt(r, "&amp;", i) || OccursAt(r, "&lt;", i) || OccursAt(r, "&gt;", i)
  }

  /** `cleanText`: `&`, then `<`, then `>` replaced by their entity references. */
  function CleanText(s: string): (r: string)
    ensures r == EscapeEach(s)
    ensures '<' !in r && '>' !in r
    ensures AmpersandsEscaped(r)
    ensures ('&' !in s && '<' !in s && '>' !in s) ==> r == s
  {
    var r := Replace(Replace(Replace(s, "&", "&amp;"), "<", "&lt;"), ">", "&gt;");
    CleanTextIsEscapeEach(s);
    EscapeEachFacts(s);
    r
  }

  /** `cleanText` of a nullable string: null stays null. */
  function CleanNullable(s: Option<string>): (r: Option<string>)
    ensures r.None? <==> s.None?
    ensures s.Some? ==> r.value == EscapeEach(s.value)
  {
    match s
    case None => None
    case Some(v) => Some(CleanText(v))
  }

  /** Replacing a one-character target, as a character-wise map. */
  function CharMap(s: string, c: char, r: string): string {
    if s == [] then [] else (if s[0] == c then r else [s[0]]) + CharMap(s[1..], c, r)
  }

  lemma {:induction false} ReplaceCharIsCharMap(s: string, c: char, r: string)
    ensures Replace(s, [c], r) == CharMap(s, c, r)
    decreases |s|
  {
    if |s| >= 1 {
      ReplaceCharIsCharMap(s[1..], c, r);
      assert s[..1] == [s[0]];
    }
  }

  lemma {:induction false} CharMapAppend(a: string, b: string, c: char, r: string)
    ensures CharMap(a + b, c, r) == CharMap(a, c, r) + CharMap(b, c, r)
    decreases |a|
  {
    if a == [] {
      assert a + b == b;
    } else {
      assert (a + b)[0] == a[0];
      assert (a + b)[1..] == a[1..] + b;
      CharMapAppend(a[1..], b, c, r);
    }
  }

  lemma {:induction false} CharMapAbsent(s: string, c: char, r: string)
    requires c !in s
    ensures CharMap(s, c, r) == s
    decreases |s|
  {
    if s != [] {
      CharMapAbsent(s[1..], c, r);
    }
  }

  function Clean3(s: string): string {
    CharMap(CharMap(CharMap(s, '&', "&amp;"), '<', "&lt;"), '>', "&gt;")
  }

  lemma {:induction false} Clean3IsEscapeEach(s: string)
    ensures Clean3(s) == EscapeEach(s)
    decreases |s|
  {
    if s != [] {
      var x, rest := s[0], s[1..];
      assert s == [x] + rest;
      var m1 := CharMap([x], '&', "&amp;");
      CharMapAppend([x], rest, '&', "&amp;");
      var r1 := CharMap(rest, '&', "&amp;");
      CharMapAppend(m1, r1, '<', "&lt;");
      var m2 := CharMap(m1, '<', "&lt;");
      var r2 := CharMap(r1, '<', "&lt;");
      CharMapAppend(m2, r2, '>', "&gt;");
      var m3 := CharMap(m2, '>', "&gt;");
      if x == '&' {
        assert m1 == "&amp;";
        CharMapAbsent("&amp;", '<', "&lt;");
        CharMapAbsent("&amp;", '>', "&gt;");
      } else if x == '<' {
        assert m1 == "<";
        assert m2 == "&lt;";
        CharMapAbsent("&lt;", '>', "&gt;");
      } else if x == '>' {
        assert m1 == ">" && m2 == ">";
        assert m3 == "&gt;";
      } else {
        assert m1 == [x] && m2 == [x] && m3 == [x];
      }
      assert m3 == Escape(x);
      Clean3IsEscapeEach(rest);
    }
  }

  lemma CleanTextIsEscapeEach(s: string)
    ensures Replace(Replace(Replace(s, "&", "&amp;"), "<", "&lt;"), ">", "&gt;") == EscapeEach(s)
  {
    var a := Replace(s, "&", "&amp;");
    ReplaceCharIsCharMap(s, '&', "&amp;");
    var b := Replace(a, "<", "&lt;");
    ReplaceCharIsCharMap(a, '<', "&lt;");
    ReplaceCharIsCharMap(b, '>', "&gt;");
    Clean3IsEscapeEach(s);
  }

  /** Prefixing one written escape keeps every `&` escaped. */
  lemma EscapedPrefix(x: char, rest: string)
    requires AmpersandsEscaped(rest)
    ensures AmpersandsEscaped(Escape(x) + rest)
  {
    var e := Escape(x);
    var r := e + rest;
    forall i | 0 <= i < |r| && r[i] == '&'
      ensures OccursAt(r, "&amp;", i) || OccursAt(r, "&lt;", i) || OccursAt(r, "&gt;", i)
    {
      if i < |e| {
        assert r[..|e|] == e;
      } else {
        ShiftedOccurrence(e, rest, i - |e|);
      }
    }
  }

  lemma ShiftedOccurrence(e: string, rest: string, j: int)
    requires 0 <= j < |rest| && rest[j] == '&' && AmpersandsEscaped(rest)
    ensures OccursAt(e + rest, "&amp;", |e| + j) || OccursAt(e + rest, "&lt;", |e| + j)
         || OccursAt(e + rest, "&gt;", |e| + j)
  {
    assert (e + rest)[|e| + j..] == rest[j..];
  }

  lemma {:induction false} EscapeEachFacts(s: string)
    ensures '<' !in EscapeEach(s) && '>' !in EscapeEach(s)
    ensures AmpersandsEscaped(EscapeEach(s))
    ensures ('&' !in s && '<' !in s && '>' !in s) ==> EscapeEach(s) == s
    decreases |s|
  {
    if s != [] {
      EscapeEachFacts(s[1..]);
      EscapedPrefix(s[0], EscapeEach(s[1..]));
      if '&' !in s && '<' !in s && '>' !in s {
        assert s == [s[0]] + s[1..];
      }
    }
  }

  // ---------------------------------------------------------------------
  // uncleanText

  /** `uncleanText`: `&amp;`, `&lt;`, `&gt;`, `&quot;`, `&apos;` replaced
      in that order. */
  function UncleanText(s: string): (r: string)
    ensures '&' !in s ==> r == s
  {
    var r := Replace(Replace(Replace(Replace(Replace(s, "&amp;", "&"), "&lt;", "<"), "&gt;", ">"), "&quot;", "\""), "&apos;", "'");
    if '&' !in s then
      UnescapeIdentity(s);
      r
    else r
  }

  lemma {:induction false} ReplaceAmpTargetAbsent(s: string, t: string, r: string)
    requires |t| > 0 && t[0] == '&' && '&' !in s
    ensures Replace(s, t, r) == s
  {
    forall k ensures !OccursAt(s, t, k) {
    }
    ReplaceWithoutOccurrence(s, t, r);
  }

  lemma UnescapeIdentity(s: string)
    requires '&' !in s
    ensures Replace(Replace(Replace(Replace(Replace(s, "&amp;", "&"), "&lt;", "<"), "&gt;", ">"), "&quot;", "\""), "&apos;", "'") == s
  {
    ReplaceAmpTargetAbsent(s, "&amp;", "&");
    ReplaceAmpTargetAbsent(s, "&lt;", "<");
    ReplaceAmpTargetAbsent(s, "&gt;", ">");
    ReplaceAmpTargetAbsent(s, "&quot;", "\"");
    ReplaceAmpTargetAbsent(s, "&apos;", "'");
  }

  /** Because `&amp;` is decoded first, an escaped entity reference is
      decoded twice: uncleanText does not undo cleanText. */
  lemma UncleanTextDecodesTwice()
    ensures CleanText("&lt;") == "&amp;lt;"
    ensures UncleanText(CleanText("&lt;")) == "<"
  {
    EscapedLt();
    AmpDecoded();
    LtDecoded();
    ReplaceAmpTargetAbsent("<", "&gt;", ">");
    ReplaceAmpTargetAbsent("<", "&quot;", "\"");
    ReplaceAmpTargetAbsent("<", "&apos;", "'");
    UncleanChain("&amp;lt;", "&lt;", "<");
  }

  lemma EscapedLt()
    ensures EscapeEach("&lt;") == "&amp;lt;"
  {
    assert EscapeEach("&lt;") == "&amp;" + EscapeEach("lt;");
    assert EscapeEach("lt;") == "lt;";
  }

  lemma AmpDecoded()
    ensures Replace("&amp;lt;", "&amp;", "&") == "&lt;"
  {
    var s := "&amp;lt;";
    assert s[..5] == "&amp;";
    assert Replace(s, "&amp;", "&") == "&" + Replace("lt;", "&amp;", "&");
    assert Replace("lt;", "&amp;", "&") == "lt;";
  }

  lemma LtDecoded()
    ensures Replace("&lt;", "&lt;", "<") == "<"
  {
    var a := "&lt;";
    assert a[..4] == "&lt;";
    assert Replace(a, "&lt;", "<") == "<" + Replace([], "&lt;", "<");
  }

  /** The five replacements of uncleanText, one result at a time. */
  lemma UncleanChain(s: string, a: string, b: string)
    requires '&' in s && Replace(s, "&amp;", "&") == a && Replace(a, "&lt;", "<") == b
    requires Replace(b, "&gt;", ">") == b && Replace(b, "&quot;", "\"") == b && Replace(b, "&apos;", "'") == b
    ensures UncleanText(s) == b
  {
  }

  /** uncleanText decoding the five references in one left-to-right pass,
      so that the `&` a reference decodes to never starts another one. */
  function UncleanTextOnePass(s: string): (r: string)
    ensures '&' !in s ==> r == s
    decreases |s|
  {
    if s == [] then []
    else if s[0] != '&' then [s[0]] + UncleanTextOnePass(s[1..])
    else if StartsWith(s, "&amp;") then "&" + UncleanTextOnePass(s[5..])
    else if StartsWith(s, "&lt;") then "<" + UncleanTextOnePass(s[4..])
    else if StartsWith(s, "&gt;") then ">" + UncleanTextOnePass(s[4..])
    else if StartsWith(s, "&quot;") then "\"" + UncleanTextOnePass(s[6..])
    else if StartsWith(s, "&apos;") then "'" + UncleanTextOnePass(s[6..])
    else [s[0]] + UncleanTextOnePass(s[1..])
  }

  /** Decoding one written escape gives back its character. */
  lemma DecodeEscape(x: char, q: string)
    ensures UncleanTextOnePass(Escape(x) + q) == [x] + UncleanTextOnePass(q)
  {
    var e := Escape(x) + q;
    if x == '&' {
      assert e[..5] == "&amp;" && e[5..] == q;
    } else if x == '<' {
      assert e[..4] == "&lt;" && e[4..] == q;
      assert !StartsWith(e, "&amp;") by { if |e| >= 5 { assert e[..5][1] == 'l'; } }
    } else if x == '>' {
      assert e[..4] == "&gt;" && e[4..] == q;
      assert !StartsWith(e, "&amp;") by { if |e| >= 5 { assert e[..5][1] == 'g'; } }
      assert !StartsWith(e, "&lt;") by { assert e[..4][1] == 'g'; }
    } else {
      assert e[0] == x && e[1..] == q;
    }
  }

  /** The one-pass decoder undoes cleanText. */
  lemma {:induction false} OnePassUndoesClean(s: string)
    ensures UncleanTextOnePass(CleanText(s)) == s
    decreases |s|
  {
    if s != [] {
      OnePassUndoesClean(s[1..]);
      DecodeEscape(s[0], EscapeEach(s[1..]));
      assert s == [s[0]] + s[1..];
    }
  }

  // ---------------------------------------------------------------------
  // validChars

  /** The characters validChars keeps.  A Java surrogate pair stands for a
      character at or above U+10000 here; validChars keeps both its halves. */
  predicate KeptByValidChars(c: char) {
    || c == '\t' || c == '\n' || c == '\r'
    || ('\U{0020}' <= c <= '\U{D7DF}')
    || ('\U{E000}' <= c <= '\U{FFFD}')
    || c >= '\U{10000}'
  }

  /** Production [2] Char of XML 1.0. */
  predicate IsXmlChar(c: char) {
    || c == '\t' || c == '\n' || c == '\r'
    || ('\U{0020}' <= c <= '\U{D7FF}')
    || ('\U{E000}' <= c <= '\U{FFFD}')
    || ('\U{10000}' <= c <= '\U{10FFFF}')
  }

  /** The characters of `s` that satisfy `keep`, in order. */
  function Filter(s: string, keep: char -> bool): (r: string)
    ensures |r| <= |s|
    ensures forall c :: c in r ==> c in s && keep(c)
    ensures forall c :: c in s && keep(c) ==> c in r
  {
    if s == [] then []
    else Filter(s[..|s| - 1], keep) + (if keep(s[|s| - 1]) then [s[|s| - 1]] else [])
  }

  /** Filtering changes nothing exactly when every character is kept. */
  lemma {:induction false} FilterKeepsAll(s: string, keep: char -> bool)
    ensures Filter(s, keep) == s <==> forall c :: c in s ==> keep(c)
    decreases |s|
  {
    if s != [] {
      var init := s[..|s| - 1];
      FilterKeepsAll(init, keep);
      assert s == init + [s[|s| - 1]];
      if forall c :: c in s ==> keep(c) {
        assert forall c :: c in init ==> c in s;
      } else {
        assert Filter(s, keep) != s;
      }
    }
  }

  /** `validChars`: keeps TAB, LF, CR, U+0020..U+D7DF, U+E000..U+FFFD and
      surrogate pairs, and drops every other character.  The branch that
      would write a character reference is unreachable, since its ranges
      lie inside the first test. */
  method ValidChars(input: string) returns (r: string)
    ensures r == Filter(input, KeptByValidChars)
    ensures r == input <==> forall c :: c in input ==> KeptByValidChars(c)
  {
    var buffer := "";
    var length := |input|;
    for i := 0 to length
      invariant buffer == Filter(input[..i], KeptByValidChars)
    {
      var c := input[i];
      assert input[..i + 1][..i] == input[..i];
      if c == '\t' || c == '\n' || c == '\r' || ('\U{0020}' <= c <= '\U{D7DF}')
         || ('\U{E000}' <= c <= '\U{FFFD}') {
        buffer := buffer + [c];
      } else if ('\U{007F}' <= c <= '\U{0084}') || ('\U{0086}' <= c <= '\U{009F}')
                || ('\U{FDD0}' <= c <= '\U{FDDF}') {
        assert false;
      } else if c >= '\U{10000}' {
        buffer := buffer + [c];
      }
    }
    assert input[..length] == input;
    r := buffer;
    FilterKeepsAll(input, KeptByValidChars);
  }

  /** validChars drops U+D7E0..U+D7FF, which production [2] Char allows
      (and which the comment at its head lists as valid). */
  lemma ValidCharsDropsXmlChar()
    ensures IsXmlChar('\U{D7E0}') && !KeptByValidChars('\U{D7E0}')
    ensures Filter("\U{D7E0}", KeptByValidChars) == ""
  {
  }

  /** validChars with the upper bound of the first range at U+D7FF. */
  method ValidCharsXml(input: string) returns (r: string)
    ensures r == Filter(input, IsXmlChar)
    ensures forall c :: c in r <==> c in input && IsXmlChar(c)
  {
    var buffer := "";
    for i := 0 to |input|
      invariant buffer == Filter(input[..i], IsXmlChar)
    {
      var c := input[i];
      assert input[..i + 1][..i] == input[..i];
      if c == '\t' || c == '\n' || c == '\r' || ('\U{0020}' <= c <= '\U{D7FF}')
         || ('\U{E000}' <= c <= '\U{FFFD}') || c >= '\U{10000}' {
        buffer := buffer + [c];
      }
    }
    assert input[..|input|] == input;
    r := buffer;
  }
}
