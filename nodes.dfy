/** The node tree of a parsed document: elements with their attribute
    tables and content lists, text, comments, processing instructions and
    CDATA sections.  Trees are values here: an operation that the source
    performs on an element in place returns the updated element. */
module XMLNodes {
  import opened Wrappers
  import opened JavaStrings
  import opened XMLUtils

  /** One entry of a content list.  The other node kinds of the library
      (document types, XML declarations, declarations) never occur in the
      content lists modelled here. */
  datatype Node =
    | Elem(element: Element)
    | Text(text: string)
    | Comment(text: string)
    | PI(target: string, data: string)
    | CData(data: string)

  /** `attsTable` maps each attribute name to its value: an `Attribute` is
      always stored under its own name. */
  datatype Element = Element(name: string, atts: map<string, string>, content: seq<Node>)

  datatype Attribute = Attribute(name: string, value: string)

  /** `new Element(name)`: no attributes, no content. */
  function NewElement(name: string): (e: Element)
    ensures e.name == name && e.atts == map[] && e.content == []
  {
    Element(name, map[], [])
  }

  // ---------------------------------------------------------------------
  // Attributes

  /** The quoted part of `Attribute.toString()`: the value escaped by
      `cleanText`, then every `"` written as `&quot;`. */
  function QuotedValue(v: string): (r: string)
    ensures '"' !in r && '<' !in r && '>' !in r
    ensures '"' !in v && '&' !in v && '<' !in v && '>' !in v ==> r == v
  {
    var c := CleanText(v);
    ReplaceCharCharacters(c, '"', "&quot;");
    assert '"' !in v && '&' !in v && '<' !in v && '>' !in v ==> Replace(c, ['"'], "&quot;") == v by {
      if '"' !in v && '&' !in v && '<' !in v && '>' !in v {
        ReplaceCharIsCharMap(c, '"', "&quot;");
        CharMapAbsent(c, '"', "&quot;");
      }
    }
    Replace(c, ['"'], "&quot;")
  }

  /** `Attribute.toString()`: `name="value"` with the value escaped, so
      that the text between the quotes holds no `"`, `<` or `>`. */
  function AttributeText(a: Attribute): (r: string)
    ensures StartsWith(r, a.name + "=\"") && |r| >= |a.name| + 3 && r[|r| - 1] == '"'
    ensures var q := r[|a.name| + 2..|r| - 1]; '"' !in q && '<' !in q && '>' !in q
    ensures '"' !in a.value && '&' !in a.value && '<' !in a.value && '>' !in a.value
            ==> r == a.name + "=\"" + a.value + "\""
  {
    var q := QuotedValue(a.value);
    var r := a.name + "=\"" + q + "\"";
    assert r[..|a.name + "=\""|] == a.name + "=\"";
    assert r[|a.name| + 2..|r| - 1] == q;
    r
  }

  /** The UTF-16 code units Java holds for one character: the character
      itself below U+10000, otherwise its surrogate pair. */
  function CodeUnits(c: char): (r: seq<int>)
    ensures 1 <= |r| <= 2 && (|r| == 1 <==> c as int < 0x1_0000)
    ensures |r| == 1 ==> r[0] == c as int && !(0xD800 <= r[0] < 0xE000)
    ensures |r| == 2 ==> 0xD800 <= r[0] < 0xDC00 && 0xDC00 <= r[1] < 0xE000
  {
    if c as int < 0x1_0000 then [c as int]
    else
      var v := c as int - 0x1_0000;
      [0xD800 + v / 0x400, 0xDC00 + v % 0x400]
  }

  /** The UTF-16 form of a string, as a Java `String` stores it. */
  function Utf16(s: string): (r: seq<int>)
    ensures |r| >= |s|
    decreases |s|
  {
    if s == [] then [] else CodeUnits(s[0]) + Utf16(s[1..])
  }

  /** `String.compareTo` on the code units: the difference of the first pair
      of differing units, or of the lengths when one is a prefix of the
      other. */
  function CompareUnits(u: seq<int>, w: seq<int>): int
    decreases |u|
  {
    if u == [] || w == [] then |u| - |w|
    else if u[0] != w[0] then u[0] - w[0]
    else CompareUnits(u[1..], w[1..])
  }

  /** The lexicographic order on code units. */
  predicate LessUnits(u: seq<int>, w: seq<int>)
    decreases |u|
  {
    if u == [] then w != []
    else if w == [] then false
    else if u[0] != w[0] then u[0] < w[0]
    else LessUnits(u[1..], w[1..])
  }

  /** `String.compareTo`, which compares UTF-16 code units. */
  function CompareStrings(s: string, t: string): int {
    CompareUnits(Utf16(s), Utf16(t))
  }

  /** The order `compareTo` and `Collections.sort` sort strings by. */
  predicate Less(s: string, t: string) {
    LessUnits(Utf16(s), Utf16(t))
  }

  lemma {:induction false} CompareUnitsOrder(u: seq<int>, w: seq<int>)
    ensures CompareUnits(u, w) == 0 <==> u == w
    ensures CompareUnits(u, w) < 0 <==> LessUnits(u, w)
    ensures CompareUnits(u, w) == -CompareUnits(w, u)
    decreases |u|
  {
    if u != [] && w != [] && u[0] == w[0] {
      CompareUnitsOrder(u[1..], w[1..]);
      if u[1..] == w[1..] {
        assert u == [u[0]] + u[1..] && w == [w[0]] + w[1..];
      }
    }
  }

  /** Two characters whose code units start two equal unit sequences are
      the same character. */
  lemma CodeUnitsPrefix(c: char, d: char, x: seq<int>, y: seq<int>)
    requires CodeUnits(c) + x == CodeUnits(d) + y
    ensures c == d && x == y
  {
    var a, b := CodeUnits(c), CodeUnits(d);
    assert a[0] == (a + x)[0] == (b + y)[0] == b[0];
    if |a| == 2 {
      assert a[1] == (a + x)[1] == (b + y)[1] == b[1];
      var v, w := c as int - 0x1_0000, d as int - 0x1_0000;
      assert v / 0x400 == w / 0x400 && v % 0x400 == w % 0x400;
    }
    assert a == b;
    assert x == (a + x)[|a|..] && y == (b + y)[|b|..];
  }

  /** Different strings have different UTF-16 forms. */
  lemma {:induction false} Utf16Injective(s: string, t: string)
    requires Utf16(s) == Utf16(t)
    ensures s == t
    decreases |s|
  {
    if s != [] && t != [] {
      CodeUnitsPrefix(s[0], t[0], Utf16(s[1..]), Utf16(t[1..]));
      Utf16Injective(s[1..], t[1..]);
      assert s == [s[0]] + s[1..] && t == [t[0]] + t[1..];
    }
  }

  /** `compareTo` is zero exactly on equal strings, negative exactly when
      the first string sorts first, and antisymmetric. */
  lemma CompareStringsOrder(s: string, t: string)
    ensures CompareStrings(s, t) == 0 <==> s == t
    ensures CompareStrings(s, t) < 0 <==> Less(s, t)
    ensures CompareStrings(s, t) == -CompareStrings(t, s)
  {
    CompareUnitsOrder(Utf16(s), Utf16(t));
    CompareUnitsOrder(Utf16(t), Utf16(s));
    if Utf16(s) == Utf16(t) {
      Utf16Injective(s, t);
    }
  }

  /** A supplementary character sorts by its high surrogate: U+10000 comes
      before the fullwidth `Ａ` (U+FF21), although its code point is
      larger. */
  lemma SurrogateOrder()
    ensures Less("\U{10000}", "\U{FF21}") && !Less("\U{FF21}", "\U{10000}")
  {
    assert Utf16("\U{10000}") == [0xD800, 0xDC00] + Utf16([]);
    assert Utf16("\U{FF21}") == [0xFF21] + Utf16([]);
  }

  lemma {:induction false} LessUnitsTransitive(a: seq<int>, b: seq<int>, c: seq<int>)
    requires LessUnits(a, b) && LessUnits(b, c)
    ensures LessUnits(a, c)
    decreases |a|
  {
    if a != [] && a[0] == b[0] && b[0] == c[0] {
      LessUnitsTransitive(a[1..], b[1..], c[1..]);
    }
  }

  lemma {:induction false} LessUnitsIrreflexive(a: seq<int>)
    ensures !LessUnits(a, a)
    decreases |a|
  {
    if a != [] {
      LessUnitsIrreflexive(a[1..]);
    }
  }

  lemma {:induction false} LessUnitsTotal(a: seq<int>, b: seq<int>)
    requires a != b
    ensures LessUnits(a, b) || LessUnits(b, a)
    decreases |a|
  {
    if a != [] && b != [] && a[0] == b[0] {
      assert a == [a[0]] + a[1..] && b == [b[0]] + b[1..];
      LessUnitsTotal(a[1..], b[1..]);
    }
  }

  lemma LessTransitive(a: string, b: string, c: string)
    requires Less(a, b) && Less(b, c)
    ensures Less(a, c)
  {
    LessUnitsTransitive(Utf16(a), Utf16(b), Utf16(c));
  }

  lemma LessIrreflexive(a: string)
    ensures !Less(a, a)
  {
    LessUnitsIrreflexive(Utf16(a));
  }

  /** Two different strings are ordered one way or the other. */
  lemma LessTotal(a: string, b: string)
    requires a != b
    ensures Less(a, b) || Less(b, a)
  {
    if Utf16(a) == Utf16(b) {
      Utf16Injective(a, b);
    }
    LessUnitsTotal(Utf16(a), Utf16(b));
  }

  /** `Attribute.compareTo`: by name only, so two attributes that differ
      only in value compare as equal although `equals` tells them apart. */
  function CompareAttributes(a: Attribute, b: Attribute): (r: int)
    ensures r == 0 <==> a.name == b.name
    ensures r < 0 <==> Less(a.name, b.name)
  {
    CompareStringsOrder(a.name, b.name);
    CompareStrings(a.name, b.name)
  }

  // ---------------------------------------------------------------------
  // Qualified names

  /** `getLocalName()`: what follows the first `:`, or the whole name. */
  function LocalPart(name: string): (r: string)
    ensures ':' !in name ==> r == name
  {
    IndexOfChar(name, ':');
    var i := IndexOf(name, [':']);
    if i == -1 then name else name[i + 1..]
  }

  /** `getNamespace()`: what precedes the first `:`, or "". */
  function NamespacePart(name: string): (r: string)
    ensures ':' !in name ==> r == ""
    ensures ':' !in r
  {
    var i := IndexOf(name, [':']);
    if i == -1 then ""
    else
      assert forall k :: 0 <= k < i ==> name[k] != ':' by {
        forall k | 0 <= k < i ensures name[k] != ':' {
          OccursAtChar(name, ':', k);
        }
      }
      name[..i]
  }

  /** A name with a `:` is its namespace part, the first `:`, and its local
      part; one without is all local part. */
  lemma SplitAtFirstColon(name: string)
    ensures ':' in name ==> NamespacePart(name) + ":" + LocalPart(name) == name
    ensures ':' !in name ==> NamespacePart(name) == "" && LocalPart(name) == name
  {
    IndexOfChar(name, ':');
    var i := IndexOf(name, [':']);
    if i != -1 {
      OccursAtChar(name, ':', i);
      assert name[..i] + ":" + name[i + 1..] == name[..i] + name[i..i + 1] + name[i + 1..];
      assert name[..i] + name[i..i + 1] + name[i + 1..] == name;
    }
  }

  /** The pieces between the `:` characters of a string. */
  function Pieces(s: string): (r: seq<string>)
    ensures |r| > 0
    decreases |s|
  {
    var i := IndexOf(s, [':']);
    if i == -1 then [s]
    else
      OccursAtChar(s, ':', i);
      [s[..i]] + Pieces(s[i + 1..])
  }

  function DropTrailingEmpty(ps: seq<string>): (r: seq<string>)
    ensures |r| <= |ps| && r == ps[..|r|]
    ensures |r| > 0 ==> r[|r| - 1] != ""
  {
    if ps != [] && ps[|ps| - 1] == "" then DropTrailingEmpty(ps[..|ps| - 1]) else ps
  }

  /** `s.split(":")`: a string without `:` is its own single piece;
      otherwise the pieces, with trailing empty ones removed. */
  function SplitColon(s: string): seq<string> {
    if ':' !in s then [s] else DropTrailingEmpty(Pieces(s))
  }

  /** `getPrefix()`: the first piece, when splitting gives exactly two. */
  function Prefix(name: string): Option<string> {
    var parts := SplitColon(name);
    if |parts| == 2 then Some(parts[0]) else None
  }

  /** `setPrefix(p)`: a two-piece name gets its first piece replaced by
      `p`; any other name gets `p:` put in front of it. */
  function SetPrefix(name: string, p: string): string {
    var parts := SplitColon(name);
    if |parts| == 2 then p + ":" + parts[1] else p + ":" + name
  }

  /** The pieces of `a:b` when neither part holds a `:`. */
  lemma TwoPieces(a: string, b: string)
    requires ':' !in a && ':' !in b
    ensures ':' in a + ":" + b && Pieces(a + ":" + b) == [a, b]
  {
    var s := a + ":" + b;
    assert s[|a|] == ':';
    forall k | 0 <= k < |a| ensures s[k] != ':' {
      assert s[k] == a[k];
    }
    IndexOfCharAt(s, ':', |a|);
    assert s[..|a|] == a && s[|a| + 1..] == b;
    IndexOfChar(b, ':');
  }

  /** A qualified name `a:b` with a non-empty local part has prefix `a`;
      a name without `:` has none. */
  lemma PrefixOfQualified(a: string, b: string)
    requires ':' !in a && ':' !in b && b != ""
    ensures Prefix(a + ":" + b) == Some(a)
    ensures SetPrefix(a + ":" + b, "x") == "x:" + b
  {
    SplitTwo(a, b);
  }

  /** `a:b` splits into `a` and `b` when neither holds a `:` and `b` is not
      empty. */
  lemma SplitTwo(a: string, b: string)
    requires ':' !in a && ':' !in b && b != ""
    ensures SplitColon(a + ":" + b) == [a, b]
  {
    TwoPieces(a, b);
    assert DropTrailingEmpty([a, b]) == [a, b];
  }

  lemma PrefixOfUnqualified(name: string)
    requires ':' !in name
    ensures Prefix(name) == None
  {
  }

  /** Trailing empty pieces are dropped, so `a:b:` still has prefix `a`,
      while `a:` has none. */
  lemma PrefixTrailingColon()
    ensures Prefix("a:b:") == Some("a")
    ensures Prefix("a:") == None
  {
    PiecesABColon();
    DropTwo("a", "b");
    PrefixFromPieces("a:b:", ["a", "b", ""], ["a", "b"]);
    PiecesAColon();
    DropOne("a");
    PrefixFromPieces("a:", ["a", ""], ["a"]);
  }

  lemma DropTwo(a: string, b: string)
    requires b != ""
    ensures DropTrailingEmpty([a, b, ""]) == [a, b]
  {
    assert [a, b, ""][..2] == [a, b];
  }

  lemma DropOne(a: string)
    requires a != ""
    ensures DropTrailingEmpty([a, ""]) == [a]
  {
    assert [a, ""][..1] == [a];
  }

  /** The prefix of a name with a `:`, from its pieces. */
  lemma PrefixFromPieces(name: string, ps: seq<string>, q: seq<string>)
    requires |name| > 1 && name[1] == ':' && Pieces(name) == ps && DropTrailingEmpty(ps) == q
    ensures Prefix(name) == if |q| == 2 then Some(q[0]) else None
  {
    assert ':' in name;
  }

  lemma PiecesBColon()
    ensures Pieces("b:") == ["b", ""]
  {
    PiecesAt("b:", 1);
    assert "b:"[..1] == "b" && "b:"[2..] == "";
  }

  lemma PiecesABColon()
    ensures Pieces("a:b:") == ["a", "b", ""]
  {
    PiecesBColon();
    PiecesAt("a:b:", 1);
    assert "a:b:"[..1] == "a" && "a:b:"[2..] == "b:";
  }

  lemma PiecesAColon()
    ensures Pieces("a:") == ["a", ""]
  {
    PiecesAt("a:", 1);
    assert "a:"[..1] == "a" && "a:"[2..] == "";
  }

  /** A string split at its first `:`. */
  lemma PiecesAt(s: string, i: nat)
    requires i < |s| && s[i] == ':' && forall j :: 0 <= j < i ==> s[j] != ':'
    ensures Pieces(s) == [s[..i]] + Pieces(s[i + 1..])
  {
    IndexOfCharAt(s, ':', i);
  }

  /** Setting a prefix on an unqualified name qualifies it. */
  lemma SetPrefixUnqualified(name: string, p: string)
    requires ':' !in name && ':' !in p && name != ""
    ensures SetPrefix(name, p) == p + ":" + name
    ensures Prefix(SetPrefix(name, p)) == Some(p)
  {
    PrefixOfQualified(p, name);
  }

  // ---------------------------------------------------------------------
  // The attribute table

  /** `setAttribute(name, value)`: a new entry, or the old one overwritten. */
  function SetAttribute(e: Element, name: string, value: string): (r: Element)
    ensures r.name == e.name && r.content == e.content
    ensures r.atts.Keys == e.atts.Keys + {name}
  {
    e.(atts := e.atts[name := value])
  }

  /** `getAttributeValue(name)`: "" for a missing attribute. */
  function AttributeValue(e: Element, name: string): (r: string)
    ensures name !in e.atts ==> r == ""
  {
    if name in e.atts then e.atts[name] else ""
  }

  /** The value last set is the one read back; other attributes keep
      theirs. */
  lemma SetThenGet(e: Element, name: string, value: string, other: string)
    ensures AttributeValue(SetAttribute(e, name, value), name) == value
    ensures other != name ==> AttributeValue(SetAttribute(e, name, value), other) == AttributeValue(e, other)
  {
  }

  // ---------------------------------------------------------------------
  // Content lists

  /** The nodes of `c` other than text nodes, in order. */
  function NonTextNodes(c: seq<Node>): seq<Node>
    decreases |c|
  {
    if c == [] then []
    else NonTextNodes(c[..|c| - 1]) + (if c[|c| - 1].Text? then [] else [c[|c| - 1]])
  }

  /** The text of the text nodes of `c`, concatenated in order. */
  function TextOfNodes(c: seq<Node>): string
    decreases |c|
  {
    if c == [] then ""
    else TextOfNodes(c[..|c| - 1]) + (if c[|c| - 1].Text? then c[|c| - 1].text else "")
  }

  /** No text node directly follows another. */
  predicate NoAdjacentText(c: seq<Node>) {
    forall i :: 0 <= i < |c| - 1 ==> !TextPair(c, i)
  }

  /** The nodes at `i` and `i + 1` are both text nodes. */
  predicate TextPair(c: seq<Node>, i: nat)
    requires i + 1 < |c|
  {
    c[i].Text? && c[i + 1].Text?
  }

  /** One step of `mergeText`: a text node that follows a text node is
      appended to it; any other node is added as it is. */
  function Push(acc: seq<Node>, n: Node): seq<Node> {
    if n.Text? && |acc| > 0 && acc[|acc| - 1].Text? then
      acc[..|acc| - 1] + [Text(acc[|acc| - 1].text + n.text)]
    else acc + [n]
  }

  /** Every node of `c` pushed in order onto an empty list. */
  function Coalesce(c: seq<Node>): seq<Node>
    decreases |c|
  {
    if c == [] then [] else Push(Coalesce(c[..|c| - 1]), c[|c| - 1])
  }

  /** The new content of `mergeText()`: a list of fewer than two nodes is
      kept as it is, a longer one has each run of adjacent text nodes
      joined into one. */
  function Merged(c: seq<Node>): (r: seq<Node>)
    ensures NoAdjacentText(r)
    ensures NonTextNodes(r) == NonTextNodes(c)
    ensures TextOfNodes(r) == TextOfNodes(c)
    ensures |c| < 2 || NoAdjacentText(c) ==> r == c
  {
    CoalesceFacts(c);
    if |c| < 2 then c else Coalesce(c)
  }

  lemma NonTextSnoc(c: seq<Node>, n: Node)
    ensures NonTextNodes(c + [n]) == NonTextNodes(c) + (if n.Text? then [] else [n])
  {
    assert (c + [n])[..|c|] == c;
  }

  lemma TextSnoc(c: seq<Node>, n: Node)
    ensures TextOfNodes(c + [n]) == TextOfNodes(c) + (if n.Text? then n.text else "")
  {
    assert (c + [n])[..|c|] == c;
  }

  /** One push keeps the non-text nodes, the text and the absence of
      adjacent text nodes. */
  lemma PushFacts(acc: seq<Node>, n: Node)
    requires NoAdjacentText(acc)
    ensures NoAdjacentText(Push(acc, n))
    ensures NonTextNodes(Push(acc, n)) == NonTextNodes(acc) + (if n.Text? then [] else [n])
    ensures TextOfNodes(Push(acc, n)) == TextOfNodes(acc) + (if n.Text? then n.text else "")
    ensures !(n.Text? && |acc| > 0 && acc[|acc| - 1].Text?) ==> Push(acc, n) == acc + [n]
  {
    if n.Text? && |acc| > 0 && acc[|acc| - 1].Text? {
      LastText(acc);
      PushJoins(acc[..|acc| - 1], acc[|acc| - 1].text, n.text);
    } else {
      PushAppends(acc, n);
    }
  }

  /** A list ending in a text node is its front plus that node. */
  lemma LastText(acc: seq<Node>)
    requires |acc| > 0 && acc[|acc| - 1].Text?
    ensures acc == acc[..|acc| - 1] + [Text(acc[|acc| - 1].text)]
  {
  }

  lemma PushJoins(init: seq<Node>, t: string, u: string)
    requires NoAdjacentText(init + [Text(t)])
    ensures NoAdjacentText(init + [Text(t + u)])
    ensures NonTextNodes(init + [Text(t + u)]) == NonTextNodes(init + [Text(t)])
    ensures TextOfNodes(init + [Text(t + u)]) == TextOfNodes(init + [Text(t)]) + u
  {
    NonTextSnoc(init, Text(t));
    NonTextSnoc(init, Text(t + u));
    TextSnoc(init, Text(t));
    TextSnoc(init, Text(t + u));
    JoinKeepsApart(init, t, u);
  }

  lemma JoinKeepsApart(init: seq<Node>, t: string, u: string)
    requires NoAdjacentText(init + [Text(t)])
    ensures NoAdjacentText(init + [Text(t + u)])
  {
    var a := init + [Text(t)];
    var b := init + [Text(t + u)];
    forall i | 0 <= i < |b| - 1 ensures !TextPair(b, i) {
      assert b[i] == a[i] && b[i + 1].Text? == a[i + 1].Text?;
      assert !TextPair(a, i);
    }
  }

  lemma PushAppends(acc: seq<Node>, n: Node)
    requires NoAdjacentText(acc)
    requires !(n.Text? && |acc| > 0 && acc[|acc| - 1].Text?)
    ensures NoAdjacentText(acc + [n])
    ensures NonTextNodes(acc + [n]) == NonTextNodes(acc) + (if n.Text? then [] else [n])
    ensures TextOfNodes(acc + [n]) == TextOfNodes(acc) + (if n.Text? then n.text else "")
  {
    NonTextSnoc(acc, n);
    TextSnoc(acc, n);
    AppendKeepsApart(acc, n);
  }

  lemma AppendKeepsApart(acc: seq<Node>, n: Node)
    requires NoAdjacentText(acc)
    requires !(n.Text? && |acc| > 0 && acc[|acc| - 1].Text?)
    ensures NoAdjacentText(acc + [n])
  {
    var b := acc + [n];
    forall i | 0 <= i < |b| - 1 ensures !TextPair(b, i) {
      assert b[i] == acc[i];
      if i + 1 < |acc| {
        assert b[i + 1] == acc[i + 1];
        assert !TextPair(acc, i);
      }
    }
  }

  lemma {:induction false} CoalesceFacts(c: seq<Node>)
    ensures NoAdjacentText(Coalesce(c))
    ensures NonTextNodes(Coalesce(c)) == NonTextNodes(c)
    ensures TextOfNodes(Coalesce(c)) == TextOfNodes(c)
    ensures NoAdjacentText(c) ==> Coalesce(c) == c
    decreases |c|
  {
    if c != [] {
      var init := c[..|c| - 1];
      var n := c[|c| - 1];
      assert c == init + [n];
      CoalesceFacts(init);
      PushFacts(Coalesce(init), n);
      NonTextSnoc(init, n);
      TextSnoc(init, n);
      if NoAdjacentText(c) {
        assert NoAdjacentText(init) by {
          forall i | 0 <= i < |init| - 1 ensures !TextPair(init, i) {
            assert !TextPair(c, i);
          }
        }
        if |init| > 0 {
          assert init[|init| - 1] == c[|c| - 2];
          assert !TextPair(c, |c| - 2);
        }
      }
    }
  }

  /** Coalescing one more node of a list pushes it. */
  lemma CoalesceStep(c: seq<Node>, i: nat)
    requires i < |c|
    ensures Coalesce(c[..i + 1]) == Push(Coalesce(c[..i]), c[i])
  {
    assert c[..i + 1][..i] == c[..i];
  }

  lemma PushOntoText(front: seq<Node>, b: string, n: Node)
    requires n.Text?
    ensures Push(front + [Text(b)], n) == front + [Text(b + n.text)]
  {
    assert (front + [Text(b)])[..|front|] == front;
  }

  /** Merging twice merges no more than merging once. */
  lemma MergedIdempotent(c: seq<Node>)
    ensures Merged(Merged(c)) == Merged(c)
  {
  }

  /** A list of fewer than two nodes coalesces to itself, so `Merged` is
      `Coalesce` on every list. */
  lemma MergedIsCoalesce(c: seq<Node>)
    ensures Merged(c) == Coalesce(c)
  {
    if |c| == 1 {
      assert c[..0] == [];
    }
  }

  /** A non-empty run of text nodes merges into one text node holding the
      run's text. */
  lemma {:induction false} TextRunMerged(ts: seq<Node>)
    requires ts != [] && forall k :: 0 <= k < |ts| ==> ts[k].Text?
    ensures Merged(ts) == [Text(TextOfNodes(ts))]
    decreases |ts|
  {
    MergedIsCoalesce(ts);
    var front := ts[..|ts| - 1];
    var t := ts[|ts| - 1];
    if front == [] {
      assert ts == [t] && ts[..0] == [];
      assert TextOfNodes(ts) == TextOfNodes([]) + t.text == t.text;
      assert Merged(ts) == ts;
    } else {
      TextRunMerged(front);
      MergedIsCoalesce(front);
      PushOntoText([], TextOfNodes(front), t);
    }
  }

  /** Pushing onto a list whose last part is `q` touches `q` only. */
  lemma PushBehind(p: seq<Node>, q: seq<Node>, m: Node)
    requires q != []
    ensures Push(p + q, m) == p + Push(q, m)
  {
    assert (p + q)[|p + q| - 1] == q[|q| - 1];
    assert (p + q)[..|p + q| - 1] == p + q[..|q| - 1];
  }

  /** Nothing is pushed into a node that is not text. */
  lemma PushAfterNonText(n: Node, r: seq<Node>, m: Node)
    requires !n.Text?
    ensures Push([n] + r, m) == [n] + Push(r, m)
  {
    if r != [] {
      PushBehind([n], r, m);
    }
  }

  /** A node that is not text splits the content: what comes before and
      what comes after it are merged apart, and the node stays between
      them.  With `TextRunMerged` this places each run's text in the one
      node that replaces the run. */
  lemma {:induction false} MergedAround(a: seq<Node>, n: Node, b: seq<Node>)
    requires !n.Text?
    ensures Merged(a + [n] + b) == Merged(a) + [n] + Merged(b)
    decreases |b|
  {
    MergedIsCoalesce(a + [n] + b);
    MergedIsCoalesce(a);
    MergedIsCoalesce(b);
    CoalesceAround(a, n, b);
  }

  lemma {:induction false} CoalesceAround(a: seq<Node>, n: Node, b: seq<Node>)
    requires !n.Text?
    ensures Coalesce(a + [n] + b) == Coalesce(a) + [n] + Coalesce(b)
    decreases |b|
  {
    var c := a + [n] + b;
    if b == [] {
      assert c[..|c| - 1] == a;
    } else {
      var b' := b[..|b| - 1];
      var m := b[|b| - 1];
      assert c[..|c| - 1] == a + [n] + b' && c[|c| - 1] == m;
      CoalesceAround(a, n, b');
      PushAfter(Coalesce(a), n, Coalesce(b'), m);
    }
  }

  lemma PushAfter(x: seq<Node>, n: Node, y: seq<Node>, m: Node)
    requires !n.Text?
    ensures Push(x + [n] + y, m) == x + [n] + Push(y, m)
  {
    assert x + [n] + y == x + ([n] + y);
    PushBehind(x, [n] + y, m);
    PushAfterNonText(n, y, m);
    assert x + ([n] + Push(y, m)) == x + [n] + Push(y, m);
  }

  /** The first `j + 1` nodes of `content` coalesce to `front` followed
      by one text node holding `b`. */
  predicate Joined(content: seq<Node>, j: nat, front: seq<Node>, b: string)
    requires j < |content|
  {
    front + [Text(b)] == Coalesce(content[..j + 1])
  }

  /** One more text node of a run is appended to the run's text. */
  lemma RunStep(content: seq<Node>, j: nat, front: seq<Node>, b: string)
    requires j + 1 < |content| && content[j + 1].Text?
    requires Joined(content, j, front, b)
    ensures Joined(content, j + 1, front, b + content[j + 1].text)
  {
    CoalesceStep(content, j + 1);
    PushOntoText(front, b, content[j + 1]);
  }

  /** `mergeText()` on an element's content list. */
  method MergeText(content: seq<Node>) returns (r: seq<Node>)
    ensures r == Merged(content)
  {
    if |content| < 2 {
      return content;
    }
    var newContent: seq<Node> := [];
    var i := 0;
    while i < |content|
      invariant 0 <= i <= |content|
      invariant newContent == Coalesce(content[..i])
    {
      var n := content[i];
      if n.Text? && |newContent| > 0 && newContent[|newContent| - 1].Text? {
        var front := newContent[..|newContent| - 1];
        RunStart(content, i, newContent);
        var buffer;
        i, buffer := TextRun(content, i, front, newContent[|newContent| - 1].text + n.text);
        newContent := front + [Text(buffer)];
      } else {
        Appended(content, i, newContent);
        newContent := newContent + [n];
      }
      i := i + 1;
    }
    assert content[..|content|] == content;
    MergedIsCoalesce(content);
    return newContent;
  }

  /** A text node after a text node starts a run in `mergeText()`. */
  lemma RunStart(content: seq<Node>, i: nat, acc: seq<Node>)
    requires i < |content| && acc == Coalesce(content[..i])
    requires content[i].Text? && |acc| > 0 && acc[|acc| - 1].Text?
    ensures Joined(content, i, acc[..|acc| - 1], acc[|acc| - 1].text + content[i].text)
  {
    CoalesceStep(content, i);
    LastText(acc);
    PushOntoText(acc[..|acc| - 1], acc[|acc| - 1].text, content[i]);
  }

  /** Any other node is appended as it is. */
  lemma Appended(content: seq<Node>, i: nat, acc: seq<Node>)
    requires i < |content| && acc == Coalesce(content[..i])
    requires !(content[i].Text? && |acc| > 0 && acc[|acc| - 1].Text?)
    ensures acc + [content[i]] == Coalesce(content[..i + 1])
  {
    CoalesceStep(content, i);
  }

  /** The inner loop of `mergeText()`: the text of the text nodes that
      follow position `i` is appended to the buffer. */
  method TextRun(content: seq<Node>, i: nat, front: seq<Node>, buffer: string) returns (j: nat, b: string)
    requires i < |content|
    requires Joined(content, i, front, buffer)
    ensures i <= j < |content|
    ensures Joined(content, j, front, b)
  {
    j, b := i, buffer;
    while j < |content| - 1 && content[j + 1].Text?
      invariant i <= j < |content|
      invariant Joined(content, j, front, b)
    {
      RunStep(content, j, front, b);
      b := b + content[j + 1].text;
      j := j + 1;
    }
  }

  // ---------------------------------------------------------------------
  // Child queries

  /** `getChildren()`: the element nodes of a content list, in order. */
  function Children(c: seq<Node>): seq<Element>
    decreases |c|
  {
    if c == [] then []
    else Children(c[..|c| - 1]) + (if c[|c| - 1].Elem? then [c[|c| - 1].element] else [])
  }

  /** `getChildren(tag)`: the element nodes with that name, in order. */
  function ChildrenNamed(c: seq<Node>, tag: string): seq<Element>
    decreases |c|
  {
    if c == [] then []
    else ChildrenNamed(c[..|c| - 1], tag) + (if Named(c[|c| - 1], tag) then [c[|c| - 1].element] else [])
  }

  /** The node is an element with that name. */
  predicate Named(n: Node, tag: string) {
    n.Elem? && n.element.name == tag
  }

  /** The children are exactly the elements of the content list, and the
      children with a name exactly those elements with that name. */
  lemma {:induction false} ChildrenMembers(c: seq<Node>, tag: string)
    ensures forall x :: x in Children(c) <==> Elem(x) in c
    ensures forall x :: x in ChildrenNamed(c, tag) <==> Elem(x) in c && x.name == tag
    decreases |c|
  {
    if c != [] {
      assert c == c[..|c| - 1] + [c[|c| - 1]];
      ChildrenMembers(c[..|c| - 1], tag);
    }
  }

  /** Both queries distribute over concatenation, so they keep content
      order. */
  lemma {:induction false} ChildrenAppend(a: seq<Node>, b: seq<Node>, tag: string)
    ensures Children(a + b) == Children(a) + Children(b)
    ensures ChildrenNamed(a + b, tag) == ChildrenNamed(a, tag) + ChildrenNamed(b, tag)
    decreases |b|
  {
    if b == [] {
      assert a + b == a;
    } else {
      assert (a + b)[..|a + b| - 1] == a + b[..|b| - 1];
      ChildrenAppend(a, b[..|b| - 1], tag);
    }
  }

  lemma PrefixStep<T>(c: seq<T>, i: nat)
    requires i < |c|
    ensures c[..i + 1][..i] == c[..i] && c[..i + 1][i] == c[i]
  {
  }

  method GetChildren(content: seq<Node>) returns (result: seq<Element>)
    ensures result == Children(content)
  {
    result := [];
    for i := 0 to |content|
      invariant result == Children(content[..i])
    {
      PrefixStep(content, i);
      if content[i].Elem? {
        result := result + [content[i].element];
      }
    }
    assert content[..|content|] == content;
  }

  method GetChildrenNamed(content: seq<Node>, tag: string) returns (result: seq<Element>)
    ensures result == ChildrenNamed(content, tag)
  {
    result := [];
    for i := 0 to |content|
      invariant result == ChildrenNamed(content[..i], tag)
    {
      PrefixStep(content, i);
      if content[i].Elem? && content[i].element.name == tag {
        result := result + [content[i].element];
      }
    }
    assert content[..|content|] == content;
  }

  /** `getChild(tag)`: the first element child with that name, or none. */
  method GetChild(content: seq<Node>, tag: string) returns (r: Option<Element>)
    ensures ChildrenNamed(content, tag) == [] ==> r == None
    ensures ChildrenNamed(content, tag) != [] ==> r == Some(ChildrenNamed(content, tag)[0])
    ensures r.Some? ==> Elem(r.value) in content && r.value.name == tag
    ensures r.None? ==> forall x :: Elem(x) in content ==> x.name != tag
  {
    ChildrenMembers(content, tag);
    for i := 0 to |content|
      invariant ChildrenNamed(content[..i], tag) == []
    {
      PrefixStep(content, i);
      if content[i].Elem? && content[i].element.name == tag {
        ChildrenAppend(content[..i + 1], content[i + 1..], tag);
        assert content[..i + 1] + content[i + 1..] == content;
        return Some(content[i].element);
      }
    }
    assert content[..|content|] == content;
    return None;
  }

  // ---------------------------------------------------------------------
  // Removing children

  /** `removeChild(name)`'s new content list: every element node with that
      name left out, every other node kept in order. */
  function WithoutChildren(c: seq<Node>, name: string): seq<Node>
    decreases |c|
  {
    if c == [] then []
    else WithoutChildren(c[..|c| - 1], name) + (if Named(c[|c| - 1], name) then [] else [c[|c| - 1]])
  }

  /** Exactly the nodes that are not elements with that name remain. */
  lemma {:induction false} WithoutChildrenMembers(c: seq<Node>, name: string)
    ensures forall n :: n in WithoutChildren(c, name) <==> n in c && !Named(n, name)
    decreases |c|
  {
    if c != [] {
      assert c == c[..|c| - 1] + [c[|c| - 1]];
      WithoutChildrenMembers(c[..|c| - 1], name);
    }
  }

  /** Removal distributes over concatenation, so order is kept. */
  lemma {:induction false} WithoutChildrenAppend(a: seq<Node>, b: seq<Node>, name: string)
    ensures WithoutChildren(a + b, name) == WithoutChildren(a, name) + WithoutChildren(b, name)
    decreases |b|
  {
    if b == [] {
      assert a + b == a;
    } else {
      assert (a + b)[..|a + b| - 1] == a + b[..|b| - 1];
      WithoutChildrenAppend(a, b[..|b| - 1], name);
    }
  }

  /** No child of that name is left, the children of every other name and
      the text are untouched, and a list without such children is kept. */
  lemma {:induction false} WithoutChildrenQueries(c: seq<Node>, name: string, other: string)
    ensures ChildrenNamed(WithoutChildren(c, name), name) == []
    ensures other != name ==> ChildrenNamed(WithoutChildren(c, name), other) == ChildrenNamed(c, other)
    ensures TextOfNodes(WithoutChildren(c, name)) == TextOfNodes(c)
    ensures (forall x :: Elem(x) in c ==> x.name != name) ==> WithoutChildren(c, name) == c
    decreases |c|
  {
    if c != [] {
      var init := c[..|c| - 1];
      var n := c[|c| - 1];
      var w := WithoutChildren(init, name);
      WithoutChildrenQueries(init, name, other);
      var tail := if Named(n, name) then [] else [n];
      ChildrenAppend(w, tail, name);
      ChildrenAppend(w, tail, other);
      assert ChildrenNamed(tail, name) == [] by {
        if tail != [] {
          assert tail[..0] == [];
        }
      }
      assert other != name ==> ChildrenNamed(tail, other) == (if Named(n, other) then [n.element] else []) by {
        if tail != [] {
          assert tail[..0] == [];
        }
      }
      if Named(n, name) {
        assert w + tail == w;
      } else {
        TextSnoc(w, n);
      }
      if forall x :: Elem(x) in c ==> x.name != name {
        assert c == init + [n];
        assert forall x :: Elem(x) in init ==> x.name != name;
      }
    }
  }

  /** `removeChild(name)` on an element's content list. */
  method RemoveChild(content: seq<Node>, name: string) returns (r: seq<Node>)
    ensures r == WithoutChildren(content, name)
  {
    r := [];
    for i := 0 to |content|
      invariant r == WithoutChildren(content[..i], name)
    {
      PrefixStep(content, i);
      if content[i].Elem? && content[i].element.name == name {
        continue;
      }
      r := r + [content[i]];
    }
    assert content[..|content|] == content;
  }

  // ---------------------------------------------------------------------
  // Text

  /** `getText()`: the text of the text nodes and, recursively, of the
      element children, in content order; other nodes add nothing. */
  function TextOf(e: Element): string
    decreases e, 1
  {
    ContentText(e, |e.content|)
  }

  /** The text of the first `i` nodes of `e`'s content. */
  function ContentText(e: Element, i: nat): string
    requires i <= |e.content|
    decreases e, 0, i
  {
    if i == 0 then ""
    else
      ContentText(e, i - 1)
        + match e.content[i - 1]
          case Text(t) => t
          case Elem(x) => TextOf(x)
          case _ => ""
  }

  /** Without element children, the text is that of the text nodes. */
  lemma {:induction false} ShallowText(e: Element, i: nat)
    requires i <= |e.content| && Children(e.content[..i]) == []
    ensures ContentText(e, i) == TextOfNodes(e.content[..i])
  {
    if i > 0 {
      PrefixStep(e.content, i - 1);
      ChildrenAppend(e.content[..i - 1], [e.content[i - 1]], "");
      assert e.content[..i] == e.content[..i - 1] + [e.content[i - 1]];
      assert [e.content[i - 1]][..0] == [];
      ShallowText(e, i - 1);
    }
  }

  lemma TextOfShallow(e: Element)
    requires Children(e.content) == []
    ensures TextOf(e) == TextOfNodes(e.content)
  {
    assert e.content[..|e.content|] == e.content;
    ShallowText(e, |e.content|);
  }

  /** The text of an element that only wraps another is the inner one's. */
  lemma TextOfWrapper(name: string, atts: map<string, string>, x: Element)
    ensures TextOf(Element(name, atts, [Elem(x)])) == TextOf(x)
  {
    var e := Element(name, atts, [Elem(x)]);
    assert ContentText(e, 0) == "";
    assert ContentText(e, 1) == "" + TextOf(x);
  }

  /** What one content node adds to `getText()`. */
  function NodeText(n: Node): string
    decreases n
  {
    match n
    case Text(t) => t
    case Elem(x) => TextOf(x)
    case _ => ""
  }

  /** What a content list adds to `getText()`, node by node. */
  function NodesText(c: seq<Node>): string
    decreases |c|
  {
    if c == [] then "" else NodesText(c[..|c| - 1]) + NodeText(c[|c| - 1])
  }

  lemma {:induction false} ContentTextIsNodesText(e: Element, i: nat)
    requires i <= |e.content|
    ensures ContentText(e, i) == NodesText(e.content[..i])
  {
    if i > 0 {
      PrefixStep(e.content, i - 1);
      ContentTextIsNodesText(e, i - 1);
      assert e.content[..i][..i - 1] == e.content[..i - 1];
    }
  }

  /** `getText()` is the text of the content, node by node. */
  lemma TextOfIsNodesText(e: Element)
    ensures TextOf(e) == NodesText(e.content)
  {
    assert e.content[..|e.content|] == e.content;
    ContentTextIsNodesText(e, |e.content|);
  }

  lemma NodesTextSnoc(c: seq<Node>, n: Node)
    ensures NodesText(c + [n]) == NodesText(c) + NodeText(n)
  {
    assert (c + [n])[..|c|] == c;
  }

  /** One push adds the pushed node's text at the end. */
  lemma PushNodesText(acc: seq<Node>, n: Node)
    ensures NodesText(Push(acc, n)) == NodesText(acc) + NodeText(n)
  {
    if n.Text? && |acc| > 0 && acc[|acc| - 1].Text? {
      var init := acc[..|acc| - 1];
      var t := acc[|acc| - 1].text;
      LastText(acc);
      NodesTextSnoc(init, Text(t));
      NodesTextSnoc(init, Text(t + n.text));
      assert NodesText(init) + (t + n.text) == (NodesText(init) + t) + n.text;
    } else {
      NodesTextSnoc(acc, n);
    }
  }

  lemma {:induction false} CoalesceNodesText(c: seq<Node>)
    ensures NodesText(Coalesce(c)) == NodesText(c)
    decreases |c|
  {
    if c != [] {
      CoalesceNodesText(c[..|c| - 1]);
      PushNodesText(Coalesce(c[..|c| - 1]), c[|c| - 1]);
    }
  }

  /** `mergeText()` never changes what `getText()` returns. */
  lemma MergedKeepsText(e: Element)
    ensures TextOf(e.(content := Merged(e.content))) == TextOf(e)
  {
    MergedIsCoalesce(e.content);
    CoalesceNodesText(e.content);
    TextOfIsNodesText(e);
    TextOfIsNodesText(e.(content := Merged(e.content)));
  }

  /** `getText()` on an element. */
  method GetText(e: Element) returns (r: string)
    ensures r == TextOf(e)
    decreases e
  {
    r := "";
    for i := 0 to |e.content|
      invariant r == ContentText(e, i)
    {
      match e.content[i]
      case Text(t) =>
        r := r + t;
      case Elem(x) =>
        var inner := GetText(x);
        r := r + inner;
      case _ =>
    }
  }

  // ---------------------------------------------------------------------
  // Equality

  /** Every element node of `c` is also a node of `e`'s content. */
  predicate ElementsOf(e: Element, c: seq<Node>) {
    forall k :: 0 <= k < |c| && c[k].Elem? ==> c[k] in e.content
  }

  lemma {:induction false} NonTextMembers(c: seq<Node>)
    ensures forall n :: n in NonTextNodes(c) <==> n in c && !n.Text?
    decreases |c|
  {
    if c != [] {
      assert c == c[..|c| - 1] + [c[|c| - 1]];
      NonTextMembers(c[..|c| - 1]);
    }
  }

  /** Merging introduces no new element nodes. */
  lemma MergedElements(e: Element)
    ensures ElementsOf(e, Merged(e.content))
  {
    var m := Merged(e.content);
    NonTextMembers(m);
    NonTextMembers(e.content);
    forall k | 0 <= k < |m| && m[k].Elem? ensures m[k] in e.content {
      assert m[k] in NonTextNodes(m);
    }
  }

  /** `equals`: the same name, the same attribute table (two attributes are
      equal when name and value are), and merged content lists that are
      equal node by node, element nodes compared by `equals` again. */
  function Equals(a: Element, b: Element): bool
    decreases a, 1
  {
    MergedElements(a);
    var ca := Merged(a.content);
    var cb := Merged(b.content);
    a.name == b.name && a.atts == b.atts && |ca| == |cb| && NodesEqual(a, ca, cb, 0)
  }

  /** The nodes of `ca` and `cb` from `i` on are pairwise equal. */
  function NodesEqual(a: Element, ca: seq<Node>, cb: seq<Node>, i: nat): bool
    requires ElementsOf(a, ca) && |ca| == |cb| && i <= |ca|
    decreases a, 0, |ca| - i
  {
    if i == |ca| then true
    else
      (match ca[i]
       case Elem(x) => cb[i].Elem? && Equals(x, cb[i].element)
       case _ => ca[i] == cb[i])
      && NodesEqual(a, ca, cb, i + 1)
  }

  /** The class of elements `equals` identifies with `e`: text merged at
      every level. */
  function Canon(e: Element): Element
    decreases e, 1
  {
    MergedElements(e);
    Element(e.name, e.atts, CanonNodes(e, Merged(e.content), 0))
  }

  function CanonNodes(e: Element, c: seq<Node>, i: nat): (r: seq<Node>)
    requires ElementsOf(e, c) && i <= |c|
    ensures |r| == |c| - i
    decreases e, 0, |c| - i
  {
    if i == |c| then []
    else
      [match c[i] case Elem(x) => Elem(Canon(x)) case _ => c[i]] + CanonNodes(e, c, i + 1)
  }

  lemma ConsEquality(x: Node, s: seq<Node>, y: Node, t: seq<Node>)
    ensures [x] + s == [y] + t <==> x == y && s == t
  {
    if [x] + s == [y] + t {
      assert ([x] + s)[0] == x && ([y] + t)[0] == y;
      assert ([x] + s)[1..] == s && ([y] + t)[1..] == t;
    }
  }

  /** Two elements are `equals` exactly when their canonical forms are
      identical. */
  lemma {:induction false} EqualsCanon(a: Element, b: Element)
    ensures Equals(a, b) <==> Canon(a) == Canon(b)
    decreases a, 1
  {
    MergedElements(a);
    MergedElements(b);
    var ca := Merged(a.content);
    var cb := Merged(b.content);
    if |ca| == |cb| {
      NodesEqualCanon(a, b, ca, cb, 0);
    }
  }

  lemma {:induction false} NodesEqualCanon(a: Element, b: Element, ca: seq<Node>, cb: seq<Node>, i: nat)
    requires ElementsOf(a, ca) && ElementsOf(b, cb) && |ca| == |cb| && i <= |ca|
    ensures NodesEqual(a, ca, cb, i) <==> CanonNodes(a, ca, i) == CanonNodes(b, cb, i)
    decreases a, 0, |ca| - i
  {
    if i < |ca| {
      NodesEqualCanon(a, b, ca, cb, i + 1);
      var ha := match ca[i] case Elem(x) => Elem(Canon(x)) case _ => ca[i];
      var hb := match cb[i] case Elem(y) => Elem(Canon(y)) case _ => cb[i];
      ConsEquality(ha, CanonNodes(a, ca, i + 1), hb, CanonNodes(b, cb, i + 1));
      if ca[i].Elem? && cb[i].Elem? {
        EqualsCanon(ca[i].element, cb[i].element);
      }
    }
  }

  /** `equals` does not depend on the parent the nodes are read from. */
  lemma {:induction false} CanonNodesParent(e: Element, f: Element, c: seq<Node>, i: nat)
    requires ElementsOf(e, c) && ElementsOf(f, c) && i <= |c|
    ensures CanonNodes(e, c, i) == CanonNodes(f, c, i)
    decreases |c| - i
  {
    if i < |c| {
      CanonNodesParent(e, f, c, i + 1);
    }
  }

  /** `equals` is an equivalence. */
  lemma EqualsEquivalence(a: Element, b: Element, c: Element)
    ensures Equals(a, a)
    ensures Equals(a, b) ==> Equals(b, a)
    ensures Equals(a, b) && Equals(b, c) ==> Equals(a, c)
  {
    EqualsCanon(a, a);
    EqualsCanon(a, b);
    EqualsCanon(b, a);
    EqualsCanon(b, c);
    EqualsCanon(a, c);
  }

  /** How the text of an element is split into text nodes does not matter
      to `equals`: an element equals its merged self. */
  lemma EqualsIgnoresSplit(a: Element)
    ensures Equals(a, a.(content := Merged(a.content)))
  {
    var m := a.(content := Merged(a.content));
    MergedElements(a);
    MergedElements(m);
    assert Merged(m.content) == Merged(a.content);
    CanonNodesParent(a, m, Merged(a.content), 0);
    EqualsCanon(a, m);
  }

  // ---------------------------------------------------------------------
  // Writing an element

  /** Strictly increasing in `compareTo` order, so also free of repeats. */
  predicate SortedStrictly(ks: seq<string>) {
    forall i, j :: 0 <= i < j < |ks| ==> Less(ks[i], ks[j])
  }

  /** The least element of a set. */
  predicate Least(m: string, s: set<string>) {
    m in s && forall x :: x in s && x != m ==> Less(m, x)
  }

  /** Every non-empty set of strings has a least element. */
  lemma {:induction false} LeastExists(s: set<string>)
    requires s != {}
    ensures exists m :: Least(m, s)
    decreases |s|
  {
    var y :| y in s;
    if s == {y} {
      assert Least(y, s);
    } else {
      LeastExists(s - {y});
      var m :| Least(m, s - {y});
      LeastAdded(m, s - {y}, y);
      assert s - {y} + {y} == s;
    }
  }

  /** Adding an element to a set with a least element. */
  lemma LeastAdded(m: string, s: set<string>, y: string)
    requires Least(m, s) && y !in s
    ensures Least(m, s + {y}) || Least(y, s + {y})
  {
    if !Less(m, y) {
      LessTotal(m, y);
      forall x | x in s + {y} && x != y ensures Less(y, x) {
        if x != m {
          LessTransitive(y, m, x);
        }
      }
    }
  }

  /** The keys of an attribute table in the order `Collections.sort` puts
      them: each key once, least first. */
  ghost function SortedKeys(s: set<string>): (r: seq<string>)
    ensures SortedStrictly(r)
    ensures forall x :: x in r <==> x in s
    ensures |r| == |s|
    decreases s
  {
    if s == {} then []
    else
      LeastExists(s);
      var m :| Least(m, s);
      var rest := SortedKeys(s - {m});
      assert forall j :: 0 <= j < |rest| ==> Less(m, rest[j]) by {
        forall j | 0 <= j < |rest| ensures Less(m, rest[j]) {
          assert rest[j] in s - {m};
        }
      }
      [m] + rest
  }

  /** `k` placed into a sorted list of keys. */
  function Insert(ks: seq<string>, k: string): (r: seq<string>)
    requires SortedStrictly(ks) && k !in ks
    ensures SortedStrictly(r)
    ensures forall x :: x in r <==> x in ks || x == k
    decreases |ks|
  {
    if ks == [] || Less(k, ks[0]) then
      assert forall j :: 0 <= j < |ks| ==> Less(k, ks[j]) by {
        forall j | 0 <= j < |ks| ensures Less(k, ks[j]) {
          if j > 0 {
            LessTransitive(k, ks[0], ks[j]);
          }
        }
      }
      [k] + ks
    else
      LessTotal(k, ks[0]);
      var rest := Insert(ks[1..], k);
      assert forall j :: 0 <= j < |rest| ==> Less(ks[0], rest[j]) by {
        forall j | 0 <= j < |rest| ensures Less(ks[0], rest[j]) {
          assert rest[j] in ks[1..] || rest[j] == k;
          if rest[j] != k {
            var m :| 0 <= m < |ks[1..]| && ks[1..][m] == rest[j];
            assert ks[m + 1] == rest[j];
          }
        }
      }
      [ks[0]] + rest
  }

  /** Two strictly sorted lists with the same elements are the same list. */
  lemma {:induction false} SortedUnique(a: seq<string>, b: seq<string>)
    requires SortedStrictly(a) && SortedStrictly(b)
    requires forall x :: x in a <==> x in b
    ensures a == b
    decreases |a|
  {
    SameElementsEmpty(a, b);
    if a != [] {
      if a[0] != b[0] {
        assert a[0] in b;
        var j :| 0 <= j < |b| && b[j] == a[0];
        assert b[0] in a;
        var i :| 0 <= i < |a| && a[i] == b[0];
        assert Less(b[0], a[0]) by {
          assert j > 0;
        }
        assert Less(a[0], b[0]) by {
          assert i > 0;
        }
        LessTransitive(a[0], b[0], a[0]);
        LessIrreflexive(a[0]);
      }
      forall x ensures x in a[1..] <==> x in b[1..] {
        assert x in a[1..] <==> x in a && x != a[0] by {
          FirstIsLeast(a, x);
        }
        assert x in b[1..] <==> x in b && x != b[0] by {
          FirstIsLeast(b, x);
        }
      }
      SortedUnique(a[1..], b[1..]);
      assert a == [a[0]] + a[1..] && b == [b[0]] + b[1..];
    }
  }

  lemma SameElementsEmpty(a: seq<string>, b: seq<string>)
    requires forall x :: x in a <==> x in b
    ensures a == [] <==> b == []
  {
    if a != [] {
      assert a[0] in b;
    }
    if b != [] {
      assert b[0] in a;
    }
  }

  lemma FirstIsLeast(a: seq<string>, x: string)
    requires SortedStrictly(a) && a != []
    ensures x in a[1..] <==> x in a && x != a[0]
  {
    if x in a[1..] {
      var i :| 0 <= i < |a[1..]| && a[1..][i] == x;
      assert a[i + 1] == x;
      assert Less(a[0], a[i + 1]);
      if x == a[0] {
        LessIrreflexive(x);
      }
    }
    if x in a && x != a[0] {
      var i :| 0 <= i < |a| && a[i] == x;
      assert i > 0 && a[1..][i - 1] == x;
    }
  }

  /** The sorted keys of a set, computed as `getHead`/`toString` do: the
      keys collected, then sorted. */
  method SortKeys(s: set<string>) returns (ks: seq<string>)
    ensures ks == SortedKeys(s)
  {
    ks := [];
    var rest := s;
    while rest != {}
      invariant rest <= s
      invariant SortedStrictly(ks)
      invariant forall x :: x in ks <==> x in s && x !in rest
      decreases rest
    {
      var k :| k in rest;
      ks := Insert(ks, k);
      rest := rest - {k};
    }
    SortedUnique(ks, SortedKeys(s));
  }

  /** The attributes named by `ks`, each written as ` name="value"`. */
  function AttributesString(atts: map<string, string>, ks: seq<string>): string
    requires forall k :: k in ks ==> k in atts
    decreases |ks|
  {
    if ks == [] then ""
    else
      var k := ks[|ks| - 1];
      AttributesString(atts, ks[..|ks| - 1]) + " " + AttributeText(Attribute(k, atts[k]))
  }

  /** `toString()`: the start tag with the attributes in sorted order, then
      `/>` for empty content, or `>`, every node written in order and the
      end tag.  How a comment is written is a parameter. */
  ghost function ElementString(e: Element, comment: string -> string): string
    decreases e, 2
  {
    var head := "<" + e.name + AttributesString(e.atts, SortedKeys(e.atts.Keys));
    if e.content == [] then head + "/>"
    else head + ">" + ContentString(e, comment, |e.content|) + ("</" + e.name + ">")
  }

  /** The first `i` nodes of `e`'s content, written in order. */
  ghost function ContentString(e: Element, comment: string -> string, i: nat): string
    requires i <= |e.content|
    decreases e, 1, i
  {
    if i == 0 then ""
    else
      ContentString(e, comment, i - 1)
        + match e.content[i - 1]
          case Elem(x) => ElementString(x, comment)
          case Text(t) => CleanText(t)
          case Comment(t) => comment(t)
          case PI(t, d) => "<?" + t + " " + d + "?>"
          case CData(d) => "<![CDATA[" + d + "]]>"
  }

  /** The written form starts with the start tag's name; an element without
      content is closed by `/>`, any other by its end tag. */
  lemma ElementStringShape(e: Element, comment: string -> string)
    ensures StartsWith(ElementString(e, comment), "<" + e.name)
    ensures e.content == [] ==> EndsWith(ElementString(e, comment), "/>")
    ensures e.content != [] ==> EndsWith(ElementString(e, comment), "</" + e.name + ">")
  {
    var open := "<" + e.name;
    var head := open + AttributesString(e.atts, SortedKeys(e.atts.Keys));
    Extended(open, "", AttributesString(e.atts, SortedKeys(e.atts.Keys)));
    if e.content == [] {
      Extended(head, open, "/>");
    } else {
      var tail := "</" + e.name + ">";
      Extended(head, open, ">");
      Extended(head + ">", open, ContentString(e, comment, |e.content|));
      Extended(head + ">" + ContentString(e, comment, |e.content|), open, tail);
    }
  }

  /** Appending keeps a prefix and makes the appended text a suffix. */
  lemma Extended(s: string, p: string, x: string)
    requires StartsWith(s, p) || p == ""
    ensures StartsWith(s + x, p) && EndsWith(s + x, x) && StartsWith(s + x, s)
  {
    assert (s + x)[..|s|] == s;
    assert (s + x)[|s + x| - |x|..] == x;
    assert (s + x)[..|p|] == s[..|p|];
  }

  /** An element with no attributes and one text child. */
  lemma TextElementString(name: string, t: string, comment: string -> string)
    ensures ElementString(Element(name, map[], [Text(t)]), comment) == "<" + name + ">" + CleanText(t) + "</" + name + ">"
  {
    var e := Element(name, map[], [Text(t)]);
    assert SortedKeys(e.atts.Keys) == [];
    assert ContentString(e, comment, 1) == "" + CleanText(t);
  }

  /** `toString()` on an element. */
  method ToString(e: Element, comment: string -> string) returns (r: string)
    ensures r == ElementString(e, comment)
    decreases e, 1
  {
    var keys := SortKeys(e.atts.Keys);
    var atts := WriteAttributes(e.atts, keys);
    var head := "<" + e.name + atts;
    if e.content == [] {
      return head + "/>";
    }
    var body := WriteContent(e, comment);
    r := head + ">" + body + ("</" + e.name + ">");
  }

  /** The attribute loop of `toString()`. */
  method WriteAttributes(atts: map<string, string>, keys: seq<string>) returns (r: string)
    requires forall k :: k in keys ==> k in atts
    ensures r == AttributesString(atts, keys)
  {
    r := "";
    for j := 0 to |keys|
      invariant r == AttributesString(atts, keys[..j])
    {
      assert keys[..j + 1][..j] == keys[..j];
      r := r + " " + AttributeText(Attribute(keys[j], atts[keys[j]]));
    }
    assert keys[..|keys|] == keys;
  }

  /** The content loop of `toString()`. */
  method WriteContent(e: Element, comment: string -> string) returns (r: string)
    ensures r == ContentString(e, comment, |e.content|)
    decreases e, 0
  {
    r := "";
    for i := 0 to |e.content|
      invariant r == ContentString(e, comment, i)
    {
      var piece;
      match e.content[i] {
        case Elem(x) =>
          piece := ToString(x, comment);
        case Text(t) =>
          piece := CleanText(t);
        case Comment(t) =>
          piece := comment(t);
        case PI(t, d) =>
          piece := "<?" + t + " " + d + "?>";
        case CData(d) =>
          piece := "<![CDATA[" + d + "]]>";
      }
      r := r + piece;
    }
  }
}
