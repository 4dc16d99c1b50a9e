/** Pretty-printing an element tree in place: every element without real
    text gets its non-text nodes put on lines of their own, indented by
    nesting level. */
module Indentation {
  import opened JavaStrings
  import opened XMLNodes

  /** `k` spaces; none when `k` is not positive, as the counting loops of
      `indent` do. */
  function Spaces(k: int): (r: string)
    ensures |r| == if k > 0 then k else 0
    ensures forall j :: 0 <= j < |r| ==> r[j] == ' '
    decreases k
  {
    if k <= 0 then "" else Spaces(k - 1) + " "
  }

  /** A character that counts as text for `hasText`: a no-break space, or
      anything that is neither a space character nor a newline, carriage
      return or tab. */
  predicate RealChar(c: char) {
    c == '\U{00A0}' || !(IsSpaceChar(c) || c == '\n' || c == '\r' || c == '\t')
  }

  predicate NoRealChar(s: string) {
    forall j :: 0 <= j < |s| ==> !RealChar(s[j])
  }

  /** `hasText`: some text node holds a real character. */
  predicate HasText(c: seq<Node>) {
    !NoRealChar(TextOfNodes(c))
  }

  /** The layout `indent(e)` gives a content list: each non-text node
      preceded by a new line at depth `level`, then, when there was any, a
      new line at depth `level - 1`; text nodes are dropped. */
  function Laid(c: seq<Node>, level: int, spaces: int): seq<Node> {
    var body := Lines(NonTextNodes(c), "\n" + Spaces(level * spaces));
    if body == [] then [] else body + [Text("\n" + Spaces((level - 1) * spaces))]
  }

  /** Each node preceded by a text node holding `start`. */
  function Lines(ns: seq<Node>, start: string): (r: seq<Node>)
    ensures |r| == 2 * |ns|
    ensures forall k :: 0 <= k < |ns| ==> r[2 * k] == Text(start) && r[2 * k + 1] == ns[k]
    decreases |ns|
  {
    if ns == [] then []
    else
      var front := Lines(ns[..|ns| - 1], start);
      var r := front + [Text(start), ns[|ns| - 1]];
      assert forall k :: 0 <= k < |ns| - 1 ==> r[2 * k] == front[2 * k] && r[2 * k + 1] == front[2 * k + 1];
      r
  }

  /** The tree `recurse(e)` leaves, with `level` the depth at the call: an
      element with `xml:space="preserve"` is kept whole; any other has its
      content merged, laid out when it has no real text, and its element
      children treated at the next level. */
  function Indented(e: Element, level: int, spaces: int): (r: Element)
    ensures r.name == e.name && r.atts == e.atts
    decreases e, 1
  {
    if AttributeValue(e, "xml:space") == "preserve" then e
    else
      var m := Merged(e.content);
      var c := if HasText(m) then m else Laid(m, level, spaces);
      LaidElements(e, m, level, spaces);
      Element(e.name, e.atts, IndentedNodes(e, c, level + 1, spaces, |c|))
  }

  /** The first `i` nodes of `c`, element nodes indented at `level`. */
  function IndentedNodes(e: Element, c: seq<Node>, level: int, spaces: int, i: nat): (r: seq<Node>)
    requires ElementsOf(e, c) && i <= |c|
    ensures |r| == i
    decreases e, 0, i
  {
    if i == 0 then []
    else
      IndentedNodes(e, c, level, spaces, i - 1) + [IndentedNode(e, c[i - 1], level, spaces)]
  }

  /** One node of the content of `e`: an element is indented at `level`,
      any other node is kept. */
  function IndentedNode(e: Element, n: Node, level: int, spaces: int): (r: Node)
    requires n.Elem? ==> n in e.content
    ensures r.Text? == n.Text? && (!n.Elem? ==> r == n)
    decreases e, 0, 0
  {
    match n
    case Elem(x) => Elem(Indented(x, level, spaces))
    case _ => n
  }

  /** Appending nodes of the same kind, equal when text, keeps equal text
      and equally many non-text nodes. */
  lemma SameKindSnoc(a: seq<Node>, n: Node, b: seq<Node>, m: Node)
    requires TextOfNodes(a) == TextOfNodes(b) && |NonTextNodes(a)| == |NonTextNodes(b)|
    requires n.Text? == m.Text? && (n.Text? ==> n == m)
    ensures TextOfNodes(a + [n]) == TextOfNodes(b + [m])
    ensures |NonTextNodes(a + [n])| == |NonTextNodes(b + [m])|
  {
    TextSnoc(a, n);
    NonTextSnoc(a, n);
    TextSnoc(b, m);
    NonTextSnoc(b, m);
  }

  lemma LinesSnoc(ns: seq<Node>, n: Node, start: string)
    ensures Lines(ns + [n], start) == Lines(ns, start) + [Text(start), n]
  {
    assert (ns + [n])[..|ns|] == ns;
  }

  lemma {:induction false} LinesNonText(ns: seq<Node>, start: string)
    requires forall k :: 0 <= k < |ns| ==> !ns[k].Text?
    ensures NonTextNodes(Lines(ns, start)) == ns
    decreases |ns|
  {
    if ns != [] {
      LinesNonText(ns[..|ns| - 1], start);
      NonTextPair(Lines(ns[..|ns| - 1], start), start, ns[|ns| - 1]);
      assert ns == ns[..|ns| - 1] + [ns[|ns| - 1]];
    }
  }

  lemma NonTextPair(front: seq<Node>, start: string, n: Node)
    requires !n.Text?
    ensures NonTextNodes(front + [Text(start), n]) == NonTextNodes(front) + [n]
  {
    NonTextSnoc(front, Text(start));
    NonTextSnoc(front + [Text(start)], n);
    assert front + [Text(start), n] == front + [Text(start)] + [n];
  }

  /** One more node of `c` adds a line when it is not text. */
  lemma LinesStep(c: seq<Node>, i: nat, start: string)
    requires i < |c|
    ensures Lines(NonTextNodes(c[..i + 1]), start)
         == Lines(NonTextNodes(c[..i]), start) + (if c[i].Text? then [] else [Text(start), c[i]])
  {
    assert c[..i + 1] == c[..i] + [c[i]];
    NonTextSnoc(c[..i], c[i]);
    if !c[i].Text? {
      LinesSnoc(NonTextNodes(c[..i]), c[i], start);
    } else {
      assert NonTextNodes(c[..i + 1]) == NonTextNodes(c[..i]);
    }
  }

  /** One more node of `c` adds its text when it is text. */
  lemma TextStep(c: seq<Node>, i: nat)
    requires i < |c|
    ensures TextOfNodes(c[..i + 1]) == TextOfNodes(c[..i]) + (if c[i].Text? then c[i].text else "")
  {
    assert c[..i + 1] == c[..i] + [c[i]];
    TextSnoc(c[..i], c[i]);
  }

  lemma BlankStep(t: string, j: nat)
    requires j < |t| && NoRealChar(t[..j]) && !RealChar(t[j])
    ensures NoRealChar(t[..j + 1])
  {
    assert t[..j + 1] == t[..j] + [t[j]];
  }

  /** A real character of `t` is one of `s + t`. */
  lemma RealIn(s: string, t: string, j: nat)
    requires j < |t| && RealChar(t[j])
    ensures !NoRealChar(s + t)
  {
    assert (s + t)[|s| + j] == t[j];
  }

  lemma {:induction false} NonTextNodesHaveNoText(c: seq<Node>)
    ensures forall k :: 0 <= k < |NonTextNodes(c)| ==> !NonTextNodes(c)[k].Text?
    decreases |c|
  {
    if c != [] {
      NonTextNodesHaveNoText(c[..|c| - 1]);
    }
  }

  /** Laying out keeps the non-text nodes in order, so it adds no element
      node. */
  lemma LaidNonText(c: seq<Node>, level: int, spaces: int)
    ensures NonTextNodes(Laid(c, level, spaces)) == NonTextNodes(c)
  {
    var start := "\n" + Spaces(level * spaces);
    var body := Lines(NonTextNodes(c), start);
    NonTextNodesHaveNoText(c);
    LinesNonText(NonTextNodes(c), start);
    if body != [] {
      NonTextSnoc(body, Text("\n" + Spaces((level - 1) * spaces)));
    }
  }

  lemma LaidElements(e: Element, m: seq<Node>, level: int, spaces: int)
    requires m == Merged(e.content)
    ensures ElementsOf(e, m) && ElementsOf(e, Laid(m, level, spaces))
  {
    MergedElements(e);
    LaidNonText(m, level, spaces);
    SameNonTextElements(e, m, Laid(m, level, spaces));
  }

  /** Two lists with the same non-text nodes have the same element nodes. */
  lemma SameNonTextElements(e: Element, m: seq<Node>, l: seq<Node>)
    requires ElementsOf(e, m) && NonTextNodes(l) == NonTextNodes(m)
    ensures ElementsOf(e, l)
  {
    NonTextMembers(l);
    NonTextMembers(m);
    forall k | 0 <= k < |l| && l[k].Elem? ensures l[k] in e.content {
      assert l[k] in NonTextNodes(m);
      var j :| 0 <= j < |m| && m[j] == l[k];
    }
  }

  /** An element marked `xml:space="preserve"` is left as it is, subtree
      included. */
  lemma PreservedUnchanged(e: Element, level: int, spaces: int)
    requires "xml:space" in e.atts && e.atts["xml:space"] == "preserve"
    ensures Indented(e, level, spaces) == e
  {
  }

  /** For an element without real text the layout alternates indentation
      and nodes: the `k`-th non-text node sits at index `2k + 1` after a new
      line at `level` depth, and a last new line one level up closes the
      content when there is any node. */
  lemma LaidShape(c: seq<Node>, level: int, spaces: int)
    ensures var ns := NonTextNodes(c);
            var l := Laid(c, level, spaces);
            (ns == [] ==> l == []) &&
            (ns != [] ==>
               |l| == 2 * |ns| + 1 &&
               l[|l| - 1] == Text("\n" + Spaces((level - 1) * spaces)) &&
               forall k :: 0 <= k < |ns| ==> l[2 * k] == Text("\n" + Spaces(level * spaces)) && l[2 * k + 1] == ns[k])
  {
  }

  /** `hasText` looks at no node other than text. */
  lemma {:induction false} LaidHasNoText(c: seq<Node>, level: int, spaces: int)
    ensures !HasText(Laid(c, level, spaces))
  {
    var start := "\n" + Spaces(level * spaces);
    var ns := NonTextNodes(c);
    NonTextNodesHaveNoText(c);
    LinesText(ns, start);
    var body := Lines(ns, start);
    if body != [] {
      var end := "\n" + Spaces((level - 1) * spaces);
      TextSnoc(body, Text(end));
      BlankLine((level - 1) * spaces);
      Blanks(TextOfNodes(body), end);
    }
  }

  lemma BlankLine(k: int)
    ensures NoRealChar("\n" + Spaces(k))
  {
    var s := "\n" + Spaces(k);
    forall j | 0 <= j < |s| ensures !RealChar(s[j]) {
      if j > 0 {
        assert s[j] == Spaces(k)[j - 1];
      }
    }
  }

  lemma Blanks(a: string, b: string)
    requires NoRealChar(a) && NoRealChar(b)
    ensures NoRealChar(a + b)
  {
    forall j | 0 <= j < |a + b| ensures !RealChar((a + b)[j]) {
      if j >= |a| {
        assert (a + b)[j] == b[j - |a|];
      }
    }
  }

  lemma {:induction false} LinesText(ns: seq<Node>, start: string)
    requires forall k :: 0 <= k < |ns| ==> !ns[k].Text?
    requires start == "\n" + Spaces(|start| - 1)
    ensures NoRealChar(TextOfNodes(Lines(ns, start)))
    decreases |ns|
  {
    if ns != [] {
      var front := Lines(ns[..|ns| - 1], start);
      var n := ns[|ns| - 1];
      LinesText(ns[..|ns| - 1], start);
      TextSnoc(front, Text(start));
      TextSnoc(front + [Text(start)], n);
      assert front + [Text(start), n] == front + [Text(start)] + [n];
      BlankLine(|start| - 1);
      Blanks(TextOfNodes(front), start);
    }
  }

  lemma {:induction false} IndentedNodesText(e: Element, c: seq<Node>, level: int, spaces: int, i: nat)
    requires ElementsOf(e, c) && i <= |c|
    ensures TextOfNodes(IndentedNodes(e, c, level, spaces, i)) == TextOfNodes(c[..i])
    ensures |NonTextNodes(IndentedNodes(e, c, level, spaces, i))| == |NonTextNodes(c[..i])|
    decreases i
  {
    if i > 0 {
      IndentedNodesText(e, c, level, spaces, i - 1);
      assert c[..i] == c[..i - 1] + [c[i - 1]];
      SameKindSnoc(IndentedNodes(e, c, level, spaces, i - 1), IndentedNode(e, c[i - 1], level, spaces), c[..i - 1], c[i - 1]);
    }
  }

  /** An element with real text keeps its text and its number of
      non-text nodes; only its children are indented. */
  lemma IndentedKeepsText(e: Element, level: int, spaces: int)
    requires HasText(Merged(e.content))
    ensures TextOfNodes(Indented(e, level, spaces).content) == TextOfNodes(e.content)
    ensures |NonTextNodes(Indented(e, level, spaces).content)| == |NonTextNodes(e.content)|
  {
    var m := Merged(e.content);
    if AttributeValue(e, "xml:space") != "preserve" {
      MergedElements(e);
      IndentedNodesText(e, m, level + 1, spaces, |m|);
      assert m[..|m|] == m;
    }
  }

  /** An element without real text and not preserved ends up with only
      the blank lines of the layout as text, and keeps the number of its
      non-text nodes. */
  lemma IndentedLaysOut(e: Element, level: int, spaces: int)
    requires AttributeValue(e, "xml:space") != "preserve"
    requires !HasText(Merged(e.content))
    ensures !HasText(Indented(e, level, spaces).content)
    ensures |NonTextNodes(Indented(e, level, spaces).content)| == |NonTextNodes(e.content)|
  {
    var m := Merged(e.content);
    var l := Laid(m, level, spaces);
    LaidElements(e, m, level, spaces);
    IndentedNodesText(e, l, level + 1, spaces, |l|);
    assert l[..|l|] == l;
    LaidHasNoText(m, level, spaces);
    LaidNonText(m, level, spaces);
  }

  /** The indenter's state: the current nesting level and the number of
      spaces per level (static fields in the library). */
  class Indenter {
    var level: int
    var numSpaces: int

    constructor (level: int, numSpaces: int)
      ensures this.level == level && this.numSpaces == numSpaces
    {
      this.level := level;
      this.numSpaces := numSpaces;
    }

    /** `indent(e, spaces)`: start at level 1. */
    method Indent(e: Element, spaces: int) returns (r: Element)
      modifies this
      ensures r == Indented(e, 1, spaces)
      ensures level == 1 && numSpaces == spaces
    {
      level := 1;
      numSpaces := spaces;
      r := Recurse(e);
    }

    /** `indent(e, indent, spaces)`: start at the given level. */
    method IndentFrom(e: Element, indent: int, spaces: int) returns (r: Element)
      modifies this
      ensures r == Indented(e, indent, spaces)
      ensures level == indent && numSpaces == spaces
    {
      level := indent;
      numSpaces := spaces;
      r := Recurse(e);
    }

    /** `recurse(e)`: the children are visited one level deeper and the
        level is restored afterwards. */
    method Recurse(e: Element) returns (r: Element)
      modifies this
      ensures r == Indented(e, old(level), old(numSpaces))
      ensures level == old(level) && numSpaces == old(numSpaces)
      decreases e, 1
    {
      if AttributeValue(e, "xml:space") == "preserve" {
        return e;
      }
      var m := MergeText(e.content);
      var has := HasTextIn(m);
      var c := m;
      if !has {
        c := LayOut(m);
      }
      LaidElements(e, m, level, numSpaces);
      level := level + 1;
      var nodes := Visit(e, c);
      level := level - 1;
      r := Element(e.name, e.atts, nodes);
    }

    /** The loop over the children of `recurse`. */
    method Visit(e: Element, c: seq<Node>) returns (nodes: seq<Node>)
      requires ElementsOf(e, c)
      modifies this
      ensures nodes == IndentedNodes(e, c, old(level), old(numSpaces), |c|)
      ensures level == old(level) && numSpaces == old(numSpaces)
      decreases e, 0
    {
      nodes := [];
      for i := 0 to |c|
        invariant nodes == IndentedNodes(e, c, old(level), old(numSpaces), i)
        invariant level == old(level) && numSpaces == old(numSpaces)
      {
        match c[i] {
          case Elem(x) =>
            assert c[i] in e.content;
            var y := Recurse(x);
            nodes := nodes + [Elem(y)];
          case _ =>
            nodes := nodes + [c[i]];
        }
      }
    }

    /** `indent(e)` on a merged content list. */
    method LayOut(c: seq<Node>) returns (r: seq<Node>)
      ensures r == Laid(c, level, numSpaces)
    {
      var pad := SpaceRun(level * numSpaces);
      var start := "\n" + pad;
      pad := SpaceRun((level - 1) * numSpaces);
      var end := "\n" + pad;
      r := [];
      for i := 0 to |c|
        invariant r == Lines(NonTextNodes(c[..i]), start)
      {
        LinesStep(c, i, start);
        if !c[i].Text? {
          r := r + [Text(start), c[i]];
        }
      }
      assert c[..|c|] == c;
      if r != [] {
        r := r + [Text(end)];
      }
    }

    /** `hasText(e)` on a merged content list. */
    method HasTextIn(c: seq<Node>) returns (b: bool)
      ensures b == HasText(c)
    {
      for i := 0 to |c|
        invariant NoRealChar(TextOfNodes(c[..i]))
      {
        TextStep(c, i);
        if c[i].Text? {
          var t := c[i].text;
          for j := 0 to |t|
            invariant NoRealChar(t[..j])
          {
            if t[j] == '\U{00A0}' || !(IsSpaceChar(t[j]) || t[j] == '\n' || t[j] == '\r' || t[j] == '\t') {
              RealIn(TextOfNodes(c[..i]), t, j);
              PrefixHasText(TextOfNodes(c[..i]) + t, c, i + 1);
              return true;
            }
            BlankStep(t, j);
          }
          assert t[..|t|] == t;
          Blanks(TextOfNodes(c[..i]), t);
        }
      }
      assert c[..|c|] == c;
      return false;
    }
  }

  /** A no-break space or other real character in the text of a prefix is
      one in the text of the whole list. */
  lemma PrefixHasText(s: string, c: seq<Node>, i: nat)
    requires i <= |c| && s == TextOfNodes(c[..i]) && !NoRealChar(s)
    ensures HasText(c)
  {
    assert c == c[..i] + c[i..];
    TextAppend(c[..i], c[i..]);
    var j :| 0 <= j < |s| && RealChar(s[j]);
    assert TextOfNodes(c)[j] == s[j];
  }

  lemma {:induction false} TextAppend(a: seq<Node>, b: seq<Node>)
    ensures TextOfNodes(a + b) == TextOfNodes(a) + TextOfNodes(b)
    decreases |b|
  {
    if b == [] {
      assert a + b == a;
    } else {
      assert (a + b)[..|a + b| - 1] == a + b[..|b| - 1];
      TextAppend(a, b[..|b| - 1]);
    }
  }

  /** The counting loop of `indent(e)` that appends `k` spaces. */
  method SpaceRun(k: int) returns (s: string)
    ensures s == Spaces(k)
  {
    s := "";
    var i := 0;
    while i < k
      invariant 0 <= i && (k > 0 ==> i <= k) && (k <= 0 ==> i == 0) && s == Spaces(i)
    {
      s := s + " ";
      i := i + 1;
    }
  }
}
