/** A document: its top-level content list (prolog nodes and the root
    element), the root element and the cached encoding name. */
module XMLDocuments {
  import opened Wrappers
  import opened XMLNodes

  /** The root element the constructors create: a new element with the
      qualified name and, for a non-empty namespace, an `xmlns:prefix`
      attribute when the name has a prefix and an `xmlns` attribute
      otherwise. */
  function NewRoot(namespaceURI: Option<string>, qualifiedName: string): (r: Element)
    ensures r.name == qualifiedName && r.content == []
    ensures namespaceURI.None? || namespaceURI == Some("") ==> r.atts == map[]
  {
    var root := NewElement(qualifiedName);
    if namespaceURI.None? || namespaceURI.value == "" then root
    else
      match Prefix(qualifiedName)
      case Some(p) => SetAttribute(root, "xmlns:" + p, namespaceURI.value)
      case None => SetAttribute(root, "xmlns", namespaceURI.value)
  }

  /** A prefixed name gets its prefix bound to the namespace, an
      unprefixed one the default namespace. */
  lemma NewRootNamespace(ns: string, p: string, local: string)
    requires ns != "" && ':' !in p && ':' !in local && local != ""
    ensures NewRoot(Some(ns), p + ":" + local).atts == map["xmlns:" + p := ns]
    ensures NewRoot(Some(ns), local).atts == map["xmlns" := ns]
  {
    PrefixOfQualified(p, local);
    PrefixOfUnqualified(local);
  }

  /** The prolog nodes the prolog constructor copies: processing
      instructions, comments and text, in order. */
  function PrologNodes(prolog: seq<Node>): seq<Node>
    decreases |prolog|
  {
    if prolog == [] then []
    else PrologNodes(prolog[..|prolog| - 1]) + (if Copied(prolog[|prolog| - 1]) then [prolog[|prolog| - 1]] else [])
  }

  predicate Copied(n: Node) {
    n.PI? || n.Comment? || n.Text?
  }

  /** The copied nodes are exactly the prolog's PIs, comments and text, and
      copying distributes over concatenation, so order is kept. */
  lemma {:induction false} PrologNodesFacts(a: seq<Node>, b: seq<Node>)
    ensures forall n :: n in PrologNodes(b) <==> n in b && Copied(n)
    ensures PrologNodes(a + b) == PrologNodes(a) + PrologNodes(b)
    decreases |b|
  {
    if b == [] {
      assert a + b == a;
    } else {
      assert b == b[..|b| - 1] + [b[|b| - 1]];
      assert (a + b)[..|a + b| - 1] == a + b[..|b| - 1];
      PrologNodesFacts(a, b[..|b| - 1]);
    }
  }

  /** The nodes `setProlog` inserts: processing instructions and comments,
      in order. */
  function PrologItems(prolog: seq<Node>): seq<Node>
    decreases |prolog|
  {
    if prolog == [] then []
    else PrologItems(prolog[..|prolog| - 1]) + (if Inserted(prolog[|prolog| - 1]) then [prolog[|prolog| - 1]] else [])
  }

  predicate Inserted(n: Node) {
    n.PI? || n.Comment?
  }

  lemma {:induction false} PrologItemsMembers(b: seq<Node>)
    ensures forall n :: n in PrologItems(b) <==> n in b && Inserted(n)
    decreases |b|
  {
    if b != [] {
      assert b == b[..|b| - 1] + [b[|b| - 1]];
      PrologItemsMembers(b[..|b| - 1]);
    }
  }

  /** `setRootElement(e)`'s new content: every element node replaced by
      `e`, every other node kept where it is. */
  function ReplaceElements(c: seq<Node>, e: Element): (r: seq<Node>)
    ensures |r| == |c|
    ensures forall i :: 0 <= i < |c| ==> r[i] == if c[i].Elem? then Elem(e) else c[i]
  {
    seq(|c|, i requires 0 <= i < |c| => if c[i].Elem? then Elem(e) else c[i])
  }

  /** The node is a processing instruction, with the given target when one
      is given. */
  predicate Selected(n: Node, target: Option<string>) {
    n.PI? && (target.None? || n.target == target.value)
  }

  /** `getPI()` and `getPI(target)`: the selected processing instructions
      in content order. */
  function PIs(c: seq<Node>, target: Option<string>): seq<Node>
    decreases |c|
  {
    if c == [] then []
    else PIs(c[..|c| - 1], target) + (if Selected(c[|c| - 1], target) then [c[|c| - 1]] else [])
  }

  lemma {:induction false} PIsMembers(c: seq<Node>, target: Option<string>)
    ensures forall n :: n in PIs(c, target) <==> n in c && Selected(n, target)
    decreases |c|
  {
    if c != [] {
      assert c == c[..|c| - 1] + [c[|c| - 1]];
      PIsMembers(c[..|c| - 1], target);
    }
  }

  /** `List.remove(Object)`: the first node equal to `n` taken out. */
  function RemoveFirst(c: seq<Node>, n: Node): (r: seq<Node>)
    ensures n in c ==> |r| == |c| - 1
    ensures n !in c ==> r == c
    decreases |c|
  {
    if c == [] then []
    else if c[0] == n then c[1..]
    else [c[0]] + RemoveFirst(c[1..], n)
  }

  /** The loop of `removePI(target)` (with a target) and `removeAllPI()`
      (without), from index `i` on: a selected node is removed by value and
      the index advances anyway, so the node that moved into its place is
      not looked at. */
  function RemovePass(c: seq<Node>, i: nat, target: Option<string>): seq<Node>
    decreases |c| - i
  {
    if i >= |c| then c
    else if Selected(c[i], target) then RemovePass(RemoveFirst(c, c[i]), i + 1, target)
    else RemovePass(c, i + 1, target)
  }

  /** Two adjacent processing instructions with the target: the second
      survives `removePI`. */
  lemma RemovePISkipsNeighbour()
    ensures RemovePass([PI("t", "1"), PI("t", "2")], 0, Some("t")) == [PI("t", "2")]
    ensures RemovePass([PI("a", ""), PI("b", "")], 0, None) == [PI("b", "")]
  {
    assert RemoveFirst([PI("t", "1"), PI("t", "2")], PI("t", "1")) == [PI("t", "2")];
    assert RemoveFirst([PI("a", ""), PI("b", "")], PI("a", "")) == [PI("b", "")];
  }

  /** What `removePI` is meant to leave: the content without the selected
      processing instructions. */
  function WithoutPIs(c: seq<Node>, target: Option<string>): seq<Node>
    decreases |c|
  {
    if c == [] then []
    else WithoutPIs(c[..|c| - 1], target) + (if Selected(c[|c| - 1], target) then [] else [c[|c| - 1]])
  }

  /** Every node that is not selected is left, and only those. */
  lemma {:induction false} WithoutPIsMembers(c: seq<Node>, target: Option<string>)
    ensures forall n :: n in WithoutPIs(c, target) <==> n in c && !Selected(n, target)
    decreases |c|
  {
    if c != [] {
      assert c == c[..|c| - 1] + [c[|c| - 1]];
      WithoutPIsMembers(c[..|c| - 1], target);
    }
  }

  /** The removal distributes over concatenation, so order is kept. */
  lemma {:induction false} WithoutPIsAppend(a: seq<Node>, b: seq<Node>, target: Option<string>)
    ensures WithoutPIs(a + b, target) == WithoutPIs(a, target) + WithoutPIs(b, target)
    decreases |b|
  {
    if b == [] {
      assert a + b == a;
    } else {
      assert (a + b)[..|a + b| - 1] == a + b[..|b| - 1];
      WithoutPIsAppend(a, b[..|b| - 1], target);
    }
  }

  /** No selected processing instruction is left for `getPI` to find. */
  lemma {:induction false} WithoutPIsLeavesNone(c: seq<Node>, target: Option<string>)
    ensures PIs(WithoutPIs(c, target), target) == []
    decreases |c|
  {
    if c != [] {
      var w := WithoutPIs(c[..|c| - 1], target);
      var n := c[|c| - 1];
      WithoutPIsLeavesNone(c[..|c| - 1], target);
      if Selected(n, target) {
        assert WithoutPIs(c, target) == w + [];
        assert w + [] == w;
      } else {
        assert WithoutPIs(c, target) == w + [n];
        assert (w + [n])[..|w|] == w;
        assert PIs(w + [n], target) == PIs(w, target) + [];
      }
    }
  }

  class Document {
    var content: seq<Node>
    var root: Element
    var encoding: Option<string>
    var publicId: Option<string>
    var systemId: Option<string>
    var internalSubset: Option<string>

    /** `Document(namespaceURI, qualifiedName, publicId, systemId)`. */
    constructor WithIds(namespaceURI: Option<string>, qualifiedName: string, publicId: Option<string>, systemId: Option<string>)
      ensures root == NewRoot(namespaceURI, qualifiedName)
      ensures content == [Elem(root)]
      ensures this.publicId == publicId && this.systemId == systemId
      ensures internalSubset == None && encoding == None
    {
      this.publicId := publicId;
      this.systemId := systemId;
      internalSubset := None;
      encoding := None;
      root := NewRoot(namespaceURI, qualifiedName);
      content := [Elem(NewRoot(namespaceURI, qualifiedName))];
    }

    /** `Document(namespaceURI, qualifiedName, internalSubset)`. */
    constructor WithSubset(namespaceURI: Option<string>, qualifiedName: string, internalSubset: Option<string>)
      ensures root == NewRoot(namespaceURI, qualifiedName)
      ensures content == [Elem(root)]
      ensures this.internalSubset == internalSubset
      ensures publicId == None && systemId == None && encoding == None
    {
      this.internalSubset := internalSubset;
      publicId := None;
      systemId := None;
      encoding := None;
      root := NewRoot(namespaceURI, qualifiedName);
      content := [Elem(NewRoot(namespaceURI, qualifiedName))];
    }

    /** `Document(namespaceURI, qualifiedName, prolog)`: the prolog's PIs,
        comments and text nodes, then the root. */
    constructor WithProlog(namespaceURI: Option<string>, qualifiedName: string, prolog: Option<seq<Node>>)
      ensures root == NewRoot(namespaceURI, qualifiedName)
      ensures content == (if prolog.Some? then PrologNodes(prolog.value) else []) + [Elem(root)]
      ensures publicId == None && systemId == None && internalSubset == None && encoding == None
    {
      var kept: seq<Node> := [];
      if prolog.Some? {
        var p := prolog.value;
        for i := 0 to |p|
          invariant kept == PrologNodes(p[..i])
        {
          assert p[..i + 1][..i] == p[..i];
          match p[i] {
            case PI(_, _) =>
              kept := kept + [p[i]];
            case Comment(_) =>
              kept := kept + [p[i]];
            case Text(_) =>
              kept := kept + [p[i]];
            case _ =>
          }
        }
        assert p[..|p|] == p;
      }
      publicId := None;
      systemId := None;
      internalSubset := None;
      encoding := None;
      root := NewRoot(namespaceURI, qualifiedName);
      content := kept + [Elem(NewRoot(namespaceURI, qualifiedName))];
    }

    /** `setRootElement(e)`: every element node of the content becomes `e`;
        the root field follows only when there is one. */
    method SetRootElement(e: Element)
      modifies this
      ensures content == ReplaceElements(old(content), e)
      ensures root == if exists i :: 0 <= i < |old(content)| && old(content)[i].Elem? then e else old(root)
      ensures encoding == old(encoding) && publicId == old(publicId) && systemId == old(systemId)
      ensures internalSubset == old(internalSubset)
    {
      ghost var c0 := content;
      for i := 0 to |content|
        invariant |content| == |c0|
        invariant forall k :: 0 <= k < i ==> content[k] == if c0[k].Elem? then Elem(e) else c0[k]
        invariant forall k :: i <= k < |c0| ==> content[k] == c0[k]
        invariant root == if exists k :: 0 <= k < i && c0[k].Elem? then e else old(root)
        invariant encoding == old(encoding) && publicId == old(publicId) && systemId == old(systemId)
        invariant internalSubset == old(internalSubset)
      {
        if content[i].Elem? {
          root := e;
          content := content[i := Elem(e)];
        }
      }
    }

    /** `getPI()` (no target) and `getPI(target)`. */
    method GetPI(target: Option<string>) returns (result: seq<Node>)
      ensures result == PIs(content, target)
    {
      result := [];
      for i := 0 to |content|
        invariant result == PIs(content[..i], target)
      {
        assert content[..i + 1][..i] == content[..i];
        if content[i].PI? && (target.None? || content[i].target == target.value) {
          result := result + [content[i]];
        }
      }
      assert content[..|content|] == content;
    }

    /** `removePI(target)` (with a target) and `removeAllPI()` (without),
        as written: see `RemovePass`. */
    method RemovePI(target: Option<string>)
      modifies this
      ensures content == RemovePass(old(content), 0, target)
      ensures root == old(root) && encoding == old(encoding)
      ensures publicId == old(publicId) && systemId == old(systemId) && internalSubset == old(internalSubset)
    {
      var i := 0;
      while i < |content|
        invariant RemovePass(content, i, target) == RemovePass(old(content), 0, target)
        invariant root == old(root) && encoding == old(encoding)
        invariant publicId == old(publicId) && systemId == old(systemId) && internalSubset == old(internalSubset)
        decreases |content| - i
      {
        var node := content[i];
        if node.PI? && (target.None? || node.target == target.value) {
          content := RemoveFirst(content, node);
        }
        i := i + 1;
      }
    }

    /** `removePI` as intended: every selected processing instruction
        removed, every other node kept in order. */
    method RemoveEveryPI(target: Option<string>)
      modifies this
      ensures content == WithoutPIs(old(content), target)
      ensures root == old(root) && encoding == old(encoding)
      ensures publicId == old(publicId) && systemId == old(systemId) && internalSubset == old(internalSubset)
    {
      var kept: seq<Node> := [];
      for i := 0 to |content|
        invariant kept == WithoutPIs(content[..i], target)
      {
        assert content[..i + 1][..i] == content[..i];
        if !(content[i].PI? && (target.None? || content[i].target == target.value)) {
          kept := kept + [content[i]];
        }
      }
      assert content[..|content|] == content;
      content := kept;
    }

    /** `setProlog(prolog)`: each PI and comment of the prolog inserted
        before the last node, in order.  With an empty content list the
        first insertion fails with an index error and nothing changes. */
    method SetProlog(prolog: seq<Node>) returns (r: Result<()>)
      modifies this
      ensures old(content) == [] && PrologItems(prolog) != [] ==> r == Err(IndexOutOfBounds) && content == old(content)
      ensures old(content) == [] && PrologItems(prolog) == [] ==> r == Ok(()) && content == old(content)
      ensures old(content) != [] ==>
                r == Ok(()) &&
                content == old(content)[..|old(content)| - 1] + PrologItems(prolog) + [old(content)[|old(content)| - 1]]
      ensures root == old(root) && encoding == old(encoding)
      ensures publicId == old(publicId) && systemId == old(systemId) && internalSubset == old(internalSubset)
    {
      var c0 := content;
      for i := 0 to |prolog|
        invariant c0 == [] ==> PrologItems(prolog[..i]) == [] && content == []
        invariant c0 != [] ==> content == c0[..|c0| - 1] + PrologItems(prolog[..i]) + [c0[|c0| - 1]]
        invariant root == old(root) && encoding == old(encoding) && c0 == old(content)
        invariant publicId == old(publicId) && systemId == old(systemId) && internalSubset == old(internalSubset)
      {
        assert prolog[..i + 1][..i] == prolog[..i];
        var node := prolog[i];
        if node.PI? || node.Comment? {
          if content == [] {
            assert PrologItems(prolog) != [] by {
              PrologItemsMembers(prolog);
              assert node in prolog;
            }
            return Err(IndexOutOfBounds);
          }
          content := content[..|content| - 1] + [node] + [content[|content| - 1]];
        }
      }
      assert prolog[..|prolog|] == prolog;
      return Ok(());
    }

    /** `getEncoding()`: UTF-8 unless set, and that default is kept. */
    method GetEncoding() returns (r: string)
      modifies this
      ensures old(encoding).Some? ==> r == old(encoding).value && encoding == old(encoding)
      ensures old(encoding).None? ==> r == "UTF-8" && encoding == Some("UTF-8")
      ensures content == old(content) && root == old(root)
      ensures publicId == old(publicId) && systemId == old(systemId) && internalSubset == old(internalSubset)
    {
      if encoding.None? {
        encoding := Some("UTF-8");
      }
      r := encoding.value;
    }
  }
}
