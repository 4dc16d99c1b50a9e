/** The two helpers of the document builder that post-process what the
    declaration handler collected: the namespace prefixes the root element
    declares, and the attribute lists restricted to those prefixes. */
module SAXBuilding {
  import opened Wrappers
  import opened JavaStrings
  import opened Scanning
  import opened XMLNodes
  import opened AttributeDecls
  import opened AttlistDecls
  import opened EntityHandling

  // ---- getRootNamespaces ----

  /** The prefixes declared by `xmlns:p` attributes of the root. */
  function RootNamespaces(atts: map<string, string>): set<string> {
    set k | k in atts && StartsWith(k, "xmlns:") :: k[6..]
  }

  /** Exactly the suffixes after `xmlns:` of the root's attribute names. */
  lemma RootNamespacesIff(atts: map<string, string>, p: string)
    ensures p in RootNamespaces(atts) <==> "xmlns:" + p in atts
  {
    if "xmlns:" + p in atts {
      var k := "xmlns:" + p;
      assert k[..6] == "xmlns:" && k[6..] == p;
    }
    if p in RootNamespaces(atts) {
      var k :| k in atts && StartsWith(k, "xmlns:") && k[6..] == p;
      assert k == k[..6] + k[6..];
    }
  }

  /** `getRootNamespaces`: one pass over the attributes of the root. */
  method GetRootNamespaces(root: Element) returns (namespaces: set<string>)
    ensures namespaces == RootNamespaces(root.atts)
  {
    namespaces := {};
    var names := root.atts.Keys;
    while names != {}
      invariant names <= root.atts.Keys
      invariant namespaces == set k | k in root.atts && k !in names && StartsWith(k, "xmlns:") :: k[6..]
      decreases |names|
    {
      var a :| a in names;
      if StartsWith(a, "xmlns:") {
        namespaces := namespaces + {a[6..]};
      }
      names := names - {a};
    }
  }

  // ---- filterAttlistDeclarations ----

  /** An attribute is kept when its name has no colon, or when the prefix
      before the first colon is a declared namespace. */
  predicate Keeps(name: string, namespaces: set<string>) {
    var i := IndexOf(name, ":");
    if i != -1 then name[..i] in namespaces else true
  }

  lemma KeepsIff(name: string, namespaces: set<string>)
    ensures Keeps(name, namespaces) <==> ':' !in name || exists k :: 0 <= k < |name| && name[k] == ':' && ':' !in name[..k] && name[..k] in namespaces
  {
    HasColonIff(name);
    var i := IndexOf(name, ":");
    if i != -1 {
      OccursAtChar(name, ':', i);
      assert ':' !in name[..i] by {
        forall j | 0 <= j < i ensures name[..i][j] != ':' {
          OccursAtChar(name, ':', j);
        }
      }
      forall k | 0 <= k < |name| && name[k] == ':' && ':' !in name[..k] ensures k == i {
        if k < i {
          OccursAtChar(name, ':', k);
        }
      }
    }
  }

  /** The attributes of one list that are kept, in order. */
  function KeptAttributes(atts: seq<AttributeDecl>, namespaces: set<string>): (r: seq<AttributeDecl>)
    ensures |r| <= |atts|
    decreases |atts|
  {
    if atts == [] then []
    else
      var last := atts[|atts| - 1];
      KeptAttributes(atts[..|atts| - 1], namespaces) + (if Keeps(last.name, namespaces) then [last] else [])
  }

  /** The list restricted to the kept attributes, or nothing when none is
      left. */
  function FilteredList(l: AttlistDecl, namespaces: set<string>): seq<AttlistDecl> {
    var kept := KeptAttributes(l.attributes, namespaces);
    if kept == [] then [] else [AttlistDecl(l.listName, kept)]
  }

  /** `filterAttlistDeclarations` as intended: each list restricted, the
      empty ones dropped. */
  function Filtered(lists: seq<AttlistDecl>, namespaces: set<string>): (r: seq<AttlistDecl>)
    ensures |r| <= |lists|
    decreases |lists|
  {
    if lists == [] then []
    else Filtered(lists[..|lists| - 1], namespaces) + FilteredList(lists[|lists| - 1], namespaces)
  }

  /** `filterAttlistDeclarations` as written: every restricted list starts
      from `new AttlistDecl("<!ATTLIST name>")`. */
  function FilteredAsWritten(lists: seq<AttlistDecl>, namespaces: set<string>): Result<seq<AttlistDecl>>
    decreases |lists|
  {
    if lists == [] then Ok([])
    else
      var n :- AttlistDeclOf("<!ATTLIST " + lists[0].listName + ">");
      var l := n.(attributes := n.attributes + KeptAttributes(lists[0].attributes, namespaces));
      var rest :- FilteredAsWritten(lists[1..], namespaces);
      Ok((if l.attributes == [] then [] else [l]) + rest)
  }

  /** As written the filter fails on the first list of any non-empty input
      whose name the list constructor could have produced. */
  lemma FilterFails(lists: seq<AttlistDecl>, namespaces: set<string>)
    requires lists != [] && NoXmlSpace(lists[0].listName)
    ensures FilteredAsWritten(lists, namespaces) == Err(IndexOutOfBounds)
  {
    AttlistWithoutSpace(lists[0].listName);
  }

  lemma {:induction false} KeptAttributesAppend(a: seq<AttributeDecl>, b: seq<AttributeDecl>, namespaces: set<string>)
    ensures KeptAttributes(a + b, namespaces) == KeptAttributes(a, namespaces) + KeptAttributes(b, namespaces)
    decreases |b|
  {
    if b == [] {
      assert a + b == a;
    } else {
      assert (a + b)[..|a + b| - 1] == a + b[..|b| - 1];
      KeptAttributesAppend(a, b[..|b| - 1], namespaces);
    }
  }

  /** An attribute is kept iff it was in the list and its name passes. */
  lemma {:induction false} KeptAttributesMembers(atts: seq<AttributeDecl>, namespaces: set<string>)
    ensures forall a :: a in KeptAttributes(atts, namespaces) <==> a in atts && Keeps(a.name, namespaces)
    decreases |atts|
  {
    if atts != [] {
      KeptAttributesMembers(atts[..|atts| - 1], namespaces);
      assert atts == atts[..|atts| - 1] + [atts[|atts| - 1]];
    }
  }

  /** Filtering works list by list, so the kept lists stay in order. */
  lemma {:induction false} FilteredAppend(a: seq<AttlistDecl>, b: seq<AttlistDecl>, namespaces: set<string>)
    ensures Filtered(a + b, namespaces) == Filtered(a, namespaces) + Filtered(b, namespaces)
    decreases |b|
  {
    if b == [] {
      assert a + b == a;
    } else {
      assert (a + b)[..|a + b| - 1] == a + b[..|b| - 1];
      FilteredAppend(a, b[..|b| - 1], namespaces);
    }
  }

  /** No list of the result is empty, and each is an input list restricted
      to its kept attributes. */
  lemma {:induction false} FilteredLists(lists: seq<AttlistDecl>, namespaces: set<string>)
    ensures forall l :: l in Filtered(lists, namespaces) ==> l.attributes != []
    ensures forall l :: l in Filtered(lists, namespaces) ==>
              exists m :: m in lists && l == AttlistDecl(m.listName, KeptAttributes(m.attributes, namespaces))
    decreases |lists|
  {
    if lists != [] {
      var front := lists[..|lists| - 1];
      var m := lists[|lists| - 1];
      FilteredLists(front, namespaces);
      forall l | l in Filtered(lists, namespaces)
        ensures l.attributes != []
        ensures exists m :: m in lists && l == AttlistDecl(m.listName, KeptAttributes(m.attributes, namespaces))
      {
        if l in Filtered(front, namespaces) {
          var x :| x in front && l == AttlistDecl(x.listName, KeptAttributes(x.attributes, namespaces));
          assert x in lists;
        } else {
          assert l in FilteredList(m, namespaces);
        }
      }
    }
  }

  /** `filterAttlistDeclarations` as intended, with the loops of the
      source. */
  method FilterAttlistDeclarations(declarations: seq<AttlistDecl>, namespaces: set<string>) returns (result: seq<AttlistDecl>)
    ensures result == Filtered(declarations, namespaces)
  {
    result := [];
    for i := 0 to |declarations|
      invariant result == Filtered(declarations[..i], namespaces)
    {
      var attlist := declarations[i];
      var kept := FilterAttributes(attlist.attributes, namespaces);
      assert declarations[..i + 1][..i] == declarations[..i];
      if kept != [] {
        result := result + [AttlistDecl(attlist.listName, kept)];
      }
    }
    assert declarations[..|declarations|] == declarations;
  }

  /** The inner loop over the attributes of one list. */
  method FilterAttributes(atts: seq<AttributeDecl>, namespaces: set<string>) returns (kept: seq<AttributeDecl>)
    ensures kept == KeptAttributes(atts, namespaces)
  {
    kept := [];
    for j := 0 to |atts|
      invariant kept == KeptAttributes(atts[..j], namespaces)
    {
      var aName := atts[j].name;
      assert atts[..j + 1][..j] == atts[..j];
      var colon := IndexOf(aName, ":");
      if colon != -1 {
        var prefix := aName[..colon];
        if prefix in namespaces {
          kept := kept + [atts[j]];
        }
      } else {
        kept := kept + [atts[j]];
      }
    }
    assert atts[..|atts|] == atts;
  }
}
