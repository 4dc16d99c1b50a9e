/** The SAX declaration handler that collects the internal general
    entities and the attribute declarations of a document's DTD. */
module EntityHandling {
  import opened Wrappers
  import opened JavaStrings
  import opened Scanning
  import opened AttributeDecls
  import opened AttlistDecls

  /** `s.indexOf(':') != -1`. */
  predicate HasColon(s: string) {
    IndexOf(s, ":") != -1
  }

  lemma HasColonIff(s: string)
    ensures HasColon(s) <==> ':' in s
  {
    if ':' in s {
      var k :| 0 <= k < |s| && s[k] == ':';
      OccursAtChar(s, ':', k);
    } else {
      forall k ensures !OccursAt(s, ":", k) {
        OccursAtChar(s, ':', k);
      }
    }
  }

  /** The attributes `attributeDecl` skips: namespaced ones, the `xml:`
      family, and those the parser reports without mode or type. */
  predicate Ignored(attribute: string, attType: Option<string>, mode: Option<string>) {
    HasColon(attribute) || StartsWith(attribute, "xml:") || mode.None? || attType.None?
  }

  /** The `xml:` test adds nothing: such a name already has a colon. */
  lemma IgnoredIff(attribute: string, attType: Option<string>, mode: Option<string>)
    ensures Ignored(attribute, attType, mode) <==> ':' in attribute || mode.None? || attType.None?
  {
    HasColonIff(attribute);
    if StartsWith(attribute, "xml:") {
      assert attribute[3] == ':';
    }
  }

  /** The declaration `attributeDecl` records. */
  function Declared(attribute: string, attType: string, mode: string, value: Option<string>): (r: AttributeDecl)
    ensures r.name == attribute && r.attType == Some(attType) && r.defaultValue == value
    ensures r.isFixed <==> mode == "#FIXED"
    ensures !r.isParameterEntity
  {
    Create(attribute, Some(attType), value, mode == "#FIXED")
  }

  /** The names of the lists, in order. */
  function Names(lists: seq<AttlistDecl>): (r: seq<string>)
    ensures |r| == |lists|
    ensures forall k :: 0 <= k < |lists| ==> r[k] == lists[k].listName
  {
    seq(|lists|, k requires 0 <= k < |lists| => lists[k].listName)
  }

  /** At most one list per element name. */
  predicate UniqueNames(lists: seq<AttlistDecl>) {
    forall j, k :: 0 <= j < k < |lists| ==> lists[j].listName != lists[k].listName
  }

  /** The index of the first list for `element`, or `|lists|` when there is
      none. */
  function FindList(lists: seq<AttlistDecl>, element: string): (i: nat)
    ensures i <= |lists|
    ensures i < |lists| ==> lists[i].listName == element
    ensures forall k :: 0 <= k < i ==> lists[k].listName != element
    decreases |lists|
  {
    if lists == [] then 0
    else if lists[0].listName == element then 0
    else 1 + FindList(lists[1..], element)
  }

  /** `findOrCreateAttlistDecl` as written: the position of the first list
      for the element and the lists unchanged, or, when there is none, the
      position of the list built from the text `<!ATTLIST name>` and the
      lists with it appended. */
  function Located(lists: seq<AttlistDecl>, element: string): (r: Result<(nat, seq<AttlistDecl>)>)
    ensures r.Ok? ==> r.value.0 == FindList(lists, element) < |r.value.1|
    ensures r.Ok? ==> |lists| <= |r.value.1| <= |lists| + 1 && r.value.1[..|lists|] == lists
  {
    var i := FindList(lists, element);
    if i < |lists| then Ok((i, lists))
    else
      var n :- AttlistDeclOf("<!ATTLIST " + element + ">");
      Ok((i, lists + [n]))
  }

  /** Where no list exists, the located one is the constructor's. */
  lemma LocatedNew(lists: seq<AttlistDecl>, element: string)
    requires FindList(lists, element) == |lists|
    ensures var n := AttlistDeclOf("<!ATTLIST " + element + ">");
      Located(lists, element) == if n.Ok? then Ok((|lists|, lists + [n.value])) else Err(n.error)
  {
  }

  /** `attributeDecl` as written: the attribute is appended to the list
      `findOrCreateAttlistDecl` locates. */
  function AttributeAdded(lists: seq<AttlistDecl>, element: string, a: AttributeDecl): Result<seq<AttlistDecl>> {
    var found :- Located(lists, element);
    var (i, ls) := found;
    Ok(ls[i := ls[i].(attributes := ls[i].attributes + [a])])
  }

  /** `attributeDecl` as intended: a missing list is a fresh empty list
      named after the element. */
  function WithAttribute(lists: seq<AttlistDecl>, element: string, a: AttributeDecl): (r: seq<AttlistDecl>)
    ensures |r| == |lists| || |r| == |lists| + 1
  {
    var i := FindList(lists, element);
    if i < |lists| then lists[i := lists[i].(attributes := lists[i].attributes + [a])]
    else lists + [AttlistDecl(element, [a])]
  }

  /** The first attribute declared for an element fails as written: the
      constructor's name scan runs past the end of `<!ATTLIST name>`. */
  lemma FirstAttributeFails(lists: seq<AttlistDecl>, element: string, a: AttributeDecl)
    requires NoXmlSpace(element)
    requires forall k :: 0 <= k < |lists| ==> lists[k].listName != element
    ensures AttributeAdded(lists, element, a) == Err(IndexOutOfBounds)
  {
    AttlistWithoutSpace(element);
  }

  /** Where a list for the element exists, the code as written and the
      intended one agree. */
  lemma ExistingListAgrees(lists: seq<AttlistDecl>, element: string, a: AttributeDecl)
    requires exists k :: 0 <= k < |lists| && lists[k].listName == element
    ensures AttributeAdded(lists, element, a) == Ok(WithAttribute(lists, element, a))
  {
  }

  /** The list names stay in first-seen order: a new name is appended at
      the end and an existing one leaves the names as they were. */
  lemma WithAttributeNames(lists: seq<AttlistDecl>, element: string, a: AttributeDecl)
    ensures Names(WithAttribute(lists, element, a))
         == if element in Names(lists) then Names(lists) else Names(lists) + [element]
  {
    var i := FindList(lists, element);
    var r := WithAttribute(lists, element, a);
    if i < |lists| {
      assert element in Names(lists);
      assert Names(r) == Names(lists);
    } else {
      assert element !in Names(lists);
      assert Names(r) == Names(lists) + [element];
    }
  }

  /** At most one list per element name is kept. */
  lemma WithAttributeUnique(lists: seq<AttlistDecl>, element: string, a: AttributeDecl)
    requires UniqueNames(lists)
    ensures UniqueNames(WithAttribute(lists, element, a))
  {
  }

  /** The attribute is appended to the element's list; every other list is
      left alone. */
  lemma WithAttributeAppends(lists: seq<AttlistDecl>, element: string, a: AttributeDecl)
    ensures var r := WithAttribute(lists, element, a);
            var i := FindList(lists, element);
            i < |r| && r[i].listName == element &&
            r[i].attributes == (if i < |lists| then lists[i].attributes else []) + [a] &&
            forall k :: 0 <= k < |lists| && k != i ==> r[k] == lists[k]
  {
  }

  /** The handler's state: the general entities declared so far and one
      attribute list per element. */
  class EntityHandler {
    var entities: map<string, string>
    var attlistDeclarations: seq<AttlistDecl>

    constructor ()
      ensures entities == map[] && attlistDeclarations == []
    {
      entities := map[];
      attlistDeclarations := [];
    }

    /** `internalEntityDecl`: parameter entities (named with a leading `%`)
        are skipped; a repeated name overwrites the earlier value. */
    method InternalEntityDecl(name: string, value: string)
      modifies this
      ensures entities == if StartsWith(name, "%") then old(entities) else old(entities)[name := value]
      ensures attlistDeclarations == old(attlistDeclarations)
    {
      if !StartsWith(name, "%") {
        entities := entities[name := value];
      }
    }

    /** `attributeDecl` as written; the error is the exception the list
        constructor throws out of the callback. */
    method AttributeDecl(element: string, attribute: string, attType: Option<string>, mode: Option<string>, value: Option<string>)
      returns (r: Result<()>)
      modifies this
      ensures entities == old(entities)
      ensures Ignored(attribute, attType, mode) ==> r == Ok(()) && attlistDeclarations == old(attlistDeclarations)
      ensures !Ignored(attribute, attType, mode) ==>
        var added := AttributeAdded(old(attlistDeclarations), element, Declared(attribute, attType.value, mode.value, value));
        (added.Ok? ==> r == Ok(()) && attlistDeclarations == added.value) &&
        (added.Err? ==> r == Err(added.error) && attlistDeclarations == old(attlistDeclarations))
    {
      if HasColon(attribute) || StartsWith(attribute, "xml:") || mode.None? || attType.None? {
        return Ok(());
      }
      var i :- FindOrCreateAttlistDecl(element);
      var isFixed := mode.value == "#FIXED";
      var list := attlistDeclarations[i];
      attlistDeclarations := attlistDeclarations[i := list.(attributes := list.attributes + [Create(attribute, attType, value, isFixed)])];
      r := Ok(());
    }

    /** `findOrCreateAttlistDecl` as written, giving the position of the
        list (the Java code hands out the list object itself). */
    method FindOrCreateAttlistDecl(element: string) returns (r: Result<nat>)
      modifies this
      ensures entities == old(entities)
      ensures r.Ok? ==> Located(old(attlistDeclarations), element) == Ok((r.value, attlistDeclarations))
      ensures r.Err? ==> Located(old(attlistDeclarations), element) == Err(r.error)
      ensures r.Err? ==> attlistDeclarations == old(attlistDeclarations)
    {
      var i := SearchList(attlistDeclarations, element);
      if i < |attlistDeclarations| {
        return Ok(i);
      }
      var created :- NewList(attlistDeclarations, element);
      attlistDeclarations := created;
      r := Ok(i);
    }

    /** `attributeDecl` as intended. */
    method DeclareAttribute(element: string, attribute: string, attType: Option<string>, mode: Option<string>, value: Option<string>)
      modifies this
      ensures entities == old(entities)
      ensures attlistDeclarations == if Ignored(attribute, attType, mode) then old(attlistDeclarations)
        else WithAttribute(old(attlistDeclarations), element, Declared(attribute, attType.value, mode.value, value))
    {
      if HasColon(attribute) || StartsWith(attribute, "xml:") || mode.None? || attType.None? {
        return;
      }
      ghost var before := attlistDeclarations;
      var i := FindOrAddList(element);
      var isFixed := mode.value == "#FIXED";
      var list := attlistDeclarations[i];
      var a := Create(attribute, attType, value, isFixed);
      attlistDeclarations := attlistDeclarations[i := list.(attributes := list.attributes + [a])];
      if i == |before| {
        assert list.attributes + [a] == [a];
        assert attlistDeclarations == before + [AttlistDecl(element, [a])];
      }
    }

    /** `findOrCreateAttlistDecl` as intended. */
    method FindOrAddList(element: string) returns (i: nat)
      modifies this
      ensures entities == old(entities)
      ensures i == FindList(old(attlistDeclarations), element)
      ensures attlistDeclarations == if i < |old(attlistDeclarations)| then old(attlistDeclarations)
        else old(attlistDeclarations) + [AttlistDecl(element, [])]
    {
      i := SearchList(attlistDeclarations, element);
      if i == |attlistDeclarations| {
        attlistDeclarations := attlistDeclarations + [AttlistDecl(element, [])];
      }
    }
  }

  /** The search loop of `findOrCreateAttlistDecl`. */
  method SearchList(lists: seq<AttlistDecl>, element: string) returns (i: nat)
    ensures i == FindList(lists, element)
  {
    i := 0;
    while i < |lists|
      invariant i <= |lists|
      invariant forall k :: 0 <= k < i ==> lists[k].listName != element
    {
      if lists[i].listName == element {
        break;
      }
      i := i + 1;
    }
    FindListAt(lists, element, i);
  }

  /** The lists with the one built from `<!ATTLIST name>` appended, or the
      constructor's exception. */
  method NewList(lists: seq<AttlistDecl>, element: string) returns (r: Result<seq<AttlistDecl>>)
    requires FindList(lists, element) == |lists|
    ensures r.Ok? ==> Located(lists, element) == Ok((|lists|, r.value))
    ensures r.Err? ==> Located(lists, element) == Err(r.error)
  {
    LocatedNew(lists, element);
    var n := Parse("<!ATTLIST " + element + ">");
    if n.Err? {
      return Err(n.error);
    }
    r := Ok(lists + [n.value]);
  }

  /** The index where the search stops is `FindList`. */
  lemma {:induction false} FindListAt(lists: seq<AttlistDecl>, element: string, i: nat)
    requires i <= |lists|
    requires i < |lists| ==> lists[i].listName == element
    requires forall k :: 0 <= k < i ==> lists[k].listName != element
    ensures FindList(lists, element) == i
    decreases i
  {
    if i > 0 {
      FindListAt(lists[1..], element, i - 1);
    }
  }
}
