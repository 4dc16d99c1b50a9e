/** `<!ELEMENT>` declarations (production [45] elementdecl, section 3.2 of
    XML 1.0): the constructor's name scan, the slice of model text it hands
    to the content-model parser, and `toString`.

    The parser of content models and the text a model renders to are
    parameters: the first is a stub in the modelled code and the second is
    the inherited `Object.toString()`. */
module ElementDecls {
  import opened Wrappers
  import opened JavaStrings
  import opened XMLUtils
  import opened Scanning
  import opened ContentModels

  datatype ElementDecl = ElementDecl(name: string, model: ContentModel)

  /** The name: the first run without white space after `<!ELEMENT` and
      white space, read with an unguarded `charAt`, together with the index
      just past it. */
  function NameScan(d: string): (r: Result<(string, nat)>)
    ensures r.Ok? ==> |r.value.0| > 0 && NoXmlSpace(r.value.0)
    ensures r.Ok? ==> r.value.1 < |d| && IsXmlSpace(d[r.value.1])
    ensures r.Ok? ==> r.value.1 >= 9 + |r.value.0| && d[r.value.1 - |r.value.0|..r.value.1] == r.value.0
    ensures r.Err? ==> r.error == IndexOutOfBounds
  {
    var i1 :- FirstFrom(d, 9, NotXmlSpace);
    var i2 :- FirstFrom(d, i1, IsXmlSpace);
    RunWithoutSpace(d, i1, i2);
    Ok((d[i1..i2], i2))
  }

  /** `declaration.substring(i, declaration.lastIndexOf('>')).trim()`: the
      text the model is parsed from. */
  function ModelText(d: string, i: nat): (r: Result<string>)
    ensures r.Ok? <==> i <= LastIndexOf(d, '>')
    ensures r.Err? ==> r.error == IndexOutOfBounds
    ensures r.Ok? ==> |r.value| <= LastIndexOf(d, '>') - i
  {
    var rest :- Substring(d, i, LastIndexOf(d, '>'));
    Ok(Trim(rest))
  }

  /** `new ElementDecl(declaration)`, with `parse` for `ContentModel.parse`. */
  function ElementDeclOf(d: string, parse: string -> ContentModel): (r: Result<ElementDecl>)
    ensures r.Ok? ==> |r.value.name| > 0 && NoXmlSpace(r.value.name)
    ensures r.Err? ==> r.error == IndexOutOfBounds
  {
    var scanned :- NameScan(d);
    var text :- ModelText(d, scanned.1);
    Ok(ElementDecl(scanned.0, parse(text)))
  }

  /** The constructor: two cursor loops for the name, then the model slice. */
  method Parse(declaration: string, parse: string -> ContentModel) returns (r: Result<ElementDecl>)
    ensures r == ElementDeclOf(declaration, parse)
  {
    var i :- ScanTo(declaration, 9, NotXmlSpace);
    var start := i;
    i :- ScanTo(declaration, i, IsXmlSpace);
    var name := declaration[start..i];
    var rest :- Substring(declaration, i, LastIndexOf(declaration, '>'));
    return Ok(ElementDecl(name, parse(Trim(rest))));
  }

  /** `toString()`, with `show` for the model's own rendering. */
  function Text(e: ElementDecl, show: ContentModel -> string): string {
    "<!ELEMENT " + e.name + " " + show(e.model) + ">"
  }

  // ---------------------------------------------------------------------
  // Round trip and error paths

  /** The constructor reads back the name `toString` wrote and hands the
      model's rendering, trimmed, to the model parser. */
  lemma ParseText(e: ElementDecl, show: ContentModel -> string, parse: string -> ContentModel)
    requires |e.name| > 0 && NoXmlSpace(e.name)
    ensures ElementDeclOf(Text(e, show), parse) == Ok(ElementDecl(e.name, parse(Trim(show(e.model)))))
  {
    var d := Text(e, show);
    var m := show(e.model);
    var rest := " " + m + ">";
    assert d[9..] == " " + e.name + rest;
    TokenAfterSpace(d, 9, e.name, rest);
    assert NameScan(d) == Ok((e.name, 10 + |e.name|));
    assert d[10 + |e.name|..|d| - 1] == " " + m;
    assert (" " + m)[1..] == m;
    assert ModelText(d, 10 + |e.name|) == Ok(Trim(m));
  }

  /** A model parser that recovers every model from its trimmed rendering
      makes the round trip exact. */
  lemma RoundTrip(e: ElementDecl, show: ContentModel -> string, parse: string -> ContentModel)
    requires |e.name| > 0 && NoXmlSpace(e.name)
    requires parse(Trim(show(e.model))) == e.model
    ensures ElementDeclOf(Text(e, show), parse) == Ok(e)
  {
    ParseText(e, show, parse);
  }

  /** A name directly followed by `>` leaves the unguarded name scan no
      white space to stop at. */
  lemma ElementWithoutSpace(n: string, parse: string -> ContentModel)
    requires NoXmlSpace(n)
    ensures ElementDeclOf("<!ELEMENT " + n + ">", parse) == Err(IndexOutOfBounds)
  {
    var d := "<!ELEMENT " + n + ">";
    assert d[8] == 'T' && d[9] == ' ';
    if n == [] {
      assert d[10] == '>';
    } else {
      assert d[10] == n[0] && n[0] in n;
    }
    FirstFromAt(d, 9, 10, NotXmlSpace);
    forall k | 10 <= k < |d| ensures !IsXmlSpace(d[k]) {
      if k < 10 + |n| {
        assert d[k] == n[k - 10] && n[k - 10] in n;
      }
    }
    FirstFromNone(d, 10, IsXmlSpace);
  }
}
