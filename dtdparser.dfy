/** `DTDParser.parse`: a cursor loop over the text of a DTD that dispatches
    on the prefix at the cursor and fills four name-to-declaration tables.
    Entities and notations keep the first declaration of a name, elements
    and attribute lists the last.  Parameter-entity references (section 4.1
    of XML 1.0) pull in the module they name; conditional sections
    (section 3.4) are included or skipped by keyword.

    The filesystem is a map from absolute path to the text `readFile`
    returns; `locate(file, module)` is the absolute path of `module` next to
    `file`.  Each nested module parse takes one unit of `fuel`. */
module DTDParsing {
  import opened Wrappers
  import opened JavaStrings
  import opened XMLUtils
  import opened DTDScanning
  import opened ContentModels
  import opened ElementDecls
  import AttlistDecls
  import opened EntityDecls
  import opened NotationDecls
  import opened Grammars

  datatype Env = Env(files: map<string, string>, locate: (string, string) -> string, parseModel: string -> ContentModel)

  /** The parser's four maps. */
  datatype Tables = Tables(
    elements: map<string, ElementDecl>,
    attlists: map<string, AttlistDecls.AttlistDecl>,
    entities: map<string, EntityDecl>,
    notations: map<string, NotationDecl>)

  /** The tables after one iteration, and the new cursor. */
  datatype State = State(tables: Tables, pointer: nat)

  /** What a parse can do to tables it starts from: entities and notations
      already present stay as they are, element and attribute-list names
      stay declared (their declarations may be replaced). */
  predicate Extends(t: Tables, u: Tables) {
    && t.entities.Items <= u.entities.Items
    && t.notations.Items <= u.notations.Items
    && t.elements.Keys <= u.elements.Keys
    && t.attlists.Keys <= u.attlists.Keys
  }

  /** `parse(file)` on tables `t`: the file is read, then scanned. */
  function ParseFile(env: Env, t: Tables, file: string, fuel: nat): (r: Result<Tables>)
    ensures r.Ok? ==> Extends(t, r.value)
    decreases fuel, 6
  {
    if file !in env.files then Err(IOError)
    else Scan(env, t, file, env.files[file], 0, fuel)
  }

  /** A nested `parse(mod)`. */
  function Module(env: Env, t: Tables, file: string, fuel: nat): (r: Result<Tables>)
    ensures r.Ok? ==> Extends(t, r.value)
    decreases fuel, 0
  {
    if fuel == 0 then Err(Nontermination) else ParseFile(env, t, file, fuel - 1)
  }

  /** `while (pointer < source.length()) { ... }` */
  function Scan(env: Env, t: Tables, file: string, source: string, pointer: nat, fuel: nat): (r: Result<Tables>)
    requires pointer <= |source|
    ensures r.Ok? ==> Extends(t, r.value)
    decreases fuel, 5, |source| - pointer
  {
    if pointer == |source| then Ok(t)
    else
      var s :- Step(env, t, file, source, pointer, fuel);
      Scan(env, s.tables, file, source, s.pointer, fuel)
  }

  /** One iteration: a parameter-entity reference is handled first and the
      iteration goes on at the new cursor. */
  function Step(env: Env, t: Tables, file: string, source: string, pointer: nat, fuel: nat): (r: Result<State>)
    requires pointer < |source|
    ensures r.Ok? ==> pointer < r.value.pointer <= |source| && Extends(t, r.value.tables)
    decreases fuel, 4
  {
    var s :- PercentStep(env, t, file, source, pointer, fuel);
    Dispatch(env, s, file, source, fuel)
  }

  /** A `%name;` at the cursor: the entity must be declared and have a
      value that is not blank; the module it names is parsed when it exists.
      The cursor moves past the `;`. */
  function PercentStep(env: Env, t: Tables, file: string, source: string, pointer: nat, fuel: nat): (r: Result<State>)
    requires pointer <= |source|
    ensures r.Ok? ==> Extends(t, r.value.tables) && r.value.pointer <= |source|
    ensures r.Ok? ==> if OccursAt(source, "%", pointer) then pointer < r.value.pointer else r.value == State(t, pointer)
    decreases fuel, 2
  {
    if !OccursAt(source, "%", pointer) then Ok(State(t, pointer))
    else
      var index := IndexOfFrom(source, ";", pointer);
      if index == -1 then Err(SyntaxError)
      else
        OccursAtChar(source, '%', pointer);
        OccursAtChar(source, ';', index);
        var name := source[pointer + 1..index];
        if name !in t.entities then Err(SyntaxError)
        else
          var moduleName := t.entities[name].value;
          if IsBlank(moduleName) then Err(IOError)
          else
            var path := env.locate(file, moduleName);
            var u :- if path in env.files then Module(env, t, path, fuel) else Ok(t);
            Ok(State(u, index + 1))
  }

  /** What the cursor is looking at, checked in the source's order. */
  datatype Markup = ElementMarkup | AttlistMarkup | EntityMarkup | NotationMarkup | PIMarkup | CommentMarkup | OtherMarkup

  function MarkupAt(source: string, p: nat): Markup {
    if OccursAt(source, "<!ELEMENT", p) then ElementMarkup
    else if OccursAt(source, "<!ATTLIST", p) then AttlistMarkup
    else if OccursAt(source, "<!ENTITY", p) then EntityMarkup
    else if OccursAt(source, "<!NOTATION", p) then NotationMarkup
    else if OccursAt(source, "<?", p) then PIMarkup
    else if OccursAt(source, "<!--", p) then CommentMarkup
    else OtherMarkup
  }

  /** The declaration, comment, processing-instruction and section tests
      at the cursor, then the white-space test. */
  function Dispatch(env: Env, s: State, file: string, source: string, fuel: nat): (r: Result<State>)
    requires s.pointer <= |source|
    ensures r.Ok? ==> s.pointer <= r.value.pointer <= |source| && Extends(s.tables, r.value.tables)
    ensures r.Ok? && s.pointer < |source| ==> s.pointer < r.value.pointer
    decreases fuel, 3
  {
    var t := s.tables;
    var p := s.pointer;
    match MarkupAt(source, p)
    case ElementMarkup => ElementStep(env, t, source, p, fuel)
    case AttlistMarkup => AttlistStep(t, source, p)
    case EntityMarkup => EntityStep(env, t, file, source, p, fuel)
    case NotationMarkup => NotationStep(t, source, p)
    case PIMarkup => SkipPast(t, source, p, "?>")
    case CommentMarkup => SkipPast(t, source, p, "-->")
    case OtherMarkup => Tail(t, source, p, fuel)
  }

  /** A `]]>` at the cursor is stepped over; then a conditional section,
      and the white-space test unless the section was ignored. */
  function Tail(t: Tables, source: string, p: nat, fuel: nat): (r: Result<State>)
    requires p <= |source|
    ensures r.Ok? ==> r.value.tables == t && p <= r.value.pointer <= |source|
    ensures r.Ok? && p < |source| ==> p < r.value.pointer
  {
    var p2 := if OccursAt(source, SectionClose, p) then p + 3 else p;
    if OccursAt(source, SectionOpen, p2) then
      var c :- SectionStep(t.entities, source, p2, fuel);
      if c.1 then Ok(State(t, c.0)) else Blank(t, source, c.0)
    else Blank(t, source, p2)
  }

  /** The declaration text: from the cursor through the next `>`. */
  function DeclarationEnd(source: string, pointer: nat): (r: Result<nat>)
    ensures r.Ok? ==> pointer < r.value <= |source| && source[r.value - 1] == '>'
    ensures r.Err? ==> r.error == SyntaxError
  {
    var index := IndexOfFrom(source, ">", pointer);
    if index == -1 then Err(SyntaxError)
    else
      OccursAtChar(source, '>', index);
      Ok(index + 1)
  }

  /** `<!ELEMENT`: parameter entities in the text are expanded first; the
      declaration replaces any earlier one of the same name. */
  function ElementStep(env: Env, t: Tables, source: string, pointer: nat, fuel: nat): (r: Result<State>)
    ensures r.Ok? ==> pointer < r.value.pointer <= |source|
    ensures r.Ok? ==> r.value.tables.(elements := t.elements) == t
    ensures r.Ok? ==> t.elements.Keys <= r.value.tables.elements.Keys
  {
    var e :- DeclarationEnd(source, pointer);
    var replaced :- Expand(source[pointer..e], t.entities, fuel);
    var decl :- ElementDeclOf(replaced, env.parseModel);
    Ok(State(t.(elements := t.elements[decl.name := decl]), e))
  }

  /** `<!ATTLIST`: the list replaces any earlier one for the same element. */
  function AttlistStep(t: Tables, source: string, pointer: nat): (r: Result<State>)
    ensures r.Ok? ==> pointer < r.value.pointer <= |source|
    ensures r.Ok? ==> r.value.tables.(attlists := t.attlists) == t
    ensures r.Ok? ==> t.attlists.Keys <= r.value.tables.attlists.Keys
  {
    var e :- DeclarationEnd(source, pointer);
    var decl :- AttlistDecls.AttlistDeclOf(source[pointer..e]);
    Ok(State(t.(attlists := t.attlists[decl.listName := decl]), e))
  }

  /** The entity table keeps the first declaration of a name. */
  function Register(t: Tables, e: EntityDecl): (r: Tables)
    ensures Extends(t, r) && r.(entities := t.entities) == t
    ensures e.name in r.entities
    ensures e.name in t.entities ==> r == t
    ensures e.name !in t.entities ==> r.entities == t.entities[e.name := e]
  {
    if e.name in t.entities then t else t.(entities := t.entities[e.name := e])
  }

  /** `<!ENTITY`: for a SYSTEM entity the value must not be blank, and an
      existing module is parsed first, with the entity's system identifier
      set to its path.  The tables the module parse returns are the parser's
      own, so merging them back changes nothing. */
  function EntityStep(env: Env, t: Tables, file: string, source: string, pointer: nat, fuel: nat): (r: Result<State>)
    ensures r.Ok? ==> pointer < r.value.pointer <= |source| && Extends(t, r.value.tables)
    decreases fuel, 2
  {
    var e :- DeclarationEnd(source, pointer);
    var decl :- EntityDeclOf(source[pointer..e]);
    EntityAdd(env, t, file, decl, e, fuel)
  }

  /** The declared entity is registered, after its module for SYSTEM. */
  function EntityAdd(env: Env, t: Tables, file: string, decl: EntityDecl, e: nat, fuel: nat): (r: Result<State>)
    ensures r.Ok? ==> r.value.pointer == e && Extends(t, r.value.tables)
    decreases fuel, 1
  {
    if !decl.kind.System? then Ok(State(Register(t, decl), e))
    else if IsBlank(decl.value) then Err(IOError)
    else
      var path := env.locate(file, decl.value);
      if path !in env.files then Ok(State(Register(t, decl), e))
      else
        var u :- Module(env, t, path, fuel);
        Ok(State(Register(u, SetSystemId(decl, path)), e))
  }

  /** `<!NOTATION`: the first declaration of a name is kept. */
  function NotationStep(t: Tables, source: string, pointer: nat): (r: Result<State>)
    ensures r.Ok? ==> pointer < r.value.pointer <= |source| && Extends(t, r.value.tables)
    ensures r.Ok? ==> r.value.tables.(notations := t.notations) == t
  {
    var e :- DeclarationEnd(source, pointer);
    var decl :- NotationDeclOf(source[pointer..e]);
    if decl.name in t.notations then Ok(State(t, e))
    else Ok(State(t.(notations := t.notations[decl.name := decl]), e))
  }

  /** A processing instruction or a comment is skipped through its closing
      delimiter; no table changes. */
  function SkipPast(t: Tables, source: string, pointer: nat, close: string): (r: Result<State>)
    requires |close| > 0
    ensures r.Ok? ==> r.value.tables == t && pointer < r.value.pointer <= |source|
    ensures r.Ok? ==> OccursAt(source, close, r.value.pointer - |close|)
    ensures r.Err? <==> IndexOfFrom(source, close, pointer) == -1
    ensures r.Err? ==> r.error == SyntaxError
  {
    var index := IndexOfFrom(source, close, pointer);
    if index == -1 then Err(SyntaxError) else Ok(State(t, index + |close|))
  }

  /** A conditional section at `pointer`: the new cursor, and whether the
      iteration ends there (IGNORE) or goes on to the white-space test
      (INCLUDE, which moves only past the first `[`). */
  function SectionStep(entities: map<string, EntityDecl>, source: string, pointer: nat, fuel: nat): (r: Result<(nat, bool)>)
    requires OccursAt(source, SectionOpen, pointer)
    ensures r.Ok? ==> pointer < r.value.0 <= |source|
  {
    var section :- SectionFrom(source, pointer, IndexOfFrom(source, SectionClose, pointer));
    SectionKind(entities, source, pointer, section, fuel)
  }

  /** The keyword of the section decides. */
  function SectionKind(entities: map<string, EntityDecl>, source: string, pointer: nat, section: string, fuel: nat): (r: Result<(nat, bool)>)
    requires OccursAt(source, SectionOpen, pointer) && pointer + |section| <= |source|
    ensures r.Ok? ==> pointer < r.value.0 <= |source|
    ensures r.Ok? && r.value.1 ==> r.value.0 == pointer + |section|
  {
    var keyword :- SectionType(section, entities, fuel);
    if keyword == "INCLUDE" then
      var start := IndexOfFrom(source, "[", pointer + 3);
      if start == -1 then Err(SyntaxError) else Ok((start + 1, false))
    else if keyword == "IGNORE" then
      assert |section| > 3 by {
        if |section| <= 3 {
          ShortSectionType(section, entities, fuel);
        }
      }
      Ok((pointer + |section|, true))
    else Err(SyntaxError)
  }

  /** The end of an iteration: white space is skipped; anything else is
      fatal.  Before throwing its syntax error the source logs the twenty
      characters on either side of the cursor, and those substrings fail
      first near either end of the text. */
  function Blank(t: Tables, source: string, pointer: nat): (r: Result<State>)
    requires pointer <= |source|
    ensures r.Ok? ==> r.value.tables == t
    ensures r.Ok? <==> pointer == |source| || IsXmlSpace(source[pointer])
    ensures r.Ok? ==> r.value.pointer == if pointer < |source| then pointer + 1 else pointer
  {
    if pointer == |source| then Ok(State(t, pointer))
    else if IsXmlSpace(source[pointer]) then Ok(State(t, pointer + 1))
    else if pointer < 20 || pointer + 20 > |source| then Err(IndexOutOfBounds)
    else Err(SyntaxError)
  }

  // ---------------------------------------------------------------------
  // Properties of one iteration

  /** Two prefixes that differ at `i` cannot both be at the cursor. */
  lemma Exclusive(source: string, p: nat, x: string, y: string, i: nat)
    requires OccursAt(source, x, p) && i < |x| && i < |y| && x[i] != y[i]
    ensures !OccursAt(source, y, p)
  {
    assert source[p + i] == source[p..p + |x|][i] == x[i];
  }

  /** Each markup prefix is told apart from the ones checked before it. */
  lemma Classified(source: string, p: nat)
    ensures OccursAt(source, "<!ATTLIST", p) ==> MarkupAt(source, p) == AttlistMarkup
    ensures OccursAt(source, "<!ENTITY", p) ==> MarkupAt(source, p) == EntityMarkup
    ensures OccursAt(source, "<!NOTATION", p) ==> MarkupAt(source, p) == NotationMarkup
    ensures OccursAt(source, "<?", p) ==> MarkupAt(source, p) == PIMarkup
    ensures OccursAt(source, "<!--", p) ==> MarkupAt(source, p) == CommentMarkup
    ensures OccursAt(source, SectionOpen, p) ==> MarkupAt(source, p) == OtherMarkup && !OccursAt(source, SectionClose, p)
  {
    if OccursAt(source, "<!ATTLIST", p) {
      Exclusive(source, p, "<!ATTLIST", "<!ELEMENT", 2);
    }
    if OccursAt(source, "<!ENTITY", p) {
      Exclusive(source, p, "<!ENTITY", "<!ELEMENT", 3);
      Exclusive(source, p, "<!ENTITY", "<!ATTLIST", 2);
    }
    if OccursAt(source, "<!NOTATION", p) {
      Exclusive(source, p, "<!NOTATION", "<!ELEMENT", 2);
      Exclusive(source, p, "<!NOTATION", "<!ATTLIST", 2);
      Exclusive(source, p, "<!NOTATION", "<!ENTITY", 2);
    }
    if OccursAt(source, "<?", p) {
      Exclusive(source, p, "<?", "<!ELEMENT", 1);
      Exclusive(source, p, "<?", "<!ATTLIST", 1);
      Exclusive(source, p, "<?", "<!ENTITY", 1);
      Exclusive(source, p, "<?", "<!NOTATION", 1);
    }
    if OccursAt(source, "<!--", p) {
      Exclusive(source, p, "<!--", "<!ELEMENT", 2);
      Exclusive(source, p, "<!--", "<!ATTLIST", 2);
      Exclusive(source, p, "<!--", "<!ENTITY", 2);
      Exclusive(source, p, "<!--", "<!NOTATION", 2);
      Exclusive(source, p, "<!--", "<?", 1);
    }
    if OccursAt(source, SectionOpen, p) {
      Exclusive(source, p, SectionOpen, "<!ELEMENT", 2);
      Exclusive(source, p, SectionOpen, "<!ATTLIST", 2);
      Exclusive(source, p, SectionOpen, "<!ENTITY", 2);
      Exclusive(source, p, SectionOpen, "<!NOTATION", 2);
      Exclusive(source, p, SectionOpen, "<?", 1);
      Exclusive(source, p, SectionOpen, "<!--", 2);
      Exclusive(source, p, SectionOpen, SectionClose, 0);
    }
  }

  /** A cursor on `<` is no parameter-entity reference: the iteration goes
      straight to the markup tests. */
  lemma AtMarkup(env: Env, t: Tables, file: string, source: string, p: nat, x: string, fuel: nat)
    requires OccursAt(source, x, p) && |x| > 0 && x[0] == '<'
    ensures p < |source| && Step(env, t, file, source, p, fuel) == Dispatch(env, State(t, p), file, source, fuel)
  {
    Exclusive(source, p, x, "%", 0);
    assert PercentStep(env, t, file, source, p, fuel) == Ok(State(t, p));
  }

  /** A repeated `<!ELEMENT` replaces the earlier declaration of its name
      (last seen wins). */
  lemma ElementLastSeenWins(env: Env, t: Tables, file: string, source: string, p: nat, fuel: nat, e: nat, x: string, d: ElementDecl)
    requires OccursAt(source, "<!ELEMENT", p)
    requires DeclarationEnd(source, p) == Ok(e)
    requires Expand(source[p..e], t.entities, fuel) == Ok(x) && ElementDeclOf(x, env.parseModel) == Ok(d)
    ensures Step(env, t, file, source, p, fuel) == Ok(State(t.(elements := t.elements[d.name := d]), e))
  {
    AtMarkup(env, t, file, source, p, "<!ELEMENT", fuel);
  }

  /** A repeated `<!ATTLIST` replaces the earlier list of its element. */
  lemma AttlistLastSeenWins(env: Env, t: Tables, file: string, source: string, p: nat, fuel: nat, e: nat, d: AttlistDecls.AttlistDecl)
    requires OccursAt(source, "<!ATTLIST", p)
    requires DeclarationEnd(source, p) == Ok(e) && AttlistDecls.AttlistDeclOf(source[p..e]) == Ok(d)
    ensures Step(env, t, file, source, p, fuel) == Ok(State(t.(attlists := t.attlists[d.listName := d]), e))
  {
    AtMarkup(env, t, file, source, p, "<!ATTLIST", fuel);
    Classified(source, p);
  }

  /** At `<!ENTITY` the iteration reads an entity declaration. */
  lemma EntityAt(env: Env, t: Tables, file: string, source: string, p: nat, fuel: nat)
    requires OccursAt(source, "<!ENTITY", p)
    ensures p < |source| && Step(env, t, file, source, p, fuel) == EntityStep(env, t, file, source, p, fuel)
  {
    AtMarkup(env, t, file, source, p, "<!ENTITY", fuel);
    Classified(source, p);
  }

  /** A second `<!ENTITY` of a declared name that is not SYSTEM changes
      nothing (first seen wins); the cursor moves past it. */
  lemma EntityFirstSeenWins(env: Env, t: Tables, file: string, source: string, p: nat, fuel: nat, e: nat, d: EntityDecl)
    requires OccursAt(source, "<!ENTITY", p)
    requires DeclarationEnd(source, p) == Ok(e) && EntityDeclOf(source[p..e]) == Ok(d)
    requires d.name in t.entities && !d.kind.System?
    ensures Step(env, t, file, source, p, fuel) == Ok(State(t, e))
  {
    EntityAt(env, t, file, source, p, fuel);
    assert EntityStep(env, t, file, source, p, fuel) == EntityAdd(env, t, file, d, e, fuel);
  }

  /** A SYSTEM entity whose value is blank is an I/O error. */
  lemma SystemEntityBlank(env: Env, t: Tables, file: string, source: string, p: nat, fuel: nat, e: nat, d: EntityDecl)
    requires OccursAt(source, "<!ENTITY", p)
    requires DeclarationEnd(source, p) == Ok(e) && EntityDeclOf(source[p..e]) == Ok(d)
    requires d.kind.System? && IsBlank(d.value)
    ensures Step(env, t, file, source, p, fuel) == Err(IOError)
  {
    EntityAt(env, t, file, source, p, fuel);
    assert EntityStep(env, t, file, source, p, fuel) == EntityAdd(env, t, file, d, e, fuel);
  }

  /** A second `<!NOTATION` of a declared name changes nothing. */
  lemma NotationFirstSeenWins(env: Env, t: Tables, file: string, source: string, p: nat, fuel: nat, e: nat, d: NotationDecl)
    requires OccursAt(source, "<!NOTATION", p)
    requires DeclarationEnd(source, p) == Ok(e) && NotationDeclOf(source[p..e]) == Ok(d)
    requires d.name in t.notations
    ensures Step(env, t, file, source, p, fuel) == Ok(State(t, e))
  {
    AtMarkup(env, t, file, source, p, "<!NOTATION", fuel);
    Classified(source, p);
  }

  /** A comment is skipped through its `-->` and changes no table. */
  lemma CommentSkipped(env: Env, t: Tables, file: string, source: string, p: nat, fuel: nat)
    requires OccursAt(source, "<!--", p)
    ensures Step(env, t, file, source, p, fuel) == SkipPast(t, source, p, "-->")
    ensures Step(env, t, file, source, p, fuel).Ok? ==> Step(env, t, file, source, p, fuel).value.tables == t
  {
    AtMarkup(env, t, file, source, p, "<!--", fuel);
    Classified(source, p);
  }

  /** A processing instruction is skipped through its `?>` and changes no table. */
  lemma ProcessingInstructionSkipped(env: Env, t: Tables, file: string, source: string, p: nat, fuel: nat)
    requires OccursAt(source, "<?", p)
    ensures Step(env, t, file, source, p, fuel) == SkipPast(t, source, p, "?>")
    ensures Step(env, t, file, source, p, fuel).Ok? ==> Step(env, t, file, source, p, fuel).value.tables == t
  {
    AtMarkup(env, t, file, source, p, "<?", fuel);
    Classified(source, p);
  }

  /** A cursor on a character that starts no markup goes to the
      white-space test. */
  lemma PlainCharacter(env: Env, t: Tables, file: string, source: string, p: nat, fuel: nat)
    requires p < |source| && source[p] != '%' && source[p] != '<' && source[p] != ']'
    ensures Step(env, t, file, source, p, fuel) == Blank(t, source, p)
  {
    var c := source[p];
    forall x: string | |x| > 0 && x[0] != c ensures !OccursAt(source, x, p) {
      assert x[0] != c;
    }
    assert !OccursAt(source, "%", p);
    assert PercentStep(env, t, file, source, p, fuel) == Ok(State(t, p));
    assert !OccursAt(source, "<!ELEMENT", p) && !OccursAt(source, "<!ATTLIST", p) && !OccursAt(source, "<!ENTITY", p);
    assert !OccursAt(source, "<!NOTATION", p) && !OccursAt(source, "<?", p) && !OccursAt(source, "<!--", p);
    assert MarkupAt(source, p) == OtherMarkup;
    assert !OccursAt(source, SectionClose, p) && !OccursAt(source, SectionOpen, p);
  }

  /** A character that starts none of the recognised constructs and is not
      white space is fatal. */
  lemma StrayCharacterFatal(env: Env, t: Tables, file: string, source: string, p: nat, fuel: nat)
    requires p < |source| && source[p] != '%' && source[p] != '<' && source[p] != ']' && !IsXmlSpace(source[p])
    ensures Step(env, t, file, source, p, fuel).Err?
  {
    PlainCharacter(env, t, file, source, p, fuel);
  }

  /** `%name;` at the cursor: an undeclared name is a syntax error, a blank
      value an I/O error, and otherwise the cursor moves by `|name| + 2`. */
  lemma ParameterReferenceStep(env: Env, t: Tables, file: string, source: string, p: nat, name: string, fuel: nat)
    requires OccursAt(source, "%" + name + ";", p) && ';' !in name
    ensures name !in t.entities ==> PercentStep(env, t, file, source, p, fuel) == Err(SyntaxError)
    ensures name in t.entities && IsBlank(t.entities[name].value) ==> PercentStep(env, t, file, source, p, fuel) == Err(IOError)
    ensures PercentStep(env, t, file, source, p, fuel).Ok? ==> PercentStep(env, t, file, source, p, fuel).value.pointer == p + |name| + 2
  {
    var e := p + |name| + 1;
    ReferenceShape(source, p, name);
    IndexOfFromCharAt(source, ';', p, e);
    OccursAtChar(source, '%', p);
  }

  /** The parts of a `%name;` reference at `p`. */
  lemma ReferenceShape(source: string, p: nat, name: string)
    requires OccursAt(source, "%" + name + ";", p) && ';' !in name
    ensures p + |name| + 1 < |source|
    ensures source[p] == '%' && source[p + |name| + 1] == ';' && source[p + 1..p + |name| + 1] == name
    ensures forall j :: p <= j < p + |name| + 1 ==> source[j] != ';'
  {
    var w := "%" + name + ";";
    var e := p + |name| + 1;
    var u := source[p..p + |w|];
    assert u == w;
    assert source[p] == u[0] == w[0];
    assert source[e] == u[|name| + 1] == w[|name| + 1];
    assert source[p + 1..e] == name by {
      forall k | 0 <= k < |name| ensures source[p + 1..e][k] == name[k] {
        assert source[p + 1 + k] == u[1 + k] == w[1 + k] == name[k];
      }
    }
    forall j | p <= j < e ensures source[j] != ';' {
      if j > p {
        assert source[j] == u[j - p] == w[j - p] == name[j - p - 1];
      }
    }
  }

  /** A `%` with no `;` after it is a syntax error. */
  lemma ParameterReferenceUnterminated(env: Env, t: Tables, file: string, source: string, p: nat, fuel: nat)
    requires p < |source| && source[p] == '%'
    requires forall j :: p <= j < |source| ==> source[j] != ';'
    ensures Step(env, t, file, source, p, fuel) == Err(SyntaxError)
  {
    OccursAtChar(source, '%', p);
    IndexOfFromCharNone(source, ';', p);
  }

  /** At `<![` the iteration goes straight to the section test. */
  lemma SectionTest(env: Env, t: Tables, file: string, source: string, p: nat, fuel: nat)
    requires OccursAt(source, SectionOpen, p)
    ensures var c := SectionStep(t.entities, source, p, fuel);
      Step(env, t, file, source, p, fuel) == if c.Err? then Err(c.error) else if c.value.1 then Ok(State(t, c.value.0)) else Blank(t, source, c.value.0)
  {
    AtMarkup(env, t, file, source, p, SectionOpen, fuel);
    Classified(source, p);
    OtherDispatch(env, State(t, p), file, source, fuel);
    SectionTail(t, source, p, fuel);
  }

  lemma OtherDispatch(env: Env, s: State, file: string, source: string, fuel: nat)
    requires s.pointer <= |source| && MarkupAt(source, s.pointer) == OtherMarkup
    ensures Dispatch(env, s, file, source, fuel) == Tail(s.tables, source, s.pointer, fuel)
  {
  }

  lemma SectionTail(t: Tables, source: string, p: nat, fuel: nat)
    requires OccursAt(source, SectionOpen, p) && !OccursAt(source, SectionClose, p)
    ensures var c := SectionStep(t.entities, source, p, fuel);
      Tail(t, source, p, fuel) == if c.Err? then Err(c.error) else if c.value.1 then Ok(State(t, c.value.0)) else Blank(t, source, c.value.0)
  {
  }

  /** An IGNORE section extends through the `]]>` that balances its `<![`. */
  lemma IgnoreKeyword(entities: map<string, EntityDecl>, source: string, p: nat, fuel: nat, section: string)
    requires OccursAt(source, SectionOpen, p)
    requires SectionFrom(source, p, IndexOfFrom(source, SectionClose, p)) == Ok(section)
    requires SectionType(section, entities, fuel) == Ok("IGNORE")
    ensures SectionStep(entities, source, p, fuel) == Ok((p + |section|, true))
    ensures CountAt(section, SectionOpen, 0) == CountAt(section, SectionClose, 0)
  {
    assert SectionStep(entities, source, p, fuel) == SectionKind(entities, source, p, section, fuel);
  }

  /** An INCLUDE section moves the cursor just past the first `[` after
      `<![`, so the declarations inside are read as if there were no
      section. */
  lemma IncludeKeyword(entities: map<string, EntityDecl>, source: string, p: nat, fuel: nat, section: string)
    requires OccursAt(source, SectionOpen, p)
    requires SectionFrom(source, p, IndexOfFrom(source, SectionClose, p)) == Ok(section)
    requires SectionType(section, entities, fuel) == Ok("INCLUDE")
    ensures IndexOfFrom(source, "[", p + 3) == -1 ==> SectionStep(entities, source, p, fuel) == Err(SyntaxError)
    ensures IndexOfFrom(source, "[", p + 3) >= 0 ==> SectionStep(entities, source, p, fuel) == Ok((IndexOfFrom(source, "[", p + 3) + 1, false))
  {
    assert SectionStep(entities, source, p, fuel) == SectionKind(entities, source, p, section, fuel);
    IncludeKind(entities, source, p, fuel, section);
  }

  lemma IncludeKind(entities: map<string, EntityDecl>, source: string, p: nat, fuel: nat, section: string)
    requires OccursAt(source, SectionOpen, p) && p + |section| <= |source|
    requires SectionType(section, entities, fuel) == Ok("INCLUDE")
    ensures var start := IndexOfFrom(source, "[", p + 3);
      SectionKind(entities, source, p, section, fuel) == if start == -1 then Err(SyntaxError) else Ok((start + 1, false))
  {
  }

  /** Any other keyword is a syntax error. */
  lemma UnknownKeyword(entities: map<string, EntityDecl>, source: string, p: nat, fuel: nat, section: string, keyword: string)
    requires OccursAt(source, SectionOpen, p)
    requires SectionFrom(source, p, IndexOfFrom(source, SectionClose, p)) == Ok(section)
    requires SectionType(section, entities, fuel) == Ok(keyword) && keyword != "INCLUDE" && keyword != "IGNORE"
    ensures SectionStep(entities, source, p, fuel) == Err(SyntaxError)
  {
    assert SectionStep(entities, source, p, fuel) == SectionKind(entities, source, p, section, fuel);
  }

  /** An ignored section is skipped whole and no table changes; after an
      included one the white-space test follows at the new cursor. */
  lemma SectionSkipped(env: Env, t: Tables, file: string, source: string, p: nat, fuel: nat, q: nat, ignore: bool)
    requires OccursAt(source, SectionOpen, p)
    requires SectionStep(t.entities, source, p, fuel) == Ok((q, ignore))
    ensures ignore ==> Step(env, t, file, source, p, fuel) == Ok(State(t, q))
    ensures !ignore ==> Step(env, t, file, source, p, fuel) == Blank(t, source, q)
  {
    SectionTest(env, t, file, source, p, fuel);
  }

  /** A file of white space declares nothing. */
  lemma {:induction false} BlankSource(env: Env, t: Tables, file: string, source: string, p: nat, fuel: nat)
    requires p <= |source| && forall j :: p <= j < |source| ==> IsXmlSpace(source[j])
    ensures Scan(env, t, file, source, p, fuel) == Ok(t)
    decreases |source| - p
  {
    if p < |source| {
      PlainCharacter(env, t, file, source, p, fuel);
      BlankSource(env, t, file, source, p + 1, fuel);
    }
  }

  /** The parser object: its four maps, and the environment it reads. */
  class DTDParser {
    const env: Env
    var elementDeclMap: map<string, ElementDecl>
    var attributeListMap: map<string, AttlistDecls.AttlistDecl>
    var entitiesMap: map<string, EntityDecl>
    var notationsMap: map<string, NotationDecl>

    function Contents(): Tables
      reads this
    {
      Tables(elementDeclMap, attributeListMap, entitiesMap, notationsMap)
    }

    /** The method's outcome is the specification's: the same cursor and
        these tables, or the same error. */
    predicate Agrees(spec: Result<State>, r: Result<nat>)
      reads this
    {
      if spec.Ok? then r == Ok(spec.value.pointer) && Contents() == spec.value.tables
      else r == Err(spec.error)
    }

    /** `new DTDParser()`: four empty maps. */
    constructor (env: Env)
      ensures this.env == env && Contents() == Tables(map[], map[], map[], map[])
    {
      this.env := env;
      elementDeclMap := map[];
      attributeListMap := map[];
      entitiesMap := map[];
      notationsMap := map[];
    }

    /** `parse(file)`: on success the maps hold the tables the specification
        computes and the returned Grammar wraps them. */
    method Parse(file: string, fuel: nat) returns (r: Result<Grammar>)
      modifies this
      ensures r.Ok? <==> ParseFile(env, old(Contents()), file, fuel).Ok?
      ensures r.Ok? ==> Contents() == ParseFile(env, old(Contents()), file, fuel).value
      ensures r.Err? ==> r.error == ParseFile(env, old(Contents()), file, fuel).error
      ensures r.Ok? ==> fresh(r.value)
      ensures r.Ok? ==> r.value.elementDeclMap == elementDeclMap && r.value.attributeListMap == attributeListMap
      ensures r.Ok? ==> r.value.entitiesMap == entitiesMap && r.value.notationsMap == notationsMap
      decreases fuel, 6
    {
      if file !in env.files {
        return Err(IOError);
      }
      var source := env.files[file];
      var pointer := 0;
      while pointer < |source|
        invariant pointer <= |source|
        invariant Scan(env, Contents(), file, source, pointer, fuel) == Scan(env, old(Contents()), file, source, 0, fuel)
        decreases |source| - pointer
      {
        var next := Iteration(file, source, pointer, fuel);
        if next.Err? {
          return Err(next.error);
        }
        pointer := next.value;
      }
      var g := new Grammar(elementDeclMap, attributeListMap, entitiesMap, notationsMap);
      return Ok(g);
    }

    /** One pass of the loop body. */
    method Iteration(file: string, source: string, pointer: nat, fuel: nat) returns (r: Result<nat>)
      requires pointer < |source|
      modifies this
      ensures Agrees(Step(env, old(Contents()), file, source, pointer, fuel), r)
      decreases fuel, 4
    {
      var p := ParameterReference(file, source, pointer, fuel);
      if p.Err? {
        return Err(p.error);
      }
      r := Declaration(file, source, p.value, fuel);
    }

    method ParameterReference(file: string, source: string, pointer: nat, fuel: nat) returns (r: Result<nat>)
      requires pointer <= |source|
      modifies this
      ensures Agrees(PercentStep(env, old(Contents()), file, source, pointer, fuel), r)
      decreases fuel, 2
    {
      var percent := LookingAt("%", source, pointer);
      if !percent {
        return Ok(pointer);
      }
      var index := IndexOfFrom(source, ";", pointer);
      if index == -1 {
        return Err(SyntaxError);
      }
      OccursAtChar(source, '%', pointer);
      OccursAtChar(source, ';', index);
      var entityName := source[pointer + 1..index];
      if entityName !in entitiesMap {
        return Err(SyntaxError);
      }
      var moduleName := entitiesMap[entityName].value;
      if IsBlank(moduleName) {
        return Err(IOError);
      }
      var path := env.locate(file, moduleName);
      if path in env.files {
        if fuel == 0 {
          return Err(Nontermination);
        }
        var g := Parse(path, fuel - 1);
        if g.Err? {
          return Err(g.error);
        }
      }
      return Ok(index + 1);
    }

    method Declaration(file: string, source: string, pointer: nat, fuel: nat) returns (r: Result<nat>)
      requires pointer <= |source|
      modifies this
      ensures Agrees(Dispatch(env, State(old(Contents()), pointer), file, source, fuel), r)
      decreases fuel, 3
    {
      var isElement := LookingAt("<!ELEMENT", source, pointer);
      if isElement {
        r := ElementDeclaration(source, pointer, fuel);
        return;
      }
      var isAttlist := LookingAt("<!ATTLIST", source, pointer);
      if isAttlist {
        r := AttlistDeclaration(source, pointer);
        return;
      }
      var isEntity := LookingAt("<!ENTITY", source, pointer);
      if isEntity {
        r := EntityDeclaration(file, source, pointer, fuel);
        return;
      }
      var isNotation := LookingAt("<!NOTATION", source, pointer);
      if isNotation {
        r := NotationDeclaration(source, pointer);
        return;
      }
      var isPI := LookingAt("<?", source, pointer);
      if isPI {
        r := Skip(source, pointer, "?>");
        return;
      }
      var isComment := LookingAt("<!--", source, pointer);
      if isComment {
        r := Skip(source, pointer, "-->");
        return;
      }
      r := SectionOrSpace(source, pointer, fuel);
    }

    /** A processing instruction or a comment, ignored. */
    method Skip(source: string, pointer: nat, close: string) returns (r: Result<nat>)
      requires |close| > 0
      ensures Agrees(SkipPast(Contents(), source, pointer, close), r)
    {
      var index := IndexOfFrom(source, close, pointer);
      if index == -1 {
        return Err(SyntaxError);
      }
      return Ok(index + |close|);
    }

    method SectionOrSpace(source: string, pointer: nat, fuel: nat) returns (r: Result<nat>)
      requires pointer <= |source|
      ensures Agrees(Tail(Contents(), source, pointer, fuel), r)
    {
      var p := pointer;
      var isClose := LookingAt(SectionClose, source, p);
      if isClose {
        p := p + 3;
      }
      var isSection := LookingAt(SectionOpen, source, p);
      if isSection {
        var c := ConditionalSection(source, p, fuel);
        if c.Err? {
          return Err(c.error);
        }
        if c.value.1 {
          return Ok(c.value.0);
        }
        p := c.value.0;
      }
      r := Space(source, p);
    }

    /** White space is skipped; anything else is fatal. */
    method Space(source: string, p: nat) returns (r: Result<nat>)
      requires p <= |source|
      ensures Agrees(Blank(Contents(), source, p), r)
    {
      if p < |source| {
        if IsXmlSpace(source[p]) {
          return Ok(p + 1);
        }
        if p < 20 || p + 20 > |source| {
          return Err(IndexOutOfBounds);
        }
        return Err(SyntaxError);
      }
      return Ok(p);
    }

    method DeclarationText(source: string, pointer: nat) returns (r: Result<nat>)
      ensures r == DeclarationEnd(source, pointer)
    {
      var index := IndexOfFrom(source, ">", pointer);
      if index == -1 {
        return Err(SyntaxError);
      }
      OccursAtChar(source, '>', index);
      return Ok(index + 1);
    }

    method ElementDeclaration(source: string, pointer: nat, fuel: nat) returns (r: Result<nat>)
      modifies this
      ensures Agrees(ElementStep(env, old(Contents()), source, pointer, fuel), r)
    {
      var e :- DeclarationText(source, pointer);
      var replaced :- ReplaceParameterEntities(source[pointer..e], entitiesMap, fuel);
      var decl :- ElementDecls.Parse(replaced, env.parseModel);
      elementDeclMap := elementDeclMap[decl.name := decl];
      return Ok(e);
    }

    method AttlistDeclaration(source: string, pointer: nat) returns (r: Result<nat>)
      modifies this
      ensures Agrees(AttlistStep(old(Contents()), source, pointer), r)
    {
      var e :- DeclarationText(source, pointer);
      var attList :- AttlistDecls.Parse(source[pointer..e]);
      attributeListMap := attributeListMap[attList.listName := attList];
      return Ok(e);
    }

    method EntityDeclaration(file: string, source: string, pointer: nat, fuel: nat) returns (r: Result<nat>)
      modifies this
      ensures Agrees(EntityStep(env, old(Contents()), file, source, pointer, fuel), r)
      decreases fuel, 2
    {
      var e :- DeclarationText(source, pointer);
      var decl :- EntityDecls.Parse(source[pointer..e]);
      r := AddEntity(file, decl, e, fuel);
    }

    method AddEntity(file: string, decl: EntityDecl, e: nat, fuel: nat) returns (r: Result<nat>)
      modifies this
      ensures Agrees(EntityAdd(env, old(Contents()), file, decl, e, fuel), r)
      decreases fuel, 1
    {
      var entityDecl := decl;
      if entityDecl.kind.System? {
        if IsBlank(entityDecl.value) {
          return Err(IOError);
        }
        var path := env.locate(file, entityDecl.value);
        if path in env.files {
          entityDecl := SetSystemId(entityDecl, path);
          if fuel == 0 {
            return Err(Nontermination);
          }
          var g := Parse(path, fuel - 1);
          if g.Err? {
            return Err(g.error);
          }
        }
      }
      if entityDecl.name !in entitiesMap {
        entitiesMap := entitiesMap[entityDecl.name := entityDecl];
      }
      return Ok(e);
    }

    method NotationDeclaration(source: string, pointer: nat) returns (r: Result<nat>)
      modifies this
      ensures Agrees(NotationStep(old(Contents()), source, pointer), r)
    {
      var e :- DeclarationText(source, pointer);
      var notation :- NotationDecls.Parse(source[pointer..e]);
      if notation.name !in notationsMap {
        notationsMap := notationsMap[notation.name := notation];
      }
      return Ok(e);
    }

    /** The section loop, `getSectionType` and the keyword test. */
    method ConditionalSection(source: string, pointer: nat, fuel: nat) returns (r: Result<(nat, bool)>)
      requires OccursAt(source, SectionOpen, pointer)
      ensures r == SectionStep(entitiesMap, source, pointer, fuel)
    {
      var section :- SectionExtent(source, pointer);
      r := SectionKeyword(source, pointer, section, fuel);
    }

    method SectionKeyword(source: string, pointer: nat, section: string, fuel: nat) returns (r: Result<(nat, bool)>)
      requires OccursAt(source, SectionOpen, pointer) && pointer + |section| <= |source|
      ensures r == SectionKind(entitiesMap, source, pointer, section, fuel)
    {
      var keyword :- GetSectionType(section, entitiesMap, fuel);
      if keyword == "INCLUDE" {
        var start := IndexOfFrom(source, "[", pointer + 3);
        if start == -1 {
          return Err(SyntaxError);
        }
        return Ok((start + 1, false));
      } else if keyword == "IGNORE" {
        return Ok((pointer + |section|, true));
      }
      return Err(SyntaxError);
    }
  }
}
