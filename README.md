# XMLJava DTD engine and catalog resolver in Dafny

This project models the core of the XMLJava library (package
`com.maxprograms.xml`). The core has these parts:

- **The DTD scanner** (`DTDParser`). It is a cursor loop over the text of a
  DTD that fills four tables: elements, attribute lists, entities and
  notations. It expands parameter-entity references (production [69]
  PEReference, section 4.1 of XML 1.0). It handles INCLUDE and IGNORE
  conditional sections (section 3.4 of XML 1.0).
- **The declaration scanners and their value types.** These are
  `EntityDecl`, `AttlistDecl`/`AttributeDecl`, `NotationDecl` and
  `ElementDecl`. Each scans one declaration string with a character cursor,
  and each has a `toString` that writes the declaration back.
- **The content-particle nodes and the `Grammar` queries.** The nodes are
  `DTDName`, `DTDSecuence` and `DTDChoice`.
- **The catalog resolver** (`Catalog`, `CatalogBuilder`). It builds the
  system, public, uri and dtd tables and the rewrite lists from a catalog
  document (OASIS XML Catalogs 1.1). It then resolves public and system
  identifiers and URIs against them. It indexes the entities of each DTD it
  scans, and memoises catalogs by path.
- **The utilities these share:**
  - `XMLUtils` escaping and character filtering;
  - the attribute-list collection of `EntityHandler`;
  - the `SAXBuilder` attribute filter;
  - the content operations of `Element`, `Attribute` and `Document`;
  - `Indenter`;
  - the `normalize` and `replaceToken` helpers of `XMLOutputter`.

## How the model is built

**Errors.** Every Java exception the core can throw is a `Wrappers.Error`
value inside a `Result`:

| Java exception or condition | `Wrappers.Error` value |
|---|---|
| `SAXException` | `SyntaxError` |
| `IOException` | `IOError` |
| `IndexOutOfBoundsException` (an unguarded `charAt` or `substring`) | `IndexOutOfBounds` |
| `IllegalArgumentException` | `IllegalArgument` |
| `NullPointerException` | `NullPointer` |
| a loop or recursion that would not end | `Nontermination` |

A Java `null` is `Option.None`. Where the source has an overload without the
argument, `None` stands for that overload instead: `PIs(c, None)` is
`getPI()` and `RemovePI(None)` is `removeAllPI()`, while `Some(t)` is
`getPI(t)` and `removePI(t)`. The Java calls `getPI(null)` and
`removePI(null)` select nothing, and the model has no value for them.

**Value types** are Dafny datatypes:

- declarations, attribute definitions and content particles;
- nodes and elements;
- the catalog tables and the parser tables.

Each specification function states one operation of the source. The source
code itself is followed loop by loop in methods, and each method's `ensures`
ties it to its specification function.

**Objects whose fields the source changes in place** are classes:

| Java class | Fields the Dafny class holds |
|---|---|
| `DTDParser` | its four maps |
| `Grammar` | its four maps |
| `DTDName`, `DTDSecuence`, `DTDChoice` | their content and cardinality |
| `Catalog` | its tables, rewrite lists, `base` and the DTD indices |
| `CatalogBuilder` | the cache |
| `EntityHandler` | its two collections |
| `Document` | its content list and header fields |
| `Indenter` | `level` and `numSpaces` |

**Strings** are Dafny strings, that is sequences of Unicode scalar values. A
supplementary character stands for the surrogate pair Java would hold. Where
the source orders strings (`String.compareTo`, `Collections.sort`), the model
compares their UTF-16 code units (`XMLNodes.Utf16`), as Java does, and not
their code points.

**The file system and the platform** are parameters:

- **The DTD parser** (`DTDParsing.Env`) takes:
  - `files`, a map from path to file text;
  - `locate`, an opaque path join;
  - `parseModel`, the content-model parser.
- **The catalog** (`Catalogs.Files`) takes:
  - `catalogs`, a map from path to parsed catalog document;
  - `existing`, the set of paths that exist;
  - opaque path functions;
  - the two URI fallbacks (`locate`, `fileUri`);
  - the direct URI resolution (`direct`);
  - the DTD parser's `Env`.

**Fuel.** Recursion that the source does not bound takes a `fuel: nat`
argument. When the fuel runs out, the result is `Err(Nontermination)`. This
covers:

- nested DTD modules;
- parameter entities whose values refer to further entities;
- `nextCatalog` chains.

**Where the code and its documentation disagree, the model follows the code:**

- `matchSystem` and `matchURI` apply *every* matching rewrite rule, in list
  order, each to the id as already rewritten. Section 7.1.2 of OASIS XML
  Catalogs 1.1 asks for the longest matching prefix only.
- A `nextCatalog` is loaded with `new Catalog`, not through
  `CatalogBuilder`, so it is not memoised.
- A SYSTEM `<!ENTITY>` has its module scanned whether the entity is a
  parameter entity or a general one.
- `getDtdCatalog` returns the uri table. So a `nextCatalog` merge copies the
  child's uri entries into the dtd table.
- One loop iteration can handle several things in a row:
  - after a `%name;` reference the `<!ELEMENT` … `<![` tests of the same
    iteration run at the new cursor, so `%a;<!ELEMENT x ANY>` declares `x`;
  - after `]]>` the `<![` test runs next, and when no section opens there
    control reaches the end-of-iteration white-space test, so a
    declaration right after `]]>` is fatal;
  - after an INCLUDE section opener control falls through to the
    end-of-iteration white-space test, so a character other than white
    space right after `<![INCLUDE[` is fatal.

## Model

| member | source | states |
|---|---|---|
| XMLUtils.CleanText | src/com/maxprograms/xml/XMLUtils.java:45-52 | the result is every character escaped on its own (`&`, `<`, `>` to their references); it holds no `<` or `>`; every `&` in it starts `&amp;`, `&lt;` or `&gt;`; a string without the three characters is unchanged |
| XMLUtils.CleanNullable | src/com/maxprograms/xml/XMLUtils.java:45-47 | `null` stays `null`; any other string is escaped as `cleanText` does |
| XMLUtils.CleanTextIsEscapeEach | src/com/maxprograms/xml/XMLUtils.java:48-51 | the three successive replace passes equal escaping each character once |
| XMLUtils.UncleanText | src/com/maxprograms/xml/XMLUtils.java:80-86 | the five replace passes in source order leave a string without `&` unchanged |
| XMLUtils.UncleanTextDecodesTwice | src/com/maxprograms/xml/XMLUtils.java:80-86 | as written, `uncleanText(cleanText("&lt;"))` is `"<"`, not `"&lt;"`: the `&amp;` pass runs first and its output is decoded again |
| XMLUtils.UncleanTextOnePass | src/com/maxprograms/xml/XMLUtils.java:80-86 | the one-pass decoder leaves a string without `&` unchanged |
| XMLUtils.OnePassUndoesClean | src/com/maxprograms/xml/XMLUtils.java:45-52 | the one-pass decoder inverts `cleanText` on every string |
| XMLUtils.Filter | src/com/maxprograms/xml/XMLUtils.java:55-77 | a character occurs in the result iff it occurs in the input and passes the test; the result is never longer than the input |
| XMLUtils.FilterKeepsAll | src/com/maxprograms/xml/XMLUtils.java:55-77 | filtering is the identity iff every character passes the test |
| XMLUtils.ValidChars | src/com/maxprograms/xml/XMLUtils.java:54-77 | the result is the input filtered, in order, to TAB, LF, CR, U+0020–U+D7DF, U+E000–U+FFFD and the supplementary characters; the escape branch adds nothing; the output equals the input iff every character is kept |
| XMLUtils.ValidCharsDropsXmlChar | src/com/maxprograms/xml/XMLUtils.java:64-66 | U+D7E0 is a Char of XML 1.0 (section 2.2) that `validChars` drops |
| XMLUtils.ValidCharsXml | src/com/maxprograms/xml/XMLUtils.java:54-77 | with the bound of production [2] Char, a character is kept iff it is an XML character |
| AttributeDecls.AttributeDecl.ToString | src/com/maxprograms/xml/AttributeDecl.java:50-66 | a parameter-entity reference renders as its name alone; any other definition starts with name, a space and its type |
| AttributeDecls.Renderings | src/com/maxprograms/xml/AttributeDecl.java:55-66 | after name and type: ` #FIXED "d"` for a fixed default, a bare ` #REQUIRED` or ` #IMPLIED`, ` "d"` for any other non-empty default, and nothing for a null or empty default |
| AttributeDecls.Create | src/com/maxprograms/xml/AttributeDecl.java:22-27 | the constructor stores its four arguments verbatim and the parameter-entity flag is off |
| AttributeDecls.SetParameterEntity | src/com/maxprograms/xml/AttributeDecl.java:29-31 | the flag takes the given value and no other field changes |
| AttributeDecls.FixedShownIff | src/com/maxprograms/xml/AttributeDecl.java:55-66 | the text contains `#FIXED` iff the definition is fixed, when no field itself contains `#FIXED` |
| AttributeDecls.DefaultPartWithoutFixed | src/com/maxprograms/xml/AttributeDecl.java:59-66 | a non-fixed default part never contains `#FIXED` and is empty or starts with a space |
| AttlistDecls.AttlistDeclOf | src/com/maxprograms/xml/AttlistDecl.java:25-42 | a list name read by the constructor is a non-empty run without white space |
| AttlistDecls.Parse | src/com/maxprograms/xml/AttlistDecl.java:25-42 | the constructor's cursor loop computes `AttlistDeclOf` |
| AttlistDecls.AttlistWithoutSpace | src/com/maxprograms/xml/AttlistDecl.java:35-39 | `<!ATTLIST name>` with a name free of white space fails as index out of range, since the name scan runs past the end |
| AttlistDecls.ParseAttributes | src/com/maxprograms/xml/AttlistDecl.java:44-194 | the nested cursor loops compute the specification's attribute list |
| AttlistDecls.AttributesFrom | src/com/maxprograms/xml/AttlistDecl.java:68-74 | every parameter-entity attribute read is a `%name;` token with no type, no default and not fixed |
| AttlistDecls.Iteration | src/com/maxprograms/xml/AttlistDecl.java:46-74 | each outer iteration consumes at least one character; a `%name;` token becomes a parameter-entity definition; any other name is no reference |
| AttlistDecls.ReadAttribute | src/com/maxprograms/xml/AttlistDecl.java:46-192 | the loop body computes one specification iteration |
| AttlistDecls.TypeScan | src/com/maxprograms/xml/AttlistDecl.java:89-113 | a type read ends within the text, its length is the distance the cursor moved, and every failure is an index out of range |
| AttlistDecls.DefaultScan | src/com/maxprograms/xml/AttlistDecl.java:127-192 | a recorded definition carries the scanned name and type and a default; a failure is an IllegalArgument raised from a `#` keyword; nothing is recorded iff the default starts with neither `#` nor a quote |
| AttlistDecls.FixedWithoutQuote | src/com/maxprograms/xml/AttlistDecl.java:133-140 | `#FIXED` followed by anything but a quote raises IllegalArgument |
| AttlistDecls.FixedWritten | src/com/maxprograms/xml/AttlistDecl.java:129-157 | `#FIXED "v"` or `#FIXED 'v'`, with no such quote in `v`, is read as a fixed definition with default `v` |
| AttlistDecls.KeywordWritten | src/com/maxprograms/xml/AttlistDecl.java:158-172 | a `#` keyword other than `#FIXED` (a run without white space, `#REQUIRED` and `#IMPLIED` among them) is stored as the default, not fixed |
| AttlistDecls.QuotedWritten | src/com/maxprograms/xml/AttlistDecl.java:173-192 | a default in `"` or `'` quotes, with no such quote inside, is stored unquoted, not fixed |
| AttlistDecls.Literal | src/com/maxprograms/xml/AttlistDecl.java:173-190 | a literal ends after its opening position and never contains its delimiter |
| AttlistDecls.ReadLiteral | src/com/maxprograms/xml/AttlistDecl.java:173-190 | the literal loop computes the specification's literal |
| AttlistDecls.ReadTypeAndDefault | src/com/maxprograms/xml/AttlistDecl.java:75-192 | the type-and-default loops compute the specification's step |
| AttlistDecls.ReadDefault | src/com/maxprograms/xml/AttlistDecl.java:127-192 | the default loops compute the specification's step |
| AttlistDecls.ToString | src/com/maxprograms/xml/AttlistDecl.java:210-218 | the text loop writes `<!ATTLIST name`, one `\n  attr` line per attribute, then `\n>` |
| AttlistDecls.ParseText | src/com/maxprograms/xml/AttlistDecl.java:25-218 | the constructor reads back what `toString` writes, for a readable list |
| AttlistDecls.TextRead | src/com/maxprograms/xml/AttlistDecl.java:25-194 | a header and a body of written attribute lines read back as that name and that list, in source order |
| EntityDecls.TypeName | src/com/maxprograms/xml/EntityDecl.java:142-144 | the type name is SYSTEM, PUBLIC or INTERNAL exactly for the matching kind |
| EntityDecls.PublicId | src/com/maxprograms/xml/EntityDecl.java:154-156 | a public id exists iff the entity is PUBLIC, and it is that kind's id |
| EntityDecls.SetSystemId | src/com/maxprograms/xml/EntityDecl.java:158-160 | the system id takes the given value and nothing else changes |
| EntityDecls.NameScan | src/com/maxprograms/xml/EntityDecl.java:44-66 | the name is a non-empty run without white space, starting at position 8 or later and ended by a white-space character |
| EntityDecls.ParameterFields | src/com/maxprograms/xml/EntityDecl.java:72-95 | a parameter entity is SYSTEM iff the text after the name contains "SYSTEM", PUBLIC iff it contains "PUBLIC" and not "SYSTEM", else INTERNAL; it never has NDATA |
| EntityDecls.GeneralFields | src/com/maxprograms/xml/EntityDecl.java:98-134 | the same kind test for a general entity; an INTERNAL one has no NDATA |
| EntityDecls.PublicFields | src/com/maxprograms/xml/EntityDecl.java:76-90 | a parameter PUBLIC entity takes the text between its delimiters as public id and the next literal, unquoted, as value |
| EntityDecls.Unquote | src/com/maxprograms/xml/EntityDecl.java:91-95 | unquoting succeeds iff the text has at least two characters, and removes exactly the first and the last |
| EntityDecls.EntityDeclOf | src/com/maxprograms/xml/EntityDecl.java:43-136 | the constructor never sets a system id; a read name is non-empty without white space; an NDATA value occurs only on a general external entity |
| EntityDecls.Parse | src/com/maxprograms/xml/EntityDecl.java:43-136 | the constructor's cursor loops compute `EntityDeclOf` |
| EntityDecls.Delimiter | src/com/maxprograms/xml/EntityDecl.java:190-198 | the delimiter is `"` iff the text holds no `"`, else `'` |
| EntityDecls.ToString | src/com/maxprograms/xml/EntityDecl.java:176-228 | the text starts `<!ENTITY ` and ends with `>`; a parameter entity has `% ` next, and a general entity whose name does not start with `%` has no `%` there |
| EntityDecls.ReadsBackToString | src/com/maxprograms/xml/EntityDecl.java:43-228 | for INTERNAL, SYSTEM and parameter PUBLIC entities with a plain name and values free of quotes and keywords, the constructor recovers the entity from `toString` |
| NotationDecls.NotationDeclOf | src/com/maxprograms/xml/NotationDecl.java:35-75 | name and type are non-empty runs without white space; every failure is an index out of range |
| NotationDecls.Delimited | src/com/maxprograms/xml/NotationDecl.java:64-73 | the value never contains the delimiter that opens it |
| NotationDecls.ReferencedFrom | src/com/maxprograms/xml/NotationDecl.java:74 | the referenced part exists iff the closing delimiter lies before the first `>` |
| NotationDecls.Parse | src/com/maxprograms/xml/NotationDecl.java:35-75 | the constructor's cursor loops compute `NotationDeclOf` |
| NotationDecls.ParseBuiltText | src/com/maxprograms/xml/NotationDecl.java:35-107 | the constructor reads back the text `toString` builds, with `referenced` keeping its quotes |
| NotationDecls.TextRead | src/com/maxprograms/xml/NotationDecl.java:36-74 | `<!NOTATION name type "v" rest>` is read as name, type, `v` and `rest` trimmed |
| ElementDecls.NameScan | src/com/maxprograms/xml/ElementDecl.java:34-46 | the name is a non-empty run without white space, after `<!ELEMENT`, that ends at a white-space character |
| ElementDecls.ModelText | src/com/maxprograms/xml/ElementDecl.java:47 | the model text exists iff the name ends before the last `>`, and it lies before that `>` |
| ElementDecls.ElementDeclOf | src/com/maxprograms/xml/ElementDecl.java:33-48 | a read name is non-empty without white space; every failure is an index out of range |
| ElementDecls.Parse | src/com/maxprograms/xml/ElementDecl.java:33-48 | the constructor's cursor loop computes `ElementDeclOf` |
| ElementDecls.ParseText | src/com/maxprograms/xml/ElementDecl.java:33-71 | reading `toString` gives the name and the model parsed from the trimmed model text |
| ElementDecls.RoundTrip | src/com/maxprograms/xml/ElementDecl.java:33-71 | when the model parser inverts the model's text, the constructor recovers the declaration from `toString` |
| ElementDecls.ElementWithoutSpace | src/com/maxprograms/xml/ElementDecl.java:41-45 | `<!ELEMENT name>` with a name free of white space fails as index out of range |
| Particles.TypeOf | src/com/maxprograms/xml/DTDSecuence.java:44-46 | the type code is NAME, SEQUENCE or CHOICE exactly for the matching particle |
| Particles.CardinalityReadBack | src/com/maxprograms/xml/DTDName.java:54-67 | the suffix written for a known cardinality reads back as that cardinality |
| Particles.ChildrenAreNames | src/com/maxprograms/xml/DTDSecuence.java:88-102 | when choices report their own names, a sequence's children are exactly the names in its subtree |
| Particles.ChildrenWithinNames | src/com/maxprograms/xml/DTDSecuence.java:88-102 | when choices report a subset of their names, so does the sequence |
| Particles.JoinedAfterAdd | src/com/maxprograms/xml/DTDSecuence.java:59-82 | after one more particle, the joined text is the earlier text, the separator and the new particle's text |
| Particles.DTDName.constructor | src/com/maxprograms/xml/DTDName.java:22-25 | a new name particle has its name and cardinality NONE |
| Particles.DTDName.SetCardinality | src/com/maxprograms/xml/DTDName.java:71-73 | the cardinality takes the given value |
| Particles.DTDName.GetCardinality | src/com/maxprograms/xml/DTDName.java:37-39 | the cardinality last set |
| Particles.DTDName.AddParticle | src/com/maxprograms/xml/DTDName.java:42-44 | adding a particle leaves the name particle as it was |
| Particles.DTDName.GetParticles | src/com/maxprograms/xml/DTDName.java:47-51 | a one-element list holding the particle itself, of type NAME |
| Particles.DTDName.ToString | src/com/maxprograms/xml/DTDName.java:54-67 | the name followed by "", "?", "+" or "*" for a known cardinality; "" for any other |
| Particles.DTDSecuence.constructor | src/com/maxprograms/xml/DTDSecuence.java:34-37 | a new sequence is empty with cardinality NONE |
| Particles.DTDSecuence.AddParticle | src/com/maxprograms/xml/DTDSecuence.java:39-41 | the particle is appended after the earlier ones; the cardinality is unchanged |
| Particles.DTDSecuence.SetCardinality | src/com/maxprograms/xml/DTDSecuence.java:49-51 | the cardinality is overwritten and the content is unchanged |
| Particles.DTDSecuence.GetCardinality | src/com/maxprograms/xml/DTDSecuence.java:54-56 | the cardinality last set |
| Particles.DTDSecuence.GetParticles | src/com/maxprograms/xml/DTDSecuence.java:84-86 | the content in order |
| Particles.DTDSecuence.ToString | src/com/maxprograms/xml/DTDSecuence.java:59-82 | the text loop writes `(`, the children joined by `,`, `)` and the cardinality suffix |
| Particles.DTDSecuence.GetChildren | src/com/maxprograms/xml/DTDSecuence.java:88-102 | the loop collects the names of direct name children together with the children of nested groups |
| Particles.DTDChoice.constructor | src/com/maxprograms/xml/DTDChoice.java:22-25 | a new choice is empty with cardinality NONE |
| Particles.DTDChoice.AddParticle | src/com/maxprograms/xml/DTDChoice.java:27-29 | the particle is appended in order; the cardinality is unchanged |
| Particles.DTDChoice.SetCardinality | src/com/maxprograms/xml/DTDChoice.java:42-44 | last set wins and the content is unchanged |
| Particles.DTDChoice.GetCardinality | src/com/maxprograms/xml/DTDChoice.java:37-39 | the cardinality last set |
| Particles.DTDChoice.GetParticles | src/com/maxprograms/xml/DTDChoice.java:72-74 | the content in order |
| Particles.DTDChoice.ToString | src/com/maxprograms/xml/DTDChoice.java:47-70 | the children joined by ` \| ` inside parentheses, with the cardinality suffix |
| Particles.GroupText | src/com/maxprograms/xml/DTDSecuence.java:59-82 | the loop's text is the parenthesised join with the suffix |
| Grammars.Grammar.constructor | src/com/maxprograms/xml/Grammar.java:28-34 | the grammar holds the four maps it is given |
| Grammars.Grammar.GetSystemEntities | src/com/maxprograms/xml/Grammar.java:36-47 | one entry per map key, exactly the SYSTEM entities, each the map's value for its key |
| Grammars.Grammar.GetPublicEntities | src/com/maxprograms/xml/Grammar.java:49-60 | one entry per map key, exactly the PUBLIC entities |
| Grammars.Grammar.GetEntities | src/com/maxprograms/xml/Grammar.java:62-66 | every entity value, one per key |
| Grammars.Grammar.GetElements | src/com/maxprograms/xml/Grammar.java:68-76 | every element declaration, one per key |
| Grammars.Grammar.GetRootElement | src/com/maxprograms/xml/Grammar.java:94-121 | "" or a declared, non-EMPTY element that no model lists as a child; non-empty only when the key count minus the child-name count is 1, and then non-empty unless every candidate is EMPTY |
| Grammars.Discarded | src/com/maxprograms/xml/Grammar.java:96-106 | the loop collects the union of all models' children |
| DTDScanning.LookingAt | src/com/maxprograms/xml/DTDParser.java:291-302 | true iff `search` occurs in `source` at `start` |
| DTDScanning.Count | src/com/maxprograms/xml/DTDParser.java:252-260 | the number of possibly overlapping occurrences, the search resuming one past each hit |
| DTDScanning.CountSkips | src/com/maxprograms/xml/DTDParser.java:252-260 | counting from a position equals counting from the next occurrence, and is 0 when there is none |
| DTDScanning.Expand | src/com/maxprograms/xml/DTDParser.java:218-250 | text without `%` is returned unchanged; a result never contains `%`; failures are syntax errors or exhausted fuel |
| DTDScanning.ReplaceParameterEntities | src/com/maxprograms/xml/DTDParser.java:218-250 | the builder loop and the repeat-until-no-`%` recursion compute `Expand` |
| DTDScanning.ReplacePass | src/com/maxprograms/xml/DTDParser.java:220-245 | one pass of the builder loop |
| DTDScanning.ExpandReference | src/com/maxprograms/xml/DTDParser.java:220-245 | `%name;` is replaced by the entity's value and the text around it is kept |
| DTDScanning.ExpandUnterminated | src/com/maxprograms/xml/DTDParser.java:225-228 | a `%` with no later `;` is a syntax error |
| DTDScanning.ExpandUndeclared | src/com/maxprograms/xml/DTDParser.java:230-234 | an undeclared name is a syntax error |
| DTDScanning.ExpandSelfReference | src/com/maxprograms/xml/DTDParser.java:246-248 | an entity whose value is its own reference never finishes expanding |
| DTDScanning.SectionType | src/com/maxprograms/xml/DTDParser.java:262-289 | the keyword returned has no reference left in it |
| DTDScanning.GetSectionType | src/com/maxprograms/xml/DTDParser.java:262-289 | the keyword loop and the replace loop compute `SectionType` |
| DTDScanning.KeywordSectionType | src/com/maxprograms/xml/DTDParser.java:264-275 | the keyword after `<![` and white space, up to white space or `[`, is returned as is |
| DTDScanning.ReferenceUndeclared | src/com/maxprograms/xml/DTDParser.java:276-287 | a `%x;` keyword for an undeclared name is a syntax error |
| DTDScanning.ReferenceResolved | src/com/maxprograms/xml/DTDParser.java:276-287 | a declared `%x;` keyword is replaced by the entity's value and resolved again |
| DTDScanning.SectionFrom | src/com/maxprograms/xml/DTDParser.java:176-185 | a section found holds as many `<![` as `]]>` and is the text at the cursor; the only error is an index out of range. With no `]]>` left the source takes `substring(pointer, 2)`, which fails unless `pointer <= 2` and otherwise gives that short text |
| DTDScanning.SectionExtent | src/com/maxprograms/xml/DTDParser.java:176-185 | the growing loop computes `SectionFrom` |
| DTDParsing.ParseFile | src/com/maxprograms/xml/DTDParser.java:44-216 | a successful parse only adds to the tables it starts from: entities and notations keep every earlier entry, and no name is lost from any table |
| DTDParsing.Step | src/com/maxprograms/xml/DTDParser.java:47-214 | a successful iteration moves the cursor forward within the text and extends the tables |
| DTDParsing.PercentStep | src/com/maxprograms/xml/DTDParser.java:48-76 | a `%` at the cursor moves it forward; any other character leaves the state alone |
| DTDParsing.Dispatch | src/com/maxprograms/xml/DTDParser.java:77-213 | a successful dispatch moves the cursor forward, unless it is at the end, and extends the tables |
| DTDParsing.DeclarationEnd | src/com/maxprograms/xml/DTDParser.java:78-82 | the declaration ends at the next `>`; a missing `>` is a syntax error |
| DTDParsing.ElementStep | src/com/maxprograms/xml/DTDParser.java:77-87 | only the element table changes, and it keeps every earlier name |
| DTDParsing.AttlistStep | src/com/maxprograms/xml/DTDParser.java:88-98 | only the attribute-list table changes, and it keeps every earlier name |
| DTDParsing.Register | src/com/maxprograms/xml/DTDParser.java:128-135 | a new entity name is added; a declared one leaves the tables unchanged |
| DTDParsing.NotationStep | src/com/maxprograms/xml/DTDParser.java:139-151 | only the notation table changes, first seen wins |
| DTDParsing.SkipPast | src/com/maxprograms/xml/DTDParser.java:152-171 | a comment or processing instruction is skipped through its close and changes no table; a missing close is a syntax error |
| DTDParsing.Blank | src/com/maxprograms/xml/DTDParser.java:201-213 | the iteration ends well iff the cursor is at the end or on white space, which is stepped over |
| DTDParsing.ElementLastSeenWins | src/com/maxprograms/xml/DTDParser.java:83-85 | a repeated `<!ELEMENT` replaces the earlier declaration of its name |
| DTDParsing.AttlistLastSeenWins | src/com/maxprograms/xml/DTDParser.java:94-96 | a repeated `<!ATTLIST` replaces the earlier list of its element |
| DTDParsing.EntityFirstSeenWins | src/com/maxprograms/xml/DTDParser.java:128-136 | a second non-SYSTEM `<!ENTITY` of a declared name changes no table |
| DTDParsing.SystemEntityBlank | src/com/maxprograms/xml/DTDParser.java:106-111 | a SYSTEM entity with a blank value is an I/O error |
| DTDParsing.NotationFirstSeenWins | src/com/maxprograms/xml/DTDParser.java:145-149 | a second `<!NOTATION` of a declared name changes no table |
| DTDParsing.CommentSkipped | src/com/maxprograms/xml/DTDParser.java:162-171 | a comment is skipped through `-->` and changes no table |
| DTDParsing.ProcessingInstructionSkipped | src/com/maxprograms/xml/DTDParser.java:152-161 | a processing instruction is skipped through `?>` and changes no table |
| DTDParsing.StrayCharacterFatal | src/com/maxprograms/xml/DTDParser.java:201-213 | a character that starts no construct and is not white space is fatal |
| DTDParsing.ParameterReferenceStep | src/com/maxprograms/xml/DTDParser.java:48-75 | `%name;` with an undeclared name is a syntax error; a blank value is an I/O error; otherwise the cursor moves by exactly the name's length plus 2 |
| DTDParsing.ParameterReferenceUnterminated | src/com/maxprograms/xml/DTDParser.java:50-53 | a `%` with no `;` after it is a syntax error |
| DTDParsing.IgnoreKeyword | src/com/maxprograms/xml/DTDParser.java:194-196 | an IGNORE section is skipped whole, through the `]]>` that balances its `<![` |
| DTDParsing.IncludeKeyword | src/com/maxprograms/xml/DTDParser.java:187-193 | an INCLUDE section moves the cursor just past the first `[` after `<![`; with no such `[` it is a syntax error |
| DTDParsing.UnknownKeyword | src/com/maxprograms/xml/DTDParser.java:197-199 | any other keyword is a syntax error |
| DTDParsing.SectionSkipped | src/com/maxprograms/xml/DTDParser.java:175-213 | after an IGNORE section no table changes; after an INCLUDE opener the end-of-iteration white-space test follows |
| DTDParsing.BlankSource | src/com/maxprograms/xml/DTDParser.java:201-215 | a file of white space declares nothing |
| DTDParsing.DTDParser.constructor | src/com/maxprograms/xml/DTDParser.java:37-42 | a new parser has four empty maps |
| DTDParsing.DTDParser.Parse | src/com/maxprograms/xml/DTDParser.java:44-216 | the parser's maps end as the specification's tables; the error is the specification's error; the grammar returned wraps the parser's own four maps |
| DTDParsing.DTDParser.Iteration | src/com/maxprograms/xml/DTDParser.java:48-213 | one pass of the loop body agrees with `Step` |
| DTDParsing.DTDParser.ParameterReference | src/com/maxprograms/xml/DTDParser.java:48-76 | the `%name;` branch agrees with `PercentStep`, including the nested module parse |
| DTDParsing.DTDParser.Declaration | src/com/maxprograms/xml/DTDParser.java:77-200 | the dispatch on the markup at the cursor agrees with `Dispatch` |
| DTDParsing.DTDParser.EntityDeclaration | src/com/maxprograms/xml/DTDParser.java:99-138 | the `<!ENTITY` branch agrees with `EntityStep` |
| DTDParsing.DTDParser.ConditionalSection | src/com/maxprograms/xml/DTDParser.java:175-199 | the section branch agrees with `SectionStep` |
| XMLNodes.NewElement | src/com/maxprograms/xml/Element.java:53-57 | a new element has its name, no attributes and no content |
| XMLNodes.AttributeText | src/com/maxprograms/xml/Attribute.java:54-56 | `name="…"`, where the quoted part holds no `"`, `<` or `>`; a value free of `"`, `&`, `<` and `>` is written as is |
| XMLNodes.CompareAttributes | src/com/maxprograms/xml/Attribute.java:85-87 | attributes compare by name only: 0 iff the names are equal, negative iff the name is less in UTF-16 order |
| XMLNodes.CompareStringsOrder | src/com/maxprograms/xml/Attribute.java:85-87 | `compareTo` on the UTF-16 code units is 0 iff the strings are equal, negative iff the first is less, and antisymmetric |
| XMLNodes.CodeUnits | src/com/maxprograms/xml/Attribute.java:85-87 | a character below U+10000 is one code unit, itself and not a surrogate; any other is a high and a low surrogate |
| XMLNodes.Utf16Injective | src/com/maxprograms/xml/Attribute.java:85-87 | different strings have different UTF-16 forms, so `compareTo` is 0 only for equal strings |
| XMLNodes.SurrogateOrder | src/com/maxprograms/xml/Element.java:370 | U+10000 sorts before U+FF21, by its high surrogate and against code-point order |
| XMLNodes.LessTransitive | src/com/maxprograms/xml/Element.java:370 | the UTF-16 order is transitive |
| XMLNodes.LessTotal | src/com/maxprograms/xml/Element.java:370 | of two different strings one is less, so the order is total |
| XMLNodes.SplitAtFirstColon | src/com/maxprograms/xml/Element.java:256-268 | namespace and local name split the name at its first `:`; with no `:` they are "" and the name |
| XMLNodes.NamespacePart | src/com/maxprograms/xml/Attribute.java:101-106 | the namespace part has no `:` and is "" when the name has none |
| XMLNodes.PrefixOfQualified | src/com/maxprograms/xml/Element.java:429-445 | `a:b` has prefix `a`, and setting prefix `x` gives `x:b` |
| XMLNodes.PrefixTrailingColon | src/com/maxprograms/xml/Element.java:429-435 | the prefix exists only when the split gives exactly two parts: `a:b:` has one, `a:` has none |
| XMLNodes.SetPrefixUnqualified | src/com/maxprograms/xml/Element.java:437-445 | setting a prefix on an unqualified name gives `p:name` |
| XMLNodes.SetThenGet | src/com/maxprograms/xml/Element.java:201-204 | a set attribute reads back, and every other attribute is untouched |
| XMLNodes.SetAttribute | src/com/maxprograms/xml/Element.java:329-336 | the attribute names gain the one set; name and content are kept |
| XMLNodes.AttributeValue | src/com/maxprograms/xml/Element.java:201-204 | an absent attribute reads as "" |
| XMLNodes.Merged | src/com/maxprograms/xml/Element.java:159-189 | no two text nodes are adjacent; non-text nodes and the concatenated text are kept; content of fewer than two nodes, or without adjacent text, is unchanged |
| XMLNodes.MergedAround | src/com/maxprograms/xml/Element.java:170-185 | a node that is not text stays in place, and what comes before and after it is merged apart |
| XMLNodes.TextRunMerged | src/com/maxprograms/xml/Element.java:170-180 | a run of text nodes becomes one text node holding the run's concatenated text |
| XMLNodes.MergedIdempotent | src/com/maxprograms/xml/Element.java:159-189 | merging twice is merging once |
| XMLNodes.MergeText | src/com/maxprograms/xml/Element.java:159-189 | the run loop computes `Merged` |
| XMLNodes.GetChildren | src/com/maxprograms/xml/Element.java:225-234 | the loop lists the element nodes in content order |
| XMLNodes.GetChildrenNamed | src/com/maxprograms/xml/Element.java:236-245 | the loop lists the element nodes of the given name in order |
| XMLNodes.ChildrenMembers | src/com/maxprograms/xml/Element.java:225-245 | an element is listed iff it is in the content (with that name) |
| XMLNodes.GetChild | src/com/maxprograms/xml/Element.java:215-223 | the first child of that name, or none iff no child has that name |
| XMLNodes.RemoveChild | src/com/maxprograms/xml/Element.java:299-312 | the loop removes exactly the direct element children of that name |
| XMLNodes.WithoutChildrenMembers | src/com/maxprograms/xml/Element.java:299-312 | a node survives iff it is not an element of that name |
| XMLNodes.WithoutChildrenQueries | src/com/maxprograms/xml/Element.java:299-312 | afterwards no child has that name; children of other names and the text are unchanged |
| XMLNodes.GetText | src/com/maxprograms/xml/Element.java:275-287 | the recursive loop computes the element's text |
| XMLNodes.TextOfShallow | src/com/maxprograms/xml/Element.java:275-287 | without element children, the text is the concatenated text nodes |
| XMLNodes.TextOfWrapper | src/com/maxprograms/xml/Element.java:279-283 | an element wrapping one element has that element's text |
| XMLNodes.TextOfIsNodesText | src/com/maxprograms/xml/Element.java:275-287 | the text of any element is its content's text node by node: a text node adds its text, an element child its own text, any other node nothing |
| XMLNodes.MergedKeepsText | src/com/maxprograms/xml/Element.java:159-189 | for every element, merging its text runs leaves `getText()` unchanged |
| XMLNodes.EqualsCanon | src/com/maxprograms/xml/Element.java:127-157 | two elements are equal iff their canonical forms, with all text merged, are identical |
| XMLNodes.EqualsEquivalence | src/com/maxprograms/xml/Element.java:127-157 | `equals` is reflexive, symmetric and transitive |
| XMLNodes.EqualsIgnoresSplit | src/com/maxprograms/xml/Element.java:127-157 | an element equals itself with its text merged |
| XMLNodes.SortedKeys | src/com/maxprograms/xml/Element.java:371-374 | the attribute names sorted strictly in UTF-16 order, each once |
| XMLNodes.SortKeys | src/com/maxprograms/xml/Element.java:371-374 | the insertion loop computes the names sorted in UTF-16 order |
| XMLNodes.ElementStringShape | src/com/maxprograms/xml/Element.java:367-390 | the text starts `<name`, ends `/>` for empty content, else `</name>` |
| XMLNodes.TextElementString | src/com/maxprograms/xml/Element.java:367-390 | an element holding only text writes the escaped text between its tags |
| XMLNodes.ToString | src/com/maxprograms/xml/Element.java:367-390 | the writer loops compute the element's text, attributes in UTF-16 order of their names |
| XMLDocuments.NewRoot | src/com/maxprograms/xml/Document.java:45-58 | the root has the qualified name and no content; no namespace declaration is added for a missing or empty URI |
| XMLDocuments.NewRootNamespace | src/com/maxprograms/xml/Document.java:48-56 | a non-empty URI becomes `xmlns:p` for a prefixed name and `xmlns` otherwise |
| XMLDocuments.PrologNodesFacts | src/com/maxprograms/xml/Document.java:77-108 | the prolog constructor keeps exactly the PI, comment and text nodes, in order |
| XMLDocuments.PrologItemsMembers | src/com/maxprograms/xml/Document.java:255-271 | `setProlog` takes exactly the PI and comment nodes |
| XMLDocuments.ReplaceElements | src/com/maxprograms/xml/Document.java:115-123 | every element node in content is replaced by the new root; other nodes stay |
| XMLDocuments.PIsMembers | src/com/maxprograms/xml/Document.java:155-175 | the listed PIs are exactly those with the target; with `None` (`getPI()`) every PI is listed |
| XMLDocuments.RemovePISkipsNeighbour | src/com/maxprograms/xml/Document.java:177-193 | as written, a matching PI right after a removed one survives the pass |
| XMLDocuments.WithoutPIsMembers | src/com/maxprograms/xml/Document.java:177-193 | a node survives iff it is not a selected PI |
| XMLDocuments.WithoutPIsLeavesNone | src/com/maxprograms/xml/Document.java:177-193 | after intended removal no selected PI is left |
| XMLDocuments.Document.WithIds | src/com/maxprograms/xml/Document.java:45-60 | the content is the new root alone, with the ids stored |
| XMLDocuments.Document.WithSubset | src/com/maxprograms/xml/Document.java:61-75 | the content is the new root alone, with the internal subset stored |
| XMLDocuments.Document.WithProlog | src/com/maxprograms/xml/Document.java:77-108 | the content is the copied prolog nodes followed by the root |
| XMLDocuments.Document.SetRootElement | src/com/maxprograms/xml/Document.java:115-123 | every element node is replaced by `e`, and the root becomes `e` iff one existed |
| XMLDocuments.Document.GetPI | src/com/maxprograms/xml/Document.java:155-175 | the selected PIs in content order |
| XMLDocuments.Document.RemovePI | src/com/maxprograms/xml/Document.java:177-193 | the content after the source's index loop, which skips a neighbour; nothing else changes |
| XMLDocuments.Document.RemoveEveryPI | src/com/maxprograms/xml/Document.java:177-193 | every selected PI is removed; nothing else changes |
| XMLDocuments.Document.SetProlog | src/com/maxprograms/xml/Document.java:255-271 | the PI and comment nodes are inserted in order before the last node; on empty content an insertion is an index out of range |
| XMLDocuments.Document.GetEncoding | src/com/maxprograms/xml/Document.java:224-229 | the stored encoding, or UTF-8, which is then cached |
| Indentation.Spaces | src/com/maxprograms/xml/Indenter.java:67-72 | a run of `k` spaces, none when `k` is not positive |
| Indentation.PreservedUnchanged | src/com/maxprograms/xml/Indenter.java:50-52 | an element with `xml:space="preserve"` is left unchanged with its subtree |
| Indentation.LaidShape | src/com/maxprograms/xml/Indenter.java:65-88 | the content becomes a newline-and-indent text before each non-text node, in order, plus a final one-level-less indent iff such a node exists |
| Indentation.LaidHasNoText | src/com/maxprograms/xml/Indenter.java:65-88 | the laid-out content has no real text |
| Indentation.LaidNonText | src/com/maxprograms/xml/Indenter.java:65-88 | the non-text nodes are kept in order |
| Indentation.IndentedKeepsText | src/com/maxprograms/xml/Indenter.java:49-63 | an element with real text keeps its text and its number of non-text nodes |
| Indentation.IndentedLaysOut | src/com/maxprograms/xml/Indenter.java:49-88 | an element without real text, not preserved, ends without real text and with the same number of non-text nodes |
| Indentation.Indenter.Indent | src/com/maxprograms/xml/Indenter.java:43-47 | `indent(e, spaces)` starts at level 1 |
| Indentation.Indenter.IndentFrom | src/com/maxprograms/xml/Indenter.java:37-41 | `indent(e, level, spaces)` starts at the given level |
| Indentation.Indenter.Recurse | src/com/maxprograms/xml/Indenter.java:49-63 | the result is the indented element, children at the next level, and the level is restored |
| Indentation.Indenter.LayOut | src/com/maxprograms/xml/Indenter.java:65-88 | the node loop computes the laid-out content |
| Indentation.Indenter.HasTextIn | src/com/maxprograms/xml/Indenter.java:90-112 | true iff some text node holds NBSP or a character that is neither a space character nor `\n`, `\r`, `\t` |
| XMLOutputting.Normalize | src/com/maxprograms/xml/XMLOutputter.java:298-317 | the loop computes the normalised text |
| XMLOutputting.Normalized | src/com/maxprograms/xml/XMLOutputter.java:298-317 | never longer than its input |
| XMLOutputting.NormalizedKeeps | src/com/maxprograms/xml/XMLOutputter.java:298-317 | every non-blank character is kept in order and only plain spaces are added |
| XMLOutputting.NormalizedSingleSpaced | src/com/maxprograms/xml/XMLOutputter.java:298-317 | without `\n`, no two spaces are adjacent in the output |
| XMLOutputting.NormalizedIdentity | src/com/maxprograms/xml/XMLOutputter.java:298-317 | text without blanks is unchanged |
| XMLOutputting.ReplaceToken | src/com/maxprograms/xml/XMLOutputter.java:331-337 | the loop replaces every occurrence left to right, resuming after the inserted text; the input is unchanged when the token does not occur |
| EntityHandling.IgnoredIff | src/com/maxprograms/xml/EntityHandler.java:58-60 | an attribute is ignored iff its name has a `:` or its mode or type is null |
| EntityHandling.Declared | src/com/maxprograms/xml/EntityHandler.java:66-71 | the recorded definition has the name, the type and the value as default; it is fixed iff the mode is `#FIXED` |
| EntityHandling.FindList | src/com/maxprograms/xml/EntityHandler.java:74-80 | the index of the first list for the element, or the length |
| EntityHandling.Located | src/com/maxprograms/xml/EntityHandler.java:74-84 | the located index is that of the first list for the element and lies inside the new lists, which are the old ones with at most one list appended |
| EntityHandling.LocatedNew | src/com/maxprograms/xml/EntityHandler.java:81-83 | where no list exists, the result is the old lists plus the one `<!ATTLIST name>` builds, or that constructor's failure |
| EntityHandling.FirstAttributeFails | src/com/maxprograms/xml/EntityHandler.java:74-84 | as written, the first attribute of an element fails: the `<!ATTLIST name>` text has no space after the name |
| EntityHandling.ExistingListAgrees | src/com/maxprograms/xml/EntityHandler.java:56-72 | where a list exists, the code as written and the intended one agree |
| EntityHandling.WithAttributeNames | src/com/maxprograms/xml/EntityHandler.java:74-84 | list names stay in first-seen order |
| EntityHandling.WithAttributeUnique | src/com/maxprograms/xml/EntityHandler.java:74-84 | at most one list per element name is kept |
| EntityHandling.WithAttributeAppends | src/com/maxprograms/xml/EntityHandler.java:63-71 | the attribute is appended to its element's list and every other list is left alone |
| EntityHandling.EntityHandler.constructor | src/com/maxprograms/xml/EntityHandler.java:27-32 | both collections start empty |
| EntityHandling.EntityHandler.InternalEntityDecl | src/com/maxprograms/xml/EntityHandler.java:34-39 | names starting with `%` are skipped; a repeated name overwrites |
| EntityHandling.EntityHandler.AttributeDecl | src/com/maxprograms/xml/EntityHandler.java:56-72 | ignored attributes change nothing; otherwise the as-written outcome, including its failure |
| EntityHandling.EntityHandler.FindOrCreateAttlistDecl | src/com/maxprograms/xml/EntityHandler.java:74-84 | the index and the new lists are what `Located` gives, the failure is its failure and leaves the lists alone, and the entities are untouched |
| EntityHandling.EntityHandler.DeclareAttribute | src/com/maxprograms/xml/EntityHandler.java:56-72 | the intended callback: the lists become `WithAttribute` of the old lists |
| EntityHandling.EntityHandler.FindOrAddList | src/com/maxprograms/xml/EntityHandler.java:74-84 | the intended lookup: the first list, or an empty one appended |
| SAXBuilding.RootNamespacesIff | src/com/maxprograms/xml/SAXBuilder.java:226-237 | a prefix is declared iff `xmlns:` + prefix is an attribute of the root |
| SAXBuilding.GetRootNamespaces | src/com/maxprograms/xml/SAXBuilder.java:226-237 | the loop collects exactly the suffixes of `xmlns:` attribute names |
| SAXBuilding.KeepsIff | src/com/maxprograms/xml/SAXBuilder.java:210-217 | an attribute is kept iff its name has no `:` or the prefix before its first `:` is declared |
| SAXBuilding.KeptAttributesMembers | src/com/maxprograms/xml/SAXBuilder.java:208-218 | an attribute is kept iff it was in the list and passes the test |
| SAXBuilding.FilteredAppend | src/com/maxprograms/xml/SAXBuilder.java:204-223 | filtering works list by list, so kept lists stay in order |
| SAXBuilding.FilteredLists | src/com/maxprograms/xml/SAXBuilder.java:219-222 | no output list is empty, and each is an input list restricted to its kept attributes |
| SAXBuilding.Filtered | src/com/maxprograms/xml/SAXBuilder.java:204-223 | the output never has more lists than the input |
| SAXBuilding.FilterFails | src/com/maxprograms/xml/SAXBuilder.java:207 | as written, the filter fails on the first list, whose `<!ATTLIST name>` text has no space after the name |
| SAXBuilding.FilterAttlistDeclarations | src/com/maxprograms/xml/SAXBuilder.java:204-223 | the intended loops compute `Filtered` |
| Catalogs.UnwrapUrn | src/com/maxprograms/xml/Catalog.java:285-302 | the identity unless the text starts with `urn:publicid:` |
| Catalogs.UnwrapPlain | src/com/maxprograms/xml/Catalog.java:285-302 | an id without `+ : ; %` is recovered from its urn form |
| Catalogs.EscapedEscape | src/com/maxprograms/xml/Catalog.java:292-300 | `%25` is decoded last, so `%252B` becomes `%2B` and is not decoded again |
| Catalogs.SystemEntry | src/com/maxprograms/xml/Catalog.java:111-122 | a `system` entry never replaces or removes an entry, and keeps every system, public and uri target an existing file |
| Catalogs.PublicEntry | src/com/maxprograms/xml/Catalog.java:123-140 | a `public` entry never replaces or removes an entry, and keeps every target an existing file |
| Catalogs.UriEntry | src/com/maxprograms/xml/Catalog.java:141-152 | a `uri` entry never replaces or removes an entry, and keeps every target an existing file |
| Catalogs.Adopted | src/com/maxprograms/xml/Catalog.java:115-120 | the dtd table keeps every earlier entry |
| Catalogs.RewriteEntries | src/com/maxprograms/xml/Catalog.java:211-224 | rewrite pairs are appended in order and the four tables are unchanged |
| Catalogs.FirstSeen | src/com/maxprograms/xml/Catalog.java:160-195 | merging keeps every entry it had and takes the other table's value only for new keys |
| Catalogs.Merge | src/com/maxprograms/xml/Catalog.java:160-209 | a `nextCatalog` merge never replaces or removes an entry, and only appends rewrite rules |
| Catalogs.MergeValidated | src/com/maxprograms/xml/Catalog.java:160-186 | merging a validated child keeps every target in existence |
| Catalogs.WorkDir | src/com/maxprograms/xml/Catalog.java:60-72 | the working directory ends with the separator |
| Catalogs.Loaded | src/com/maxprograms/xml/Catalog.java:58-85 | a loaded catalog's system, public and uri targets all exist |
| Catalogs.NextCatalog | src/com/maxprograms/xml/Catalog.java:153-209 | a `nextCatalog` entry only grows the tables |
| Catalogs.Entry | src/com/maxprograms/xml/Catalog.java:93-226 | one child only grows the tables, keeping validity |
| Catalogs.WalkChildren | src/com/maxprograms/xml/Catalog.java:87-228 | the walk over the children only grows the tables, keeping validity |
| Catalogs.MatchPublic | src/com/maxprograms/xml/Catalog.java:376-386 | a match exists iff an id is given and its unwrapped form is a key; it is that key's value |
| Catalogs.RewrittenAppend | src/com/maxprograms/xml/Catalog.java:390-395 | rules apply in list order, each to the already rewritten id |
| Catalogs.RewrittenUnmatched | src/com/maxprograms/xml/Catalog.java:390-395 | an id matching no rule is unchanged |
| Catalogs.RewritesChain | src/com/maxprograms/xml/Catalog.java:390-395 | two chained rules both apply: `a:x` becomes `c:x` |
| Catalogs.MatchSystem | src/com/maxprograms/xml/Catalog.java:388-430 | a missing id has no match; a rewritten id in the table gives that entry |
| Catalogs.MatchURI | src/com/maxprograms/xml/Catalog.java:432-453 | a missing uri has no match; a rewritten uri in the table gives that entry |
| Catalogs.Opened | src/com/maxprograms/xml/Catalog.java:278-281 | a location opens iff it exists |
| Catalogs.PublicFirst | src/com/maxprograms/xml/Catalog.java:270-283 | a public match is tried first by both resolution forms |
| Catalogs.SystemSecond | src/com/maxprograms/xml/Catalog.java:270-283 | without a public match, the system table comes next |
| Catalogs.DirectResolved | src/com/maxprograms/xml/Catalog.java:322-335 | a `null` system id finds nothing, because the `NullPointerException` of `resolve(null)` is swallowed; a present id is resolved against the base URI |
| Catalogs.IndicesLast | src/com/maxprograms/xml/Catalog.java:328-340 | after direct resolution fails, the DTD public index, then the DTD system index |
| Catalogs.DTDFor | src/com/maxprograms/xml/Catalog.java:459-461 | a dtd path exists iff a name is given and it is a key |
| Catalogs.PutAllKey | src/com/maxprograms/xml/Catalog.java:463-475 | after the inserts, a key is present iff it was or some pair with a value names it |
| Catalogs.PutAllFirst | src/com/maxprograms/xml/Catalog.java:463-475 | a new key takes the value of the first pair that names it with a value |
| Catalogs.PutAllKeeps | src/com/maxprograms/xml/Catalog.java:463-475 | no earlier entry changes |
| Catalogs.Listed | src/com/maxprograms/xml/Catalog.java:487-500 | the grammar's list holds exactly its PUBLIC (or SYSTEM) entities |
| Catalogs.Catalog.Empty | src/com/maxprograms/xml/Catalog.java:73-79 | a new catalog has empty tables, empty base and no DTD indices |
| Catalogs.Catalog.Recurse | src/com/maxprograms/xml/Catalog.java:87-228 | the tables end as the walk specifies, with its error; `base` is restored |
| Catalogs.Catalog.AddEntry | src/com/maxprograms/xml/Catalog.java:93-226 | one child handled as the specification says |
| Catalogs.Catalog.AddNext | src/com/maxprograms/xml/Catalog.java:153-209 | a `nextCatalog` entry handled as the specification says |
| Catalogs.Catalog.MergeTables | src/com/maxprograms/xml/Catalog.java:160-209 | the merge loops compute `Merge` |
| Catalogs.Catalog.MatchSystemId | src/com/maxprograms/xml/Catalog.java:388-430 | the rewrite loop and lookup compute `MatchSystem` |
| Catalogs.Catalog.MatchUri | src/com/maxprograms/xml/Catalog.java:432-453 | the rewrite loop and lookup compute `MatchURI` |
| Catalogs.Catalog.ResolveEntity | src/com/maxprograms/xml/Catalog.java:270-283 | public, then system |
| Catalogs.Catalog.ResolveEntityFully | src/com/maxprograms/xml/Catalog.java:309-353 | the fixed strategy order; then a system value ending with the id is opened; a null id with a non-empty system table is a null pointer |
| Catalogs.Catalog.GetDTD | src/com/maxprograms/xml/Catalog.java:459-461 | the dtd table lookup |
| Catalogs.Catalog.CurrentDocumentBase | src/com/maxprograms/xml/Catalog.java:455-457 | the document folder becomes the given one and nothing else changes |
| Catalogs.Catalog.AddDtdPublicEntity | src/com/maxprograms/xml/Catalog.java:463-468 | first seen wins and nothing else changes |
| Catalogs.Catalog.AddDtdSystemEntity | src/com/maxprograms/xml/Catalog.java:470-475 | first seen wins, a `null` path is not stored, and nothing else changes |
| Catalogs.Catalog.ParseDTD | src/com/maxprograms/xml/Catalog.java:477-508 | a DTD is scanned at most once and marked scanned even when a checked error is caught; on success each of its PUBLIC and SYSTEM entities is indexed first seen wins |
| Catalogs.Rewrite | src/com/maxprograms/xml/Catalog.java:390-395 | the rewrite loop computes the fold |
| Catalogs.Open | src/com/maxprograms/xml/Catalog.java:58-85 | a fresh catalog whose tables are the loaded ones, or the load error |
| Catalogs.CatalogBuilder.constructor | src/com/maxprograms/xml/CatalogBuilder.java:26 | the cache starts empty |
| Catalogs.CatalogBuilder.GetCatalog | src/com/maxprograms/xml/CatalogBuilder.java:32-37 | a cached path returns the same object; a new path loads a fresh catalog and caches it; a failure leaves the cache unchanged; the cache only grows |

## Left out

- **File system calls.** `readFile`, `File.exists`, `File.getParentFile`,
  `XMLUtils.getAbsolutePath` and the `Catalog` constructor's path
  resolution are parameters of the model; their results are opaque. This
  also covers `makeAbsolute`, `validate`, `java.net.URI` resolution and
  normalisation, and the file-URI fallback of `matchURI`.
  `XMLUtils.getAbsolutePath` calls `getCanonicalPath` and may throw an
  `IOException`; in the model `Catalogs.Files.absolutePath` and
  `DTDParsing.Env.locate` are total, so that exception is not modelled
  (it is reachable from the module lookups of `DTDParser.parse`, the
  `Catalog` constructor and `parseDTD`).
- **HTTP.** `resolveHttp` (an HTTP GET with a time-out) is not modelled.
  Neither are `DTDResolver`, `getXMLEncoding` and
  `SAXBuilder.hasCustomAttributes`.
- Catalogs.Catalog.ParseDTD: `getParentFile()` returning `null` (a null
  pointer in the source) is not modelled, because the directory of a DTD
  path is a total function here.
- **Catalog separator.** The separator is fixed to `/`.
- **The SAX plumbing**, which consists of foreign library calls:
  - `SAXBuilder.build*`;
  - the `DefaultHandler2` base class of `EntityHandler`;
  - `IContentHandler`.

  A catalog document is given already parsed.
- **ContentModel.** `ContentModel.parse` is a stub in the source, so a
  content model is opaque: a type keyword and a set of child names. The
  element parser takes the model parser as a parameter. `DTDChoice`'s
  children are likewise a parameter of `DTDSecuence.GetChildren`, because no
  such method exists in the source.
- **NotationDecl.toString** returns `Object.toString()`. The model states
  only the canonical text it builds and then discards.
- **Non-parameter PUBLIC entities** are modelled as the source scans them:
  it strips `PUBLIC` twice and may keep the whole remainder as the value.
  No round trip is claimed for them.
- **Fuel bounds.** Self-referential parameter entities, cyclic DTD modules
  and `nextCatalog` cycles end in `Nontermination` once the fuel runs out,
  where the source would overflow its stack or loop. The fuel bound also
  cuts off deep but finite chains.
- **Logging.** Error messages, logging and the text of the fatal DTD
  error are only an error value here. The `substring(pointer - 20, …)` and
  `substring(pointer, pointer + 20)` calls of that error path are modelled:
  `DTDParsing.Blank` gives an index out of range when either falls outside
  the text.
- **Concurrency.** `CatalogBuilder`'s check-then-put on a shared table is
  racy under threads; the model is sequential.
- **Serialiser output.** `XMLOutputter.output`, `processHeader`, `traverse`,
  `cleanString` and `replaceEntities` are not modelled.
- XMLOutputting.ReplaceToken: requires a non-empty token. With an empty
  token the source's loop never ends.
- DTDScanning.Count: requires a non-empty target. The parser only counts
  `<![` and `]]>`.
- XMLNodes.Merged: content has no `null` entry, because a node is a datatype
  value. So two behaviours of `mergeText` (and of `XMLNodes.MergeText`) are
  not modelled: the skip of a `null` entry
  (src/com/maxprograms/xml/Element.java:166-169), and the
  `NullPointerException` from `content.get(i + 1).getNodeType()` when a
  `null` follows a run of text (src/com/maxprograms/xml/Element.java:175).
- **Iteration order** of `Hashtable` and `HashMap` is not modelled:
  - Grammars.Grammar.GetRootElement: when several keys qualify, the
    contract names any of them instead of the first in hash order;
  - the entity lists of `Grammar` are in an unspecified key order.
- **Aliasing and update in place** are modelled as new values:
  - the node that `mergeText` writes through `setText`;
  - the content `Indenter` sets;
  - the attribute list reached through `AttlistDecl.getAttributes()`;
  - the maps `Grammar` hands out;
  - the `Element` that `equals` merges as a side effect;
  - the particle tree: `DTDSecuence` and `DTDChoice` hold their children as
    values, so a `DTDName` whose cardinality is set after it was added does
    not change its parent's `toString`, while in Java it does.

  Sharing between objects is not captured.
- **Lazily created maps.** The `null`-until-first-use maps of `Catalog`
  (`dtdPublicEntities`, `dtdSystemEntities`, `parsedDTDs`) start as empty
  maps.
- **Other parts of the library.** `removeChild(Element)`, the `addContent`
  overloads, `clone`, `writeBytes`, `hashCode` and the thin value classes
  (`DocumentType`, `XMLDeclaration`, `PI`, `CData`, `TextNode`, `XMLNode`,
  `Constants`) are not modelled. Their node kinds are datatype variants.
  The comment writer of `Element.toString` is a parameter, since
  `Comment.java` is not part of this model.

## Findings

| source | as written | input that shows it | evidently intended | confidence | as-written member | corrected member |
|---|---|---|---|---|---|---|
| src/com/maxprograms/xml/XMLUtils.java:64-66 | `validChars` keeps U+0020–U+D7DF | U+D7E0, a Char of production [2] in section 2.2 of XML 1.0, is dropped | the upper bound U+D7FF of the Char production | not executed | XMLUtils.ValidCharsDropsXmlChar | XMLUtils.ValidCharsXml |
| src/com/maxprograms/xml/XMLUtils.java:80-86 | `uncleanText` decodes `&amp;` first, then the other references in the result | `uncleanText(cleanText("&lt;"))` is `"<"` | a single decoding pass that inverts `cleanText` | not executed | XMLUtils.UncleanTextDecodesTwice | XMLUtils.OnePassUndoesClean |
| src/com/maxprograms/xml/Document.java:177-193 | `removePI`/`removeAllPI` remove by value inside an ascending index loop | content `[PI t 1, PI t 2]` with target `t` keeps `PI t 2` | every selected PI removed | not executed | XMLDocuments.RemovePISkipsNeighbour | XMLDocuments.WithoutPIsLeavesNone |
| src/com/maxprograms/xml/EntityHandler.java:81 | a missing list is built with `new AttlistDecl("<!ATTLIST " + element + ">")` | the first attribute of any element whose name has no white space: the name scan runs past `>` and throws | a fresh empty list named after the element | not executed | EntityHandling.FirstAttributeFails | EntityHandling.WithAttributeAppends |
| src/com/maxprograms/xml/SAXBuilder.java:207 | each filtered list is built from `<!ATTLIST name>` | any non-empty list of declarations: the first construction throws | a fresh list with the element's name and the kept attributes | not executed | SAXBuilding.FilterFails | SAXBuilding.FilteredLists |
