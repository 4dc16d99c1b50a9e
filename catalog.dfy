/** The OASIS XML Catalogs resolver: the tables a catalog document and the
    catalogs it chains to build, the lookups over them, the resolution
    order of the entity resolver, the per-DTD entity indices, and the cache
    of catalogs by path. */
module Catalogs {
  import opened Wrappers
  import opened JavaStrings
  import opened XMLNodes
  import opened EntityDecls
  import opened Grammars
  import DTDParsing

  /** What the resolver sees of the file system, as values:
      - `catalogs`: the root element of each catalog file the builder reads;
      - `existing`: the paths of existing files;
      - `isAbsolute`, `parent`, `name`, `canonical`: `File.isAbsolute`,
        `getParent`, `getName`, `getAbsolutePath`;
      - `absolutePath`: `XMLUtils.getAbsolutePath(dir, file)`;
      - `home`: the directory relative catalog paths are resolved against;
      - `directory`: the absolute path of a file's parent directory;
      - `locate`: the fall-backs of `matchSystem` after the table lookup
        (document folder, then URI resolution), given the document parent,
        the base URI and the rewritten system id;
      - `fileUri`: the `file:` URI fall-back of `matchURI`, which lets the
        `IllegalArgumentException` of a relative URI escape;
      - `direct`: the URI resolution `resolveEntity` tries after the
        catalog, with every exception already swallowed (it is consulted
        only for a present system id, see `DirectResolved`);
      - `dtd`: what the DTD parser reads. */
  datatype Files = Files(
    catalogs: map<string, Element>,
    existing: set<string>,
    isAbsolute: string -> bool,
    parent: string -> Option<string>,
    name: string -> string,
    canonical: string -> string,
    absolutePath: (string, string) -> string,
    home: string,
    directory: string -> string,
    locate: (string, Option<string>, string) -> Option<string>,
    fileUri: string -> Result<Option<string>>,
    direct: (Option<string>, Option<string>) -> Option<string>,
    dtd: DTDParsing.Env)

  /** `File.separator`. */
  const Separator := "/"

  const UrnPrefix := "urn:publicid:"

  // ---- unwrapUrn (section 6.4 of OASIS XML Catalogs 1.1) ----

  lemma TrimKeepsPrefix(s: string)
    requires StartsWith(s, UrnPrefix)
    ensures StartsWith(Trim(s), UrnPrefix)
  {
    assert s[0] == 'u';
    assert TrimLeading(s) == s;
    TrimTrailingKeeps(s, |UrnPrefix|);
  }

  lemma {:induction false} TrimTrailingKeeps(s: string, n: nat)
    requires n <= |s| && forall j :: 0 <= j < n ==> s[j] > ' '
    ensures n <= |TrimTrailing(s)| && TrimTrailing(s)[..n] == s[..n]
    decreases |s|
  {
    if |s| > 0 && s[|s| - 1] <= ' ' {
      TrimTrailingKeeps(s[..|s| - 1], n);
    }
  }

  /** The public identifier a `urn:publicid:` URN stands for: the prefix
      goes, `+` becomes a space, `:` becomes `//`, `;` becomes `::`, and
      the escapes are decoded with `%25` last. */
  function UnwrapUrn(urn: string): (r: string)
    ensures !StartsWith(urn, UrnPrefix) ==> r == urn
  {
    if !StartsWith(urn, UrnPrefix) then urn
    else
      TrimKeepsPrefix(urn);
      Decoded(Trim(urn)[|UrnPrefix|..])
  }

  /** The replacement chain after the prefix. */
  function Decoded(id: string): string {
    var a := Replace(Replace(Replace(id, "+", " "), ":", "//"), ";", "::");
    var b := Replace(Replace(Replace(Replace(a, "%2B", "+"), "%3A", ":"), "%2F", "/"), "%3B", ";");
    Replace(Replace(Replace(Replace(b, "%27", "'"), "%3F", "?"), "%23", "#"), "%25", "%")
  }

  lemma NoCharReplace(s: string, c: char, r: string)
    requires c !in s
    ensures Replace(s, [c], r) == s
  {
    forall k ensures !OccursAt(s, [c], k) {
      OccursAtChar(s, c, k);
    }
    ReplaceWithoutOccurrence(s, [c], r);
  }

  lemma NoEscapeReplace(s: string, t: string, r: string)
    requires '%' !in s && |t| > 0 && t[0] == '%'
    ensures Replace(s, t, r) == s
  {
    ReplaceWithoutOccurrence(s, t, r);
  }

  /** An identifier with none of `+ : ; %` comes through the chain
      unchanged. */
  lemma DecodedPlain(id: string)
    requires '+' !in id && ':' !in id && ';' !in id && '%' !in id
    ensures Decoded(id) == id
  {
    NoCharReplace(id, '+', " ");
    NoCharReplace(id, ':', "//");
    NoCharReplace(id, ';', "::");
    NoEscapeReplace(id, "%2B", "+");
    NoEscapeReplace(id, "%3A", ":");
    NoEscapeReplace(id, "%2F", "/");
    NoEscapeReplace(id, "%3B", ";");
    NoEscapeReplace(id, "%27", "'");
    NoEscapeReplace(id, "%3F", "?");
    NoEscapeReplace(id, "%23", "#");
    NoEscapeReplace(id, "%25", "%");
  }

  /** `unwrapUrn` of a URN over a plain identifier is the identifier. */
  lemma UnwrapPlain(id: string)
    requires '+' !in id && ':' !in id && ';' !in id && '%' !in id
    requires |id| > 0 && id[|id| - 1] > ' '
    ensures UnwrapUrn(UrnPrefix + id) == id
  {
    var urn := UrnPrefix + id;
    assert urn[..|UrnPrefix|] == UrnPrefix;
    assert urn[0] == 'u';
    assert TrimLeading(urn) == urn;
    assert TrimTrailing(urn) == urn;
    assert urn[|UrnPrefix|..] == id;
    DecodedPlain(id);
  }

  /** No escape other than `%25` occurs in `%252B`. */
  lemma EscapeAbsent(t: string, r: string)
    requires |t| == 3 && t[0] == '%' && t != "%25"
    ensures Replace("%252B", t, r) == "%252B"
  {
    var s := "%252B";
    assert s[..3] == "%25";
    ReplaceWithoutOccurrence(s, t, r);
  }

  /** `%25` is decoded last, so an escaped escape comes out as an escape
      and is not decoded again: `%252B` gives `%2B`, not `+`. */
  lemma EscapedEscape()
    ensures Decoded("%252B") == "%2B"
  {
    var s := "%252B";
    NoCharReplace(s, '+', " ");
    NoCharReplace(s, ':', "//");
    NoCharReplace(s, ';', "::");
    EscapeAbsent("%2B", "+");
    EscapeAbsent("%3A", ":");
    EscapeAbsent("%2F", "/");
    EscapeAbsent("%3B", ";");
    EscapeAbsent("%27", "'");
    EscapeAbsent("%3F", "?");
    EscapeAbsent("%23", "#");
    assert s[..3] == "%25";
    assert Replace(s, "%25", "%") == "%" + Replace("2B", "%25", "%");
    assert Replace("2B", "%25", "%") == "2B";
  }

  // ---- the tables ----

  /** The catalog's system, public, uri and dtd tables and its two rewrite
      lists; a rewrite rule is a (start string, prefix) pair. */
  datatype Tables = Tables(
    system: map<string, string>,
    public: map<string, string>,
    uri: map<string, string>,
    dtd: map<string, string>,
    systemRewrites: seq<(string, string)>,
    uriRewrites: seq<(string, string)>)

  const NoTables := Tables(map[], map[], map[], map[], [], [])

  /** Entries are never replaced or removed and rules are only appended. */
  predicate Grows(t: Tables, u: Tables) {
    && t.system.Items <= u.system.Items
    && t.public.Items <= u.public.Items
    && t.uri.Items <= u.uri.Items
    && t.dtd.Items <= u.dtd.Items
    && t.systemRewrites <= u.systemRewrites
    && t.uriRewrites <= u.uriRewrites
  }

  /** Every system, public and uri target names an existing file. */
  predicate Validated(files: Files, t: Tables) {
    && (forall k :: k in t.system ==> t.system[k] in files.existing)
    && (forall k :: k in t.public ==> t.public[k] in files.existing)
    && (forall k :: k in t.uri ==> t.uri[k] in files.existing)
  }

  /** `makeAbsolute(uri)`: relative to `xml:base` when one is in force,
      otherwise to the catalog's folder. */
  function MakeAbsolute(files: Files, workDir: string, base: string, uri: string): string {
    if files.isAbsolute(base + uri) then base + uri
    else if base != "" then files.absolutePath(base, uri)
    else files.absolutePath(workDir, uri)
  }

  /** The dtd table after adopting target `uri`: a `.dtd` file is indexed by
      its bare name unless that name is taken. */
  function Adopted(files: Files, dtd: map<string, string>, uri: string): (r: map<string, string>)
    ensures dtd.Items <= r.Items
  {
    if EndsWith(uri, ".dtd") && files.name(uri) !in dtd then dtd[files.name(uri) := files.canonical(uri)] else dtd
  }

  /** A `system` entry: adopted when its id is new and its target exists. */
  function SystemEntry(files: Files, workDir: string, t: Tables, base: string, child: Element): (r: Tables)
    ensures Grows(t, r)
    ensures Validated(files, t) ==> Validated(files, r)
  {
    var id := AttributeValue(child, "systemId");
    if child.name == "system" && id !in t.system then
      var uri := MakeAbsolute(files, workDir, base, AttributeValue(child, "uri"));
      if uri in files.existing then t.(system := t.system[id := uri], dtd := Adopted(files, t.dtd, uri)) else t
    else t
  }

  /** The key a `public` entry is stored under. */
  function PublicKey(publicId: string): string {
    if StartsWith(publicId, UrnPrefix) then UnwrapUrn(publicId) else publicId
  }

  /** A `public` entry: the id is unwrapped first. */
  function PublicEntry(files: Files, workDir: string, t: Tables, base: string, child: Element): (r: Tables)
    ensures Grows(t, r)
    ensures Validated(files, t) ==> Validated(files, r)
  {
    var id := PublicKey(AttributeValue(child, "publicId"));
    if child.name == "public" && id !in t.public then
      var uri := MakeAbsolute(files, workDir, base, AttributeValue(child, "uri"));
      if uri in files.existing then t.(public := t.public[id := uri], dtd := Adopted(files, t.dtd, uri)) else t
    else t
  }

  /** A `uri` entry. */
  function UriEntry(files: Files, workDir: string, t: Tables, base: string, child: Element): (r: Tables)
    ensures Grows(t, r)
    ensures Validated(files, t) ==> Validated(files, r)
  {
    var id := AttributeValue(child, "name");
    if child.name == "uri" && id !in t.uri then
      var uri := MakeAbsolute(files, workDir, base, AttributeValue(child, "uri"));
      if uri in files.existing then t.(uri := t.uri[id := uri], dtd := Adopted(files, t.dtd, uri)) else t
    else t
  }

  /** `rewriteSystem` and `rewriteURI`: a freshly built pair is never
      `contains`-equal to a listed one, so it is always appended. */
  function RewriteEntries(files: Files, workDir: string, t: Tables, base: string, child: Element): (r: Tables)
    ensures Grows(t, r)
    ensures r.system == t.system && r.public == t.public && r.uri == t.uri && r.dtd == t.dtd
  {
    var s := if child.name == "rewriteSystem"
      then t.systemRewrites + [(AttributeValue(child, "systemIdStartString"), MakeAbsolute(files, workDir, base, AttributeValue(child, "rewritePrefix")))]
      else t.systemRewrites;
    var u := if child.name == "rewriteURI"
      then t.uriRewrites + [(AttributeValue(child, "uriStartString"), MakeAbsolute(files, workDir, base, AttributeValue(child, "rewritePrefix")))]
      else t.uriRewrites;
    t.(systemRewrites := s, uriRewrites := u)
  }

  /** The tables of `a` with the entries of `b` whose keys `a` lacks. */
  function FirstSeen(a: map<string, string>, b: map<string, string>): (r: map<string, string>)
    ensures a.Items <= r.Items && r.Keys == a.Keys + b.Keys
    ensures forall k :: k in r && k !in a ==> r[k] == b[k]
  {
    b + a
  }

  /** Merging a `nextCatalog`: first seen wins in each table, the dtd table
      takes the child's uri table (`getDtdCatalog` returns it), and the
      child's rules are appended. */
  function Merge(t: Tables, c: Tables): (r: Tables)
    ensures Grows(t, r)
  {
    Tables(FirstSeen(t.system, c.system), FirstSeen(t.public, c.public), FirstSeen(t.uri, c.uri),
           FirstSeen(t.dtd, c.uri), t.systemRewrites + c.systemRewrites, t.uriRewrites + c.uriRewrites)
  }

  lemma MergeValidated(files: Files, t: Tables, c: Tables)
    requires Validated(files, c)
    ensures Validated(files, t) ==> Validated(files, Merge(t, c))
  {
  }

  /** The folder a catalog's relative paths are resolved against: the
      parent of its absolute path, ending with the separator. */
  function WorkDir(files: Files, path: string): (r: Result<string>)
    ensures r.Ok? ==> EndsWith(r.value, Separator)
  {
    var file := if files.isAbsolute(path) then path else files.absolutePath(files.home, path);
    match files.parent(file)
    case None => Err(NullPointer)
    case Some(p) =>
      var w := if EndsWith(p, Separator) then p else p + Separator;
      assert EndsWith(w, Separator) by {
        if !EndsWith(p, Separator) {
          assert w[|w| - 1..] == Separator;
        }
      }
      Ok(w)
  }

  /** The base in force for a child and its subtree: its own `xml:base`,
      which must exist, made absolute and ending with the separator; or the
      enclosing one. */
  function ChildBase(files: Files, workDir: string, base: string, child: Element): Result<string> {
    var xb := AttributeValue(child, "xml:base");
    if xb == "" then Ok(base)
    else
      var b := if files.isAbsolute(xb) then xb else files.absolutePath(workDir, xb);
      if b !in files.existing then Err(IOError)
      else
        var nb := files.absolutePath(workDir, xb);
        Ok(if EndsWith(nb, Separator) then nb else nb + Separator)
  }

  /** `new Catalog(path)`: the tables its document and the catalogs it
      chains to build. `fuel` bounds the chain of `nextCatalog` files. */
  function Loaded(files: Files, path: string, fuel: nat): (r: Result<Tables>)
    ensures r.Ok? ==> Validated(files, r.value)
    decreases fuel, 0
  {
    if fuel == 0 then Err(Nontermination)
    else
      var workDir :- WorkDir(files, path);
      if path !in files.catalogs then Err(IOError)
      else WalkChildren(files, workDir, NoTables, "", files.catalogs[path], 0, fuel - 1)
  }

  /** A `nextCatalog` child: the chained catalog is loaded and merged. */
  function NextCatalog(files: Files, workDir: string, t: Tables, child: Element, fuel: nat): (r: Result<Tables>)
    ensures r.Ok? ==> Grows(t, r.value)
    ensures r.Ok? && Validated(files, t) ==> Validated(files, r.value)
    decreases fuel, 1
  {
    var path := AttributeValue(child, "catalog");
    var file := if files.isAbsolute(path) then path else files.absolutePath(workDir, path);
    var c :- Loaded(files, file, fuel);
    MergeValidated(files, t, c);
    Ok(Merge(t, c))
  }

  /** What one child adds to the tables. */
  function Entry(files: Files, workDir: string, t: Tables, base: string, child: Element, fuel: nat): (r: Result<Tables>)
    ensures r.Ok? ==> Grows(t, r.value)
    ensures r.Ok? && Validated(files, t) ==> Validated(files, r.value)
    decreases fuel, 2
  {
    var t1 := UriEntry(files, workDir, PublicEntry(files, workDir, SystemEntry(files, workDir, t, base, child), base, child), base, child);
    var t2 :- if child.name == "nextCatalog" then NextCatalog(files, workDir, t1, child, fuel) else Ok(t1);
    Ok(RewriteEntries(files, workDir, t2, base, child))
  }

  /** `recurse(e)` from its `i`-th child on: each child is entered with its
      own base, its subtree is walked with that base, and the enclosing base
      is back in force for the next child. */
  function WalkChildren(files: Files, workDir: string, t: Tables, base: string, e: Element, i: nat, fuel: nat): (r: Result<Tables>)
    requires i <= |Children(e.content)|
    ensures r.Ok? ==> Grows(t, r.value)
    ensures r.Ok? && Validated(files, t) ==> Validated(files, r.value)
    decreases fuel, 3, e, |Children(e.content)| - i
  {
    var cs := Children(e.content);
    if i == |cs| then Ok(t)
    else
      var child := cs[i];
      ChildrenMembers(e.content, "");
      assert Elem(child) in e.content;
      var b :- ChildBase(files, workDir, base, child);
      var t1 :- Entry(files, workDir, t, b, child, fuel);
      var t2 :- WalkChildren(files, workDir, t1, b, child, 0, fuel);
      WalkChildren(files, workDir, t2, base, e, i + 1, fuel)
  }

  // ---- lookups ----

  /** `matchPublic`: a `urn:publicid:` id is unwrapped before the lookup;
      `null` finds nothing. */
  function MatchPublic(public: map<string, string>, publicId: Option<string>): (r: Option<string>)
    ensures publicId.None? ==> r.None?
    ensures r.Some? <==> publicId.Some? && PublicKey(publicId.value) in public
    ensures r.Some? ==> r.value == public[PublicKey(publicId.value)]
  {
    match publicId
    case None => None
    case Some(id) =>
      var key := PublicKey(id);
      if key in public then Some(public[key]) else None
  }

  /** An id after the rewrite rules: every rule whose start string the id
      (as rewritten so far) begins with replaces that start by its prefix,
      in list order. */
  function Rewritten(id: string, rules: seq<(string, string)>): string
    decreases |rules|
  {
    if rules == [] then id
    else
      var x := Rewritten(id, rules[..|rules| - 1]);
      var rule := rules[|rules| - 1];
      if StartsWith(x, rule.0) then rule.1 + x[|rule.0|..] else x
  }

  /** Rules apply one list after the other. */
  lemma {:induction false} RewrittenAppend(id: string, a: seq<(string, string)>, b: seq<(string, string)>)
    ensures Rewritten(id, a + b) == Rewritten(Rewritten(id, a), b)
    decreases |b|
  {
    if b == [] {
      assert a + b == a;
    } else {
      assert (a + b)[..|a + b| - 1] == a + b[..|b| - 1];
      RewrittenAppend(id, a, b[..|b| - 1]);
    }
  }

  /** Rules that match nothing leave the id alone. */
  lemma {:induction false} RewrittenUnmatched(id: string, rules: seq<(string, string)>)
    requires forall k :: 0 <= k < |rules| ==> !StartsWith(id, rules[k].0)
    ensures Rewritten(id, rules) == id
    decreases |rules|
  {
    if rules != [] {
      RewrittenUnmatched(id, rules[..|rules| - 1]);
    }
  }

  /** Every matching rule applies, each to the id already rewritten: a rule
      can match the output of an earlier one, which a longest-prefix choice
      would not do. */
  lemma RewritesChain()
    ensures Rewritten("a:x", [("a:", "b:"), ("b:", "c:")]) == "c:x"
  {
    var rules := [("a:", "b:"), ("b:", "c:")];
    assert rules[..1] == [("a:", "b:")];
    assert [("a:", "b:")][..0] == [];
    assert "a:x"[..2] == "a:";
    assert Rewritten("a:x", rules[..1]) == "b:" + "a:x"[2..];
    assert "b:" + "a:x"[2..] == "b:x";
    assert "b:x"[..2] == "b:";
    assert "c:" + "b:x"[2..] == "c:x";
  }

  /** `matchSystem`: the rewritten id is looked up in the system table,
      then the file-system fall-backs are tried. */
  function MatchSystem(files: Files, t: Tables, documentParent: string, baseURI: Option<string>, systemId: Option<string>): (r: Option<string>)
    ensures systemId.None? ==> r.None?
    ensures systemId.Some? && Rewritten(systemId.value, t.systemRewrites) in t.system
            ==> r == Some(t.system[Rewritten(systemId.value, t.systemRewrites)])
  {
    match systemId
    case None => None
    case Some(id) =>
      var s := Rewritten(id, t.systemRewrites);
      if s in t.system then Some(t.system[s]) else files.locate(documentParent, baseURI, s)
  }

  /** `matchURI`: the same over the uri rules and table. */
  function MatchURI(files: Files, t: Tables, uri: Option<string>): (r: Result<Option<string>>)
    ensures uri.None? ==> r == Ok(None)
    ensures uri.Some? && Rewritten(uri.value, t.uriRewrites) in t.uri
            ==> r == Ok(Some(t.uri[Rewritten(uri.value, t.uriRewrites)]))
  {
    match uri
    case None => Ok(None)
    case Some(u) =>
      var s := Rewritten(u, t.uriRewrites);
      if s in t.uri then Ok(Some(t.uri[s])) else files.fileUri(s)
  }

  /** `new FileInputStream(location)`: the source, or the I/O error of a
      missing file. */
  function Opened(files: Files, location: string): (r: Result<Option<string>>)
    ensures r.Ok? <==> location in files.existing
    ensures r.Ok? ==> r.value == Some(location)
  {
    if location in files.existing then Ok(Some(location)) else Err(IOError)
  }

  /** The two-argument `resolveEntity`: public match, then system match,
      then nothing. */
  function Resolved(files: Files, t: Tables, documentParent: string, publicId: Option<string>, systemId: Option<string>): Result<Option<string>> {
    var p := MatchPublic(t.public, publicId);
    if p.Some? then Opened(files, p.value)
    else
      var s := MatchSystem(files, t, documentParent, None, systemId);
      if s.Some? then Opened(files, s.value) else Ok(None)
  }

  /** The direct URI resolution of the four-argument `resolveEntity`.  A
      `null` system id makes `resolve(null)` throw a `NullPointerException`,
      which the surrounding `catch` swallows, so nothing is found. */
  function DirectResolved(files: Files, baseURI: Option<string>, systemId: Option<string>): (r: Option<string>)
    ensures systemId.None? ==> r.None?
    ensures systemId.Some? ==> r == files.direct(baseURI, systemId)
  {
    if systemId.None? then None else files.direct(baseURI, systemId)
  }

  /** The four-argument `resolveEntity` up to the search of the system
      values: public match, system match, direct URI resolution, then the
      DTD entity indices. `None` when all of them fail. */
  function ResolvedKnown(files: Files, t: Tables, documentParent: string, dtdPublic: map<string, string>, dtdSystem: map<string, string>,
                         publicId: Option<string>, baseURI: Option<string>, systemId: Option<string>): Option<Result<Option<string>>> {
    var p := MatchPublic(t.public, publicId);
    if p.Some? then Some(Opened(files, p.value))
    else
      var s := MatchSystem(files, t, documentParent, baseURI, systemId);
      if s.Some? then Some(Opened(files, s.value))
      else
        var d := DirectResolved(files, baseURI, systemId);
        if d.Some? then Some(Ok(d))
        else if publicId.Some? && publicId.value in dtdPublic then Some(Opened(files, dtdPublic[publicId.value]))
        else if systemId.Some? && systemId.value in dtdSystem then Some(Opened(files, dtdSystem[systemId.value]))
        else None
  }

  /** A public match wins over everything else, in both forms. */
  lemma PublicFirst(files: Files, t: Tables, documentParent: string, dtdPublic: map<string, string>, dtdSystem: map<string, string>,
                    publicId: Option<string>, baseURI: Option<string>, systemId: Option<string>)
    requires publicId.Some? && PublicKey(publicId.value) in t.public
    ensures Resolved(files, t, documentParent, publicId, systemId) == Opened(files, t.public[PublicKey(publicId.value)])
    ensures ResolvedKnown(files, t, documentParent, dtdPublic, dtdSystem, publicId, baseURI, systemId)
         == Some(Opened(files, t.public[PublicKey(publicId.value)]))
  {
  }

  /** Without a public match, a system-table match comes next. */
  lemma SystemSecond(files: Files, t: Tables, documentParent: string, dtdPublic: map<string, string>, dtdSystem: map<string, string>,
                     publicId: Option<string>, baseURI: Option<string>, id: string)
    requires publicId.None? || PublicKey(publicId.value) !in t.public
    requires Rewritten(id, t.systemRewrites) in t.system
    ensures Resolved(files, t, documentParent, publicId, Some(id)) == Opened(files, t.system[Rewritten(id, t.systemRewrites)])
    ensures ResolvedKnown(files, t, documentParent, dtdPublic, dtdSystem, publicId, baseURI, Some(id))
         == Some(Opened(files, t.system[Rewritten(id, t.systemRewrites)]))
  {
  }

  /** The DTD indices are consulted only when the catalog and the direct
      resolution both fail, the public index before the system one. */
  lemma IndicesLast(files: Files, t: Tables, documentParent: string, dtdPublic: map<string, string>, dtdSystem: map<string, string>,
                    publicId: Option<string>, baseURI: Option<string>, systemId: Option<string>)
    requires MatchPublic(t.public, publicId).None? && MatchSystem(files, t, documentParent, baseURI, systemId).None?
    requires DirectResolved(files, baseURI, systemId).None?
    ensures var r := ResolvedKnown(files, t, documentParent, dtdPublic, dtdSystem, publicId, baseURI, systemId);
            (publicId.Some? && publicId.value in dtdPublic ==> r == Some(Opened(files, dtdPublic[publicId.value]))) &&
            (r.None? <==> (publicId.None? || publicId.value !in dtdPublic) && (systemId.None? || systemId.value !in dtdSystem))
  {
  }

  /** `getDTD(name)`. */
  function DTDFor(dtd: map<string, string>, name: Option<string>): (r: Option<string>)
    ensures r.Some? <==> name.Some? && name.value in dtd
    ensures r.Some? ==> r.value == dtd[name.value]
  {
    if name.Some? && name.value in dtd then Some(dtd[name.value]) else None
  }

  // ---- the DTD entity indices ----

  /** `computeIfAbsent(k, x -> v)` for each pair in order; a `null` value
      records nothing. */
  function PutAll(m: map<string, string>, pairs: seq<(string, Option<string>)>): map<string, string>
    decreases |pairs|
  {
    if pairs == [] then m
    else
      var r := PutAll(m, pairs[..|pairs| - 1]);
      var p := pairs[|pairs| - 1];
      if p.0 !in r && p.1.Some? then r[p.0 := p.1.value] else r
  }

  /** Old entries stay. */
  lemma {:induction false} PutAllKeeps(m: map<string, string>, pairs: seq<(string, Option<string>)>)
    ensures m.Items <= PutAll(m, pairs).Items
    decreases |pairs|
  {
    if pairs != [] {
      PutAllKeeps(m, pairs[..|pairs| - 1]);
    }
  }

  /** A key is there iff it was, or some pair with a value names it. */
  lemma {:induction false} PutAllKey(m: map<string, string>, pairs: seq<(string, Option<string>)>, k: string)
    ensures k in PutAll(m, pairs) <==> k in m || exists j :: 0 <= j < |pairs| && pairs[j].0 == k && pairs[j].1.Some?
    decreases |pairs|
  {
    if pairs != [] {
      var front := pairs[..|pairs| - 1];
      PutAllKey(m, front, k);
      if exists j :: 0 <= j < |pairs| && pairs[j].0 == k && pairs[j].1.Some? {
        var j :| 0 <= j < |pairs| && pairs[j].0 == k && pairs[j].1.Some?;
        if j < |front| {
          assert front[j] == pairs[j];
        }
      }
      if exists j :: 0 <= j < |front| && front[j].0 == k && front[j].1.Some? {
        var j :| 0 <= j < |front| && front[j].0 == k && front[j].1.Some?;
        assert pairs[j] == front[j];
      }
    }
  }

  /** A new key takes its value from the first pair with a value for it. */
  lemma {:induction false} PutAllFirst(m: map<string, string>, pairs: seq<(string, Option<string>)>, k: string)
    requires k in PutAll(m, pairs) && k !in m
    ensures exists j :: 0 <= j < |pairs| && pairs[j] == (k, Some(PutAll(m, pairs)[k])) &&
              forall i :: 0 <= i < j ==> pairs[i].0 != k || pairs[i].1.None?
    decreases |pairs|
  {
    var front := pairs[..|pairs| - 1];
    var r := PutAll(m, front);
    var u := PutAll(m, pairs);
    if k in r {
      PutAllFirst(m, front, k);
      var j :| 0 <= j < |front| && front[j] == (k, Some(r[k])) &&
               forall i :: 0 <= i < j ==> front[i].0 != k || front[i].1.None?;
      assert pairs[j] == front[j];
      assert forall i :: 0 <= i < j ==> pairs[i] == front[i];
    } else {
      PutAllKey(m, front, k);
      assert pairs[|pairs| - 1] == (k, Some(u[k]));
      forall i | 0 <= i < |pairs| - 1 ensures pairs[i].0 != k || pairs[i].1.None? {
        assert pairs[i] == front[i];
      }
    }
  }

  lemma PutAllSnoc(m: map<string, string>, pairs: seq<(string, Option<string>)>, p: (string, Option<string>))
    ensures PutAll(m, pairs + [p]) == var r := PutAll(m, pairs); if p.0 !in r && p.1.Some? then r[p.0 := p.1.value] else r
  {
    assert (pairs + [p])[..|pairs|] == pairs;
  }

  /** The pairs `parseDTD` hands to `addDtdPublicEntity`: public id, and the
      value resolved against the DTD's folder. */
  function PublicPairs(files: Files, dtd: string, entities: seq<EntityDecl>): (r: seq<(string, Option<string>)>)
    requires forall e :: e in entities ==> e.kind.Public?
    ensures |r| == |entities|
    ensures forall j :: 0 <= j < |entities| ==>
              r[j] == (entities[j].kind.publicId, Some(files.absolutePath(files.directory(dtd), entities[j].value)))
  {
    seq(|entities|, j requires 0 <= j < |entities| =>
      (entities[j].kind.publicId, Some(files.absolutePath(files.directory(dtd), entities[j].value))))
  }

  /** The pairs `parseDTD` hands to `addDtdSystemEntity`: value, and system
      id. */
  function SystemPairs(entities: seq<EntityDecl>): (r: seq<(string, Option<string>)>)
    ensures |r| == |entities|
    ensures forall j :: 0 <= j < |entities| ==> r[j] == (entities[j].value, entities[j].systemId)
  {
    seq(|entities|, j requires 0 <= j < |entities| => (entities[j].value, entities[j].systemId))
  }

  /** The tables a fresh DTD parser builds from `dtd`. */
  function DTDTables(files: Files, dtd: string, fuel: nat): Result<DTDParsing.Tables> {
    DTDParsing.ParseFile(files.dtd, DTDParsing.Tables(map[], map[], map[], map[]), dtd, fuel)
  }

  // ---- the catalog object ----

  /** `es` lists exactly the entities of `entities` of one kind: public when
      `public` holds, system otherwise. */
  predicate Lists(entities: map<string, EntityDecl>, es: seq<EntityDecl>, public: bool) {
    && (forall e :: e in es ==> (if public then e.kind.Public? else e.kind.System?) && e in entities.Values)
    && (forall k :: k in entities && (if public then entities[k].kind.Public? else entities[k].kind.System?) ==> entities[k] in es)
  }

  /** What the grammar's entity queries promise gives `Lists`. */
  lemma Listed(m: map<string, EntityDecl>, es: seq<EntityDecl>, keys: seq<string>, public: bool)
    requires |keys| == |es| && forall i :: 0 <= i < |keys| ==> keys[i] in m && es[i] == m[keys[i]]
    requires forall k :: k in m && (if public then m[k].kind.Public? else m[k].kind.System?) <==> k in keys
    ensures Lists(m, es, public)
  {
    forall e | e in es ensures (if public then e.kind.Public? else e.kind.System?) && e in m.Values {
      var i :| 0 <= i < |es| && es[i] == e;
      assert keys[i] in keys;
    }
    forall k | k in m && (if public then m[k].kind.Public? else m[k].kind.System?) ensures m[k] in es {
      var i :| 0 <= i < |keys| && keys[i] == k;
      assert es[i] == m[k];
    }
  }

  class Catalog {
    const files: Files
    const workDir: string
    var systemCatalog: map<string, string>
    var publicCatalog: map<string, string>
    var uriCatalog: map<string, string>
    var dtdCatalog: map<string, string>
    var systemRewrites: seq<(string, string)>
    var uriRewrites: seq<(string, string)>
    var base: string
    var documentParent: string
    var dtdPublicEntities: map<string, string>
    var dtdSystemEntities: map<string, string>
    var parsedDTDs: set<string>

    /** The catalog tables. */
    function Contents(): Tables
      reads this
    {
      Tables(systemCatalog, publicCatalog, uriCatalog, dtdCatalog, systemRewrites, uriRewrites)
    }

    /** The state that building the tables leaves alone. */
    function Side(): (string, map<string, string>, map<string, string>, set<string>)
      reads this
    {
      (documentParent, dtdPublicEntities, dtdSystemEntities, parsedDTDs)
    }

    /** The fields as the constructor sets them before reading the
        document; the lazily created maps and set start empty. */
    constructor Empty(files: Files, workDir: string)
      ensures this.files == files && this.workDir == workDir
      ensures Contents() == NoTables && base == ""
      ensures Side() == ("", map[], map[], {})
    {
      this.files := files;
      this.workDir := workDir;
      systemCatalog, publicCatalog, uriCatalog, dtdCatalog := map[], map[], map[], map[];
      systemRewrites, uriRewrites := [], [];
      base, documentParent := "", "";
      dtdPublicEntities, dtdSystemEntities, parsedDTDs := map[], map[], {};
    }

    /** `recurse(root)`: on success the tables are the walk's and the base
        is what it was. */
    method Recurse(root: Element, fuel: nat) returns (r: Result<()>)
      modifies this
      ensures var spec := WalkChildren(files, workDir, old(Contents()), old(base), root, 0, fuel);
              (r.Ok? <==> spec.Ok?) && (r.Ok? ==> Contents() == spec.value && base == old(base)) &&
              (r.Err? ==> r.error == spec.error)
      ensures Side() == old(Side())
      decreases fuel, 3, root
    {
      var children := GetChildren(root.content);
      ChildrenMembers(root.content, "");
      var i := 0;
      while i < |children|
        invariant i <= |children| && base == old(base) && Side() == old(Side())
        invariant WalkChildren(files, workDir, Contents(), base, root, i, fuel) == WalkChildren(files, workDir, old(Contents()), old(base), root, 0, fuel)
      {
        var child := children[i];
        assert Elem(child) in root.content;
        var currentBase := base;
        var b := ChildBase(files, workDir, base, child);
        if b.Err? {
          return Err(b.error);
        }
        base := b.value;
        var e := AddEntry(child, fuel);
        if e.Err? {
          return e;
        }
        var s := Recurse(child, fuel);
        if s.Err? {
          return s;
        }
        base := currentBase;
        i := i + 1;
      }
      return Ok(());
    }

    /** The tests of one child in `recurse`, in the source's order. */
    method AddEntry(child: Element, fuel: nat) returns (r: Result<()>)
      modifies this
      ensures var spec := Entry(files, workDir, old(Contents()), old(base), child, fuel);
              (r.Ok? <==> spec.Ok?) && (r.Ok? ==> Contents() == spec.value) && (r.Err? ==> r.error == spec.error)
      ensures base == old(base) && Side() == old(Side())
      decreases fuel, 2
    {
      AddSystem(child);
      AddPublic(child);
      AddUri(child);
      if child.name == "nextCatalog" {
        var next := AddNext(child, fuel);
        if next.Err? {
          return next;
        }
      }
      AddRewrites(child);
      r := Ok(());
    }

    /** A `system` child. */
    method AddSystem(child: Element)
      modifies this
      ensures Contents() == SystemEntry(files, workDir, old(Contents()), base, child)
      ensures base == old(base) && Side() == old(Side())
    {
      var id := AttributeValue(child, "systemId");
      if child.name == "system" && id !in systemCatalog {
        var uri := MakeAbsolute(files, workDir, base, AttributeValue(child, "uri"));
        if uri in files.existing {
          systemCatalog := systemCatalog[id := uri];
          dtdCatalog := Adopted(files, dtdCatalog, uri);
        }
      }
    }

    /** A `public` child, its id unwrapped first. */
    method AddPublic(child: Element)
      modifies this
      ensures Contents() == PublicEntry(files, workDir, old(Contents()), base, child)
      ensures base == old(base) && Side() == old(Side())
    {
      var publicId := UnwrapIfUrn(AttributeValue(child, "publicId"));
      if child.name == "public" && publicId !in publicCatalog {
        var uri := MakeAbsolute(files, workDir, base, AttributeValue(child, "uri"));
        if uri in files.existing {
          publicCatalog := publicCatalog[publicId := uri];
          dtdCatalog := Adopted(files, dtdCatalog, uri);
        }
      }
    }

    /** The test of `addPublic` that unwraps a `urn:publicid:` id. */
    static method UnwrapIfUrn(id: string) returns (publicId: string)
      ensures publicId == PublicKey(id)
    {
      publicId := id;
      if StartsWith(publicId, UrnPrefix) {
        publicId := UnwrapUrn(publicId);
      }
    }

    /** A `uri` child. */
    method AddUri(child: Element)
      modifies this
      ensures Contents() == UriEntry(files, workDir, old(Contents()), base, child)
      ensures base == old(base) && Side() == old(Side())
    {
      var name := AttributeValue(child, "name");
      if child.name == "uri" && name !in uriCatalog {
        var uri := MakeAbsolute(files, workDir, base, AttributeValue(child, "uri"));
        if uri in files.existing {
          uriCatalog := uriCatalog[name := uri];
          dtdCatalog := Adopted(files, dtdCatalog, uri);
        }
      }
    }

    /** A `nextCatalog` child: the chained catalog is built and merged. */
    method AddNext(child: Element, fuel: nat) returns (r: Result<()>)
      modifies this
      ensures var spec := NextCatalog(files, workDir, old(Contents()), child, fuel);
              (r.Ok? <==> spec.Ok?) && (r.Ok? ==> Contents() == spec.value) && (r.Err? ==> r.error == spec.error)
      ensures base == old(base) && Side() == old(Side())
      decreases fuel, 1
    {
      var path := AttributeValue(child, "catalog");
      if !files.isAbsolute(path) {
        path := files.absolutePath(workDir, path);
      }
      var cat := Open(files, path, fuel);
      if cat.Err? {
        return Err(cat.error);
      }
      var c := cat.value;
      MergeTables(c.systemCatalog, c.publicCatalog, c.uriCatalog, c.systemRewrites, c.uriRewrites);
      r := Ok(());
    }

    /** The four copy loops and the two rule loops of a `nextCatalog`
        merge; the chained catalog's uri table feeds the dtd table. */
    method MergeTables(system: map<string, string>, public: map<string, string>, uri: map<string, string>,
                       sRules: seq<(string, string)>, uRules: seq<(string, string)>)
      modifies this
      ensures Contents() == Merge(old(Contents()), Tables(system, public, uri, map[], sRules, uRules))
      ensures base == old(base) && Side() == old(Side())
    {
      systemCatalog := CopyAbsent(systemCatalog, system);
      publicCatalog := CopyAbsent(publicCatalog, public);
      uriCatalog := CopyAbsent(uriCatalog, uri);
      dtdCatalog := CopyAbsent(dtdCatalog, uri);
      systemRewrites := AppendRules(systemRewrites, sRules);
      uriRewrites := AppendRules(uriRewrites, uRules);
    }

    /** `rewriteSystem` and `rewriteURI` children. */
    method AddRewrites(child: Element)
      modifies this
      ensures Contents() == RewriteEntries(files, workDir, old(Contents()), base, child)
      ensures base == old(base) && Side() == old(Side())
    {
      if child.name == "rewriteSystem" {
        var uri := MakeAbsolute(files, workDir, base, AttributeValue(child, "rewritePrefix"));
        systemRewrites := systemRewrites + [(AttributeValue(child, "systemIdStartString"), uri)];
      }
      if child.name == "rewriteURI" {
        var uri := MakeAbsolute(files, workDir, base, AttributeValue(child, "rewritePrefix"));
        uriRewrites := uriRewrites + [(AttributeValue(child, "uriStartString"), uri)];
      }
    }

    /** `matchSystem(baseURI, systemId)`. */
    method MatchSystemId(baseURI: Option<string>, systemId: Option<string>) returns (r: Option<string>)
      ensures r == MatchSystem(files, Contents(), documentParent, baseURI, systemId)
    {
      if systemId.None? {
        return None;
      }
      var id := Rewrite(systemId.value, systemRewrites);
      if id in systemCatalog {
        return Some(systemCatalog[id]);
      }
      return files.locate(documentParent, baseURI, id);
    }

    /** `matchURI(uri)`. */
    method MatchUri(uri: Option<string>) returns (r: Result<Option<string>>)
      ensures r == MatchURI(files, Contents(), uri)
    {
      if uri.None? {
        return Ok(None);
      }
      var u := Rewrite(uri.value, uriRewrites);
      if u in uriCatalog {
        return Ok(Some(uriCatalog[u]));
      }
      return files.fileUri(u);
    }

    /** The two-argument `resolveEntity`. */
    method ResolveEntity(publicId: Option<string>, systemId: Option<string>) returns (r: Result<Option<string>>)
      ensures r == Resolved(files, Contents(), documentParent, publicId, systemId)
    {
      var location := MatchPublic(publicCatalog, publicId);
      if location.Some? {
        return Opened(files, location.value);
      }
      location := MatchSystemId(None, systemId);
      if location.Some? {
        return Opened(files, location.value);
      }
      return Ok(None);
    }

    /** The four-argument `resolveEntity`: after the known strategies, the
        first system-table value (in the table's iteration order) that ends
        with the system id; a `null` id fails on `endsWith` once a value is
        tried. */
    method ResolveEntityFully(name: string, publicId: Option<string>, baseURI: Option<string>, systemId: Option<string>)
      returns (r: Result<Option<string>>)
      ensures var known := ResolvedKnown(files, Contents(), documentParent, dtdPublicEntities, dtdSystemEntities, publicId, baseURI, systemId);
        && (known.Some? ==> r == known.value)
        && (known.None? && systemId.None? ==> r == if systemCatalog == map[] then Ok(None) else Err(NullPointer))
        && (known.None? && systemId.Some? ==>
              ((forall k :: k in systemCatalog ==> !EndsWith(systemCatalog[k], systemId.value)) ==> r == Ok(None)) &&
              ((exists k :: k in systemCatalog && EndsWith(systemCatalog[k], systemId.value)) ==>
                 exists k :: k in systemCatalog && EndsWith(systemCatalog[k], systemId.value) && r == Opened(files, systemCatalog[k])))
    {
      var location := MatchPublic(publicCatalog, publicId);
      if location.Some? {
        return Opened(files, location.value);
      }
      location := MatchSystemId(baseURI, systemId);
      if location.Some? {
        return Opened(files, location.value);
      }
      var direct := DirectResolved(files, baseURI, systemId);
      if direct.Some? {
        return Ok(direct);
      }
      if publicId.Some? && publicId.value in dtdPublicEntities {
        return Opened(files, dtdPublicEntities[publicId.value]);
      }
      if systemId.Some? && systemId.value in dtdSystemEntities {
        return Opened(files, dtdSystemEntities[systemId.value]);
      }
      var keys := systemCatalog.Keys;
      while keys != {}
        invariant keys <= systemCatalog.Keys
        invariant systemId.Some? ==> forall k :: k in systemCatalog && k !in keys ==> !EndsWith(systemCatalog[k], systemId.value)
        invariant systemId.None? ==> keys == systemCatalog.Keys
        decreases |keys|
      {
        var k :| k in keys;
        if systemId.None? {
          return Err(NullPointer);
        }
        if EndsWith(systemCatalog[k], systemId.value) {
          return Opened(files, systemCatalog[k]);
        }
        keys := keys - {k};
      }
      return Ok(None);
    }

    /** `getDTD(name)`. */
    method GetDTD(name: Option<string>) returns (r: Option<string>)
      ensures r == DTDFor(dtdCatalog, name)
    {
      if name.Some? && name.value in dtdCatalog {
        return Some(dtdCatalog[name.value]);
      }
      return None;
    }

    /** `currentDocumentBase(parentFile)`. */
    method CurrentDocumentBase(parentFile: string)
      modifies this
      ensures Side() == old(Side()).(0 := parentFile) && Contents() == old(Contents()) && base == old(base)
    {
      documentParent := parentFile;
    }

    /** `addDtdPublicEntity`: first seen wins. */
    method AddDtdPublicEntity(publicId: string, path: string)
      modifies this
      ensures dtdPublicEntities == PutAll(old(dtdPublicEntities), [(publicId, Some(path))])
      ensures Contents() == old(Contents()) && base == old(base) && documentParent == old(documentParent)
      ensures dtdSystemEntities == old(dtdSystemEntities) && parsedDTDs == old(parsedDTDs)
    {
      assert [(publicId, Some(path))][..0] == [];
      if publicId !in dtdPublicEntities {
        dtdPublicEntities := dtdPublicEntities[publicId := path];
      }
    }

    /** `addDtdSystemEntity`: first seen wins, and a `null` path records
        nothing. */
    method AddDtdSystemEntity(systemId: string, path: Option<string>)
      modifies this
      ensures dtdSystemEntities == PutAll(old(dtdSystemEntities), [(systemId, path)])
      ensures Contents() == old(Contents()) && base == old(base) && documentParent == old(documentParent)
      ensures dtdPublicEntities == old(dtdPublicEntities) && parsedDTDs == old(parsedDTDs)
    {
      assert [(systemId, path)][..0] == [];
      if systemId !in dtdSystemEntities && path.Some? {
        dtdSystemEntities := dtdSystemEntities[systemId := path.value];
      }
    }

    /** The public entities of a parsed DTD into the public index, their
        values resolved against the DTD's folder. */
    method IndexPublic(g: Grammar, dtd: string) returns (ghost publics: seq<EntityDecl>)
      modifies this
      ensures Lists(g.entitiesMap, publics, true)
      ensures dtdPublicEntities == PutAll(old(dtdPublicEntities), PublicPairs(files, dtd, publics))
      ensures Contents() == old(Contents()) && base == old(base) && documentParent == old(documentParent)
      ensures dtdSystemEntities == old(dtdSystemEntities) && parsedDTDs == old(parsedDTDs)
    {
      var pubs, keys := g.GetPublicEntities();
      Listed(g.entitiesMap, pubs, keys, true);
      publics := pubs;
      var dir := files.directory(dtd);
      for j := 0 to |pubs|
        invariant dtdPublicEntities == PutAll(old(dtdPublicEntities), PublicPairs(files, dtd, pubs[..j]))
        invariant Contents() == old(Contents()) && base == old(base) && documentParent == old(documentParent)
        invariant dtdSystemEntities == old(dtdSystemEntities) && parsedDTDs == old(parsedDTDs)
      {
        PublicIndexStep(old(dtdPublicEntities), files, dtd, pubs, j);
        AddDtdPublicEntity(pubs[j].kind.publicId, files.absolutePath(dir, pubs[j].value));
      }
      assert pubs[..|pubs|] == pubs;
    }

    /** The system entities of a parsed DTD into the system index, keyed by
        their value. */
    method IndexSystem(g: Grammar) returns (ghost systems: seq<EntityDecl>)
      modifies this
      ensures Lists(g.entitiesMap, systems, false)
      ensures dtdSystemEntities == PutAll(old(dtdSystemEntities), SystemPairs(systems))
      ensures Contents() == old(Contents()) && base == old(base) && documentParent == old(documentParent)
      ensures dtdPublicEntities == old(dtdPublicEntities) && parsedDTDs == old(parsedDTDs)
    {
      var syss, keys := g.GetSystemEntities();
      Listed(g.entitiesMap, syss, keys, false);
      systems := syss;
      for j := 0 to |syss|
        invariant dtdSystemEntities == PutAll(old(dtdSystemEntities), SystemPairs(syss[..j]))
        invariant Contents() == old(Contents()) && base == old(base) && documentParent == old(documentParent)
        invariant dtdPublicEntities == old(dtdPublicEntities) && parsedDTDs == old(parsedDTDs)
      {
        SystemIndexStep(old(dtdSystemEntities), syss, j);
        AddDtdSystemEntity(syss[j].value, syss[j].systemId);
      }
      assert syss[..|syss|] == syss;
    }

    /** `parseDTD(publicId)`: the DTD the public id maps to is parsed once;
        its entities feed the two indices; a checked parse error is
        swallowed (the DTD still counts as scanned) and an unchecked one
        escapes. `publics` and `systems` are the entity lists in the order
        the grammar yielded them. */
    method ParseDTD(publicId: Option<string>, fuel: nat) returns (r: Result<()>, ghost publics: seq<EntityDecl>, ghost systems: seq<EntityDecl>)
      modifies this
      ensures Contents() == old(Contents()) && base == old(base) && documentParent == old(documentParent)
      ensures var d := MatchPublic(old(publicCatalog), publicId);
        (d.None? || d.value in old(parsedDTDs) ==> r == Ok(()) && Side() == old(Side()))
      ensures var d := MatchPublic(old(publicCatalog), publicId);
        d.Some? && d.value !in old(parsedDTDs) ==>
          var spec := DTDTables(files, d.value, fuel);
          && (spec.Err? && !spec.error.IsChecked() ==> r == Err(spec.error) && Side() == old(Side()))
          && (spec.Err? && spec.error.IsChecked() ==> r == Ok(()) && Side() == old(Side()).(3 := old(parsedDTDs) + {d.value}))
          && (spec.Ok? ==>
                && r == Ok(()) && parsedDTDs == old(parsedDTDs) + {d.value}
                && Lists(spec.value.entities, publics, true) && Lists(spec.value.entities, systems, false)
                && dtdPublicEntities == PutAll(old(dtdPublicEntities), PublicPairs(files, d.value, publics))
                && dtdSystemEntities == PutAll(old(dtdSystemEntities), SystemPairs(systems)))
    {
      publics, systems := [], [];
      var dtd := MatchPublic(publicCatalog, publicId);
      if dtd.None? || dtd.value in parsedDTDs {
        return Ok(()), publics, systems;
      }
      var parser := new DTDParsing.DTDParser(files.dtd);
      var grammar := parser.Parse(dtd.value, fuel);
      if grammar.Err? {
        if !grammar.error.IsChecked() {
          return Err(grammar.error), publics, systems;
        }
      } else {
        publics := IndexPublic(grammar.value, dtd.value);
        systems := IndexSystem(grammar.value);
      }
      parsedDTDs := parsedDTDs + {dtd.value};
      r := Ok(());
    }
  }

  lemma PublicPairsSnoc(files: Files, dtd: string, entities: seq<EntityDecl>, j: nat)
    requires j < |entities| && forall e :: e in entities ==> e.kind.Public?
    ensures forall e :: e in entities[..j + 1] ==> e.kind.Public?
    ensures forall e :: e in entities[..j] ==> e.kind.Public?
    ensures PublicPairs(files, dtd, entities[..j + 1])
         == PublicPairs(files, dtd, entities[..j]) + [(entities[j].kind.publicId, Some(files.absolutePath(files.directory(dtd), entities[j].value)))]
  {
    assert forall e :: e in entities[..j + 1] ==> e in entities;
    assert forall e :: e in entities[..j] ==> e in entities;
  }

  /** One more public entity is one more `addDtdPublicEntity`. */
  lemma PublicIndexStep(m: map<string, string>, files: Files, dtd: string, entities: seq<EntityDecl>, j: nat)
    requires j < |entities| && forall e :: e in entities ==> e.kind.Public?
    ensures forall e :: e in entities[..j + 1] ==> e.kind.Public?
    ensures forall e :: e in entities[..j] ==> e.kind.Public?
    ensures PutAll(m, PublicPairs(files, dtd, entities[..j + 1]))
         == PutAll(PutAll(m, PublicPairs(files, dtd, entities[..j])),
                   [(entities[j].kind.publicId, Some(files.absolutePath(files.directory(dtd), entities[j].value)))])
  {
    var p := (entities[j].kind.publicId, Some(files.absolutePath(files.directory(dtd), entities[j].value)));
    PublicPairsSnoc(files, dtd, entities, j);
    PutAllSnoc(m, PublicPairs(files, dtd, entities[..j]), p);
    PutAllOne(PutAll(m, PublicPairs(files, dtd, entities[..j])), p);
  }

  /** One more system entity is one more `addDtdSystemEntity`. */
  lemma SystemIndexStep(m: map<string, string>, entities: seq<EntityDecl>, j: nat)
    requires j < |entities|
    ensures PutAll(m, SystemPairs(entities[..j + 1]))
         == PutAll(PutAll(m, SystemPairs(entities[..j])), [(entities[j].value, entities[j].systemId)])
  {
    var p := (entities[j].value, entities[j].systemId);
    assert SystemPairs(entities[..j + 1]) == SystemPairs(entities[..j]) + [p];
    PutAllSnoc(m, SystemPairs(entities[..j]), p);
    PutAllOne(PutAll(m, SystemPairs(entities[..j])), p);
  }

  lemma PutAllOne(m: map<string, string>, p: (string, Option<string>))
    ensures PutAll(m, [p]) == if p.0 !in m && p.1.Some? then m[p.0 := p.1.value] else m
  {
    assert [p][..0] == [];
  }

  /** The copy loop of a `nextCatalog` merge for one table. */
  method CopyAbsent(mine: map<string, string>, theirs: map<string, string>) returns (r: map<string, string>)
    ensures r == FirstSeen(mine, theirs)
  {
    r := mine;
    var keys := theirs.Keys;
    while keys != {}
      invariant keys <= theirs.Keys
      invariant r == (map k | k in theirs && k !in keys :: theirs[k]) + mine
      decreases |keys|
    {
      var key :| key in keys;
      if key !in r {
        r := r[key := theirs[key]];
      }
      keys := keys - {key};
    }
    assert (map k | k in theirs && k !in keys :: theirs[k]) == theirs;
  }

  /** The rule-copy loop of a `nextCatalog` merge. */
  method AppendRules(mine: seq<(string, string)>, theirs: seq<(string, string)>) returns (r: seq<(string, string)>)
    ensures r == mine + theirs
  {
    r := mine;
    for h := 0 to |theirs|
      invariant r == mine + theirs[..h]
    {
      assert theirs[..h + 1] == theirs[..h] + [theirs[h]];
      r := r + [theirs[h]];
    }
    assert theirs[..|theirs|] == theirs;
  }

  /** The rewrite loop of `matchSystem` and `matchURI`. */
  method Rewrite(id: string, rules: seq<(string, string)>) returns (r: string)
    ensures r == Rewritten(id, rules)
  {
    r := id;
    for i := 0 to |rules|
      invariant r == Rewritten(id, rules[..i])
    {
      assert rules[..i + 1][..i] == rules[..i];
      var pair := rules[i];
      if StartsWith(r, pair.0) {
        r := pair.1 + r[|pair.0|..];
      }
    }
    assert rules[..|rules|] == rules;
  }

  /** `new Catalog(path)`: the folder, the document, and the walk over its
      root. */
  method Open(files: Files, path: string, fuel: nat) returns (r: Result<Catalog>)
    ensures var spec := Loaded(files, path, fuel);
            (r.Ok? <==> spec.Ok?) && (r.Err? ==> r.error == spec.error)
    ensures r.Ok? ==> fresh(r.value) && r.value.files == files && r.value.Contents() == Loaded(files, path, fuel).value
    ensures r.Ok? ==> r.value.base == "" && r.value.Side() == ("", map[], map[], {})
    decreases fuel, 0
  {
    if fuel == 0 {
      return Err(Nontermination);
    }
    var workDir := WorkDir(files, path);
    if workDir.Err? {
      return Err(workDir.error);
    }
    if path !in files.catalogs {
      return Err(IOError);
    }
    var root := files.catalogs[path];
    var c := new Catalog.Empty(files, workDir.value);
    var walk := c.Recurse(root, fuel - 1);
    if walk.Err? {
      return Err(walk.error);
    }
    return Ok(c);
  }

  /** The cache of catalogs by path string. */
  class CatalogBuilder {
    var cache: map<string, Catalog>

    constructor ()
      ensures cache == map[]
    {
      cache := map[];
    }

    /** `getCatalog(file)`: a catalog is built only for a path not yet in
        the cache; a cached one is handed out again; the cache only grows. */
    method GetCatalog(files: Files, file: string, fuel: nat) returns (r: Result<Catalog>)
      modifies this
      ensures file in old(cache) ==> r == Ok(old(cache)[file]) && cache == old(cache)
      ensures file !in old(cache) ==> (r.Ok? <==> Loaded(files, file, fuel).Ok?)
      ensures file !in old(cache) && r.Ok? ==>
                fresh(r.value) && cache == old(cache)[file := r.value] && r.value.Contents() == Loaded(files, file, fuel).value
      ensures r.Err? ==> cache == old(cache)
      ensures old(cache).Keys <= cache.Keys && forall k :: k in old(cache) ==> cache[k] == old(cache)[k]
    {
      if file !in cache {
        var c :- Open(files, file, fuel);
        cache := cache[file := c];
      }
      return Ok(cache[file]);
    }
  }
}
