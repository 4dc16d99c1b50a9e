/** `<!ENTITY>` declarations (production [70] EntityDecl, section 4.2 of
    XML 1.0): the constructor's scanner, `toString`, and the round trip
    between them. */
module EntityDecls {
  import opened Wrappers
  import opened JavaStrings
  import opened XMLUtils
  import opened Scanning

  /** The `type` field; a PUBLIC entity also carries its public identifier. */
  datatype EntityKind = Internal | System | Public(publicId: string)

  datatype EntityDecl = EntityDecl(
    name: string,
    kind: EntityKind,
    value: string,
    systemId: Option<string>,
    ndataValue: Option<string>,
    parameterEntity: bool)

  /** `getType()`: the constant naming the kind. */
  function TypeName(e: EntityDecl): (r: string)
    ensures r == "SYSTEM" <==> e.kind.System?
    ensures r == "PUBLIC" <==> e.kind.Public?
    ensures r == "INTERNAL" <==> e.kind.Internal?
  {
    match e.kind
    case Internal => "INTERNAL"
    case System => "SYSTEM"
    case Public(_) => "PUBLIC"
  }

  /** `getPublicId()`: null unless the entity is PUBLIC. */
  function PublicId(e: EntityDecl): (r: Option<string>)
    ensures r.Some? <==> e.kind.Public?
    ensures r.Some? ==> e.kind == Public(r.value)
  {
    if e.kind.Public? then Some(e.kind.publicId) else None
  }

  /** `setSystemId(id)`: the system identifier changes and nothing else. */
  function SetSystemId(e: EntityDecl, id: string): (r: EntityDecl)
    ensures r.systemId == Some(id)
    ensures r.(systemId := e.systemId) == e
  {
    e.(systemId := Some(id))
  }

  // ---------------------------------------------------------------------
  // The constructor

  /** `value.substring(1, value.length() - 1)`: a literal without its delimiters. */
  function Unquote(v: string): (r: Result<string>)
    ensures r.Ok? <==> |v| >= 2
    ensures r.Ok? ==> v == [v[0]] + r.value + [v[|v| - 1]]
  {
    var r := Substring(v, 1, |v| - 1);
    if r.Ok? then
      assert v == [v[0]] + v[1..|v| - 1] + [v[|v| - 1]];
      r
    else r
  }

  /** What the constructor reads from the text after the name. */
  datatype Fields = Fields(kind: EntityKind, value: string, ndata: Option<string>)

  /** The two literals after "PUBLIC" of a parameter entity: the public
      identifier runs from after the opening delimiter to its next
      occurrence, and the system literal is the stripped rest unquoted. */
  function ExternalLiterals(r2: string): (r: Result<(string, string)>)
    ensures r.Ok? ==> 1 + |r.value.0| < |r2| && r2[0] !in r.value.0 && r2[1 + |r.value.0|] == r2[0]
  {
    var delimiter :- CharAt(r2, 0);
    var k :- FirstCharFrom(r2, 1, delimiter);
    var publicId := r2[1..k];
    var v :- Unquote(Strip(r2[|publicId| + 2..]));
    Ok((publicId, v))
  }

  /** The fields of a parameter entity declared PUBLIC, from the stripped
      text after the keyword. */
  function PublicFields(r2: string): (r: Result<Fields>)
    ensures r.Ok? ==> r.value.kind.Public? && r.value.ndata.None?
    ensures r.Ok? ==> ExternalLiterals(r2) == Ok((r.value.kind.publicId, r.value.value))
  {
    var literals :- ExternalLiterals(r2);
    Ok(Fields(Public(literals.0), literals.1, None))
  }

  /** The branch for a parameter entity (`<!ENTITY % ...`), read from the
      stripped text `rest` between the name and the final `>`. */
  function ParameterFields(rest: string): (r: Result<Fields>)
    ensures r.Ok? ==> r.value.ndata.None?
    ensures r.Ok? ==> (r.value.kind.System? <==> Contains(rest, "SYSTEM"))
    ensures r.Ok? ==> (r.value.kind.Public? <==> !Contains(rest, "SYSTEM") && Contains(rest, "PUBLIC"))
  {
    var si := IndexOf(rest, "SYSTEM");
    if si != -1 then
      var v :- Unquote(Strip(rest[si + 6..]));
      Ok(Fields(System, v, None))
    else
      var pi := IndexOf(rest, "PUBLIC");
      if pi != -1 then
        PublicFields(Strip(rest[pi + 6..]))
      else
        var v :- Unquote(Strip(rest));
        Ok(Fields(Internal, v, None))
  }

  /** The branch for a general entity.  The PUBLIC case drops the length of
      "PUBLIC" twice and, without NDATA, keeps the whole remainder as value. */
  function GeneralFields(rest: string): (r: Result<Fields>)
    ensures r.Ok? ==> (r.value.kind.System? <==> Contains(rest, "SYSTEM"))
    ensures r.Ok? ==> (r.value.kind.Public? <==> !Contains(rest, "SYSTEM") && Contains(rest, "PUBLIC"))
    ensures r.Ok? && r.value.kind.Internal? ==> r.value.ndata.None?
  {
    var si := IndexOf(rest, "SYSTEM");
    if si != -1 then
      var r2 := Strip(rest[si + 6..]);
      var ni := IndexOf(r2, "NDATA");
      if ni == -1 then
        var v :- Unquote(r2);
        Ok(Fields(System, v, None))
      else
        var v :- Unquote(Strip(r2[..ni]));
        Ok(Fields(System, v, Some(Strip(r2[ni + 5..]))))
    else if IndexOf(rest, "PUBLIC") != -1 then
      var r2 :- SubstringFrom(Strip(rest[6..]), 6);
      var r3 := Strip(r2);
      var delimiter :- CharAt(r3, 0);
      var k :- FirstCharFrom(r3, 1, delimiter);
      var publicId := r3[1..k];
      var ni := IndexOf(r3, "NDATA");
      if ni == -1 then
        Ok(Fields(Public(publicId), r3, None))
      else
        var v0 :- Substring(r3, |publicId| + 2, ni);
        var v :- Unquote(Strip(v0));
        Ok(Fields(Public(publicId), v, Some(Strip(r3[ni + 5..]))))
    else
      var v :- Unquote(Strip(rest));
      Ok(Fields(Internal, v, None))
  }

  /** The cursor part of the constructor: whether a `%` follows the keyword,
      where the name starts, and the white space that ends it. */
  function NameScan(d: string): (r: Result<(bool, nat, nat)>)
    ensures r.Ok? ==> 8 <= r.value.1 < r.value.2 < |d|
    ensures r.Ok? ==> IsXmlSpace(d[r.value.2])
    ensures r.Ok? ==> forall k :: r.value.1 <= k < r.value.2 ==> !IsXmlSpace(d[k])
  {
    var i0 :- FirstFrom(d, 8, NotXmlSpace);
    var pe := d[i0] == '%';
    var i1 :- if pe then FirstFrom(d, i0 + 1, NotXmlSpace) else Ok(i0);
    var i2 :- FirstFrom(d, i1, IsXmlSpace);
    Ok((pe, i1, i2))
  }

  /** What the constructor reads from the text after the name: the
      branch of a parameter or of a general entity. */
  function FieldsOf(rest: string, pe: bool): Result<Fields> {
    if pe then ParameterFields(rest) else GeneralFields(rest)
  }

  /** `new EntityDecl(declaration)`. */
  function EntityDeclOf(d: string): (r: Result<EntityDecl>)
    ensures r.Ok? ==> r.value.systemId.None?
    ensures r.Ok? ==> |r.value.name| > 0 && NoXmlSpace(r.value.name)
    ensures r.Ok? && r.value.ndataValue.Some? ==> !r.value.parameterEntity && !r.value.kind.Internal?
  {
    var (pe, i1, i2) :- NameScan(d);
    var rest := Strip(d[i2..|d| - 1]);
    var f :- FieldsOf(rest, pe);
    RunWithoutSpace(d, i1, i2);
    Ok(EntityDecl(d[i1..i2], f.kind, f.value, None, f.ndata, pe))
  }

  /** The constructor, advancing its cursor the way the source does. */
  method Parse(declaration: string) returns (r: Result<EntityDecl>)
    ensures r == EntityDeclOf(declaration)
  {
    var i :- ScanTo(declaration, 8, NotXmlSpace);
    var parameterEntity := false;
    if declaration[i] == '%' {
      parameterEntity := true;
      i :- ScanTo(declaration, i + 1, NotXmlSpace);
    }
    var start := i;
    i :- ScanTo(declaration, i, IsXmlSpace);
    var name := declaration[start..i];
    var rest := Strip(declaration[i..|declaration| - 1]);
    var fields :- if parameterEntity then ParameterFields(rest) else GeneralFields(rest);
    r := Ok(EntityDecl(name, fields.kind, fields.value, None, fields.ndata, parameterEntity));
  }

  // ---------------------------------------------------------------------
  // toString

  /** The literal delimiter: `"` unless the text contains one. */
  function Delimiter(text: string): (r: char)
    ensures r == '"' <==> '"' !in text
    ensures r == '"' || r == '\''
  {
    IndexOfChar(text, '"');
    if IndexOf(text, "\"") == -1 then '"' else '\''
  }

  function Quoted(text: string): string {
    var q := Delimiter(text);
    [q] + text + [q]
  }

  function NdataSuffix(ndata: Option<string>): string {
    if ndata.Some? then " NDATA " + ndata.value else ""
  }

  /** The text after the name and its space, before the final `>`. */
  function Body(e: EntityDecl): string {
    match e.kind
    case Internal => Quoted(e.value)
    case System => "SYSTEM " + Quoted(e.value) + NdataSuffix(e.ndataValue)
    case Public(pid) =>
      var q := Delimiter(pid);
      "PUBLIC " + [q] + pid + [q] + " " + [q] + e.value + [q] + NdataSuffix(e.ndataValue)
  }

  function Prefix(e: EntityDecl): string {
    "<!ENTITY " + (if e.parameterEntity then "% " else "")
  }

  /** `toString()`. */
  function ToString(e: EntityDecl): (r: string)
    ensures StartsWith(r, "<!ENTITY ") && r[|r| - 1] == '>'
    ensures e.parameterEntity ==> StartsWith(r, "<!ENTITY % ")
    ensures !e.parameterEntity && (|e.name| == 0 || e.name[0] != '%') ==> !StartsWith(r, "<!ENTITY %")
  {
    var r := Prefix(e) + e.name + " " + Body(e) + ">";
    assert r[..9] == "<!ENTITY ";
    assert e.parameterEntity ==> r[..11] == "<!ENTITY % ";
    assert !e.parameterEntity ==> r[9] == if |e.name| == 0 then ' ' else e.name[0];
    r
  }

  // ---------------------------------------------------------------------
  // Round trip

  /** The declarations that `toString` writes in a form the constructor reads
      back unchanged: a name without white space (and without a leading `%`
      for a general entity), no system identifier, no NDATA part, and no
      keyword of a later branch inside the literals. */
  predicate ReadsBack(e: EntityDecl) {
    && |e.name| > 0 && NoXmlSpace(e.name)
    && (!e.parameterEntity ==> e.name[0] != '%')
    && e.systemId.None? && e.ndataValue.None?
    && match e.kind
       case Internal => !Contains(e.value, "SYSTEM") && !Contains(e.value, "PUBLIC")
       case System => !e.parameterEntity ==> !Contains(e.value, "NDATA")
       case Public(pid) =>
         && e.parameterEntity
         && !Contains(pid, "SYSTEM") && !Contains(e.value, "SYSTEM")
         && !('"' in pid && '\'' in pid)
  }

  /** The same over the written pieces: a prefix, the name, a space, the
      body and `>`. */
  lemma NameScanWritten(p: string, n: string, b: string, pe: bool)
    requires p == "<!ENTITY " + (if pe then "% " else "")
    requires |n| > 0 && NoXmlSpace(n) && (!pe ==> n[0] != '%')
    ensures var d := p + n + " " + b + ">";
      NameScan(d) == Ok((pe, |p|, |p| + |n|))
      && d[|p|..|p| + |n|] == n
      && d[|p| + |n|..|d| - 1] == " " + b
  {
    var d := p + n + " " + b + ">";
    var l := |p|;
    assert d[l..l + |n|] == n;
    assert d[l + |n|..|d| - 1] == " " + b;
    NameEnd(d, l, n);
    if pe {
      assert d[8] == ' ' && d[9] == '%' && d[10] == ' ';
      FirstFromAt(d, 8, 9, NotXmlSpace);
      FirstFromAt(d, 10, 11, NotXmlSpace);
      NameScanSteps(d, 9, 11, l + |n|, true);
    } else {
      assert d[8] == ' ' && d[9] == n[0];
      FirstFromAt(d, 8, 9, NotXmlSpace);
      NameScanSteps(d, 9, 9, l + |n|, false);
    }
  }

  /** The name runs from `l` to the space written after it. */
  lemma NameEnd(d: string, l: nat, n: string)
    requires |n| > 0 && NoXmlSpace(n) && l + |n| < |d|
    requires d[l..l + |n|] == n && d[l + |n|] == ' '
    ensures FirstFrom(d, l, IsXmlSpace) == Ok(l + |n|)
  {
    assert forall k :: l <= k < l + |n| ==> d[k] == n[k - l];
    FirstFromAt(d, l, l + |n|, IsXmlSpace);
  }

  /** The name scan, given where each of its three searches stops. */
  lemma NameScanSteps(d: string, i0: nat, i1: nat, i2: nat, pe: bool)
    requires FirstFrom(d, 8, NotXmlSpace) == Ok(i0) && i0 < |d| && (d[i0] == '%' <==> pe)
    requires pe ==> FirstFrom(d, i0 + 1, NotXmlSpace) == Ok(i1)
    requires !pe ==> i1 == i0
    requires FirstFrom(d, i1, IsXmlSpace) == Ok(i2)
    ensures NameScan(d) == Ok((pe, i1, i2))
  {
  }

  /** A quoted literal neither starts nor ends with white space. */
  lemma QuotedEnds(v: string)
    ensures |Quoted(v)| >= 2
    ensures !IsWhitespace(Quoted(v)[0]) && !IsWhitespace(Quoted(v)[|Quoted(v)| - 1])
    ensures Quoted(v)[1..|Quoted(v)| - 1] == v
  {
  }

  /** A keyword free of quotes and spaces is absent from a quoted literal
      that does not contain it. */
  lemma KeywordNotInQuoted(v: string, t: string)
    requires t == "SYSTEM" || t == "PUBLIC" || t == "NDATA"
    requires !Contains(v, t)
    ensures forall k :: !OccursAt(Quoted(v), t, k)
  {
    IndexOfMissing(v, t);
    NotInWrapped(v, Delimiter(v), t);
  }

  /** The constructor reads the written name, then the written body. */
  lemma ReadsBackFromBody(e: EntityDecl)
    requires |e.name| > 0 && NoXmlSpace(e.name)
    requires !e.parameterEntity ==> e.name[0] != '%'
    requires e.systemId.None?
    requires |Body(e)| > 0 && !IsWhitespace(Body(e)[0]) && !IsWhitespace(Body(e)[|Body(e)| - 1])
    requires FieldsOf(Body(e), e.parameterEntity) == Ok(Fields(e.kind, e.value, e.ndataValue))
    ensures EntityDeclOf(ToString(e)) == Ok(e)
  {
    ReadsBackWritten(Prefix(e), e.name, Body(e), e.parameterEntity, Fields(e.kind, e.value, e.ndataValue));
  }

  /** The same over the written pieces. */
  lemma ReadsBackWritten(p: string, n: string, b: string, pe: bool, f: Fields)
    requires p == "<!ENTITY " + (if pe then "% " else "")
    requires |n| > 0 && NoXmlSpace(n) && (!pe ==> n[0] != '%')
    requires |b| > 0 && !IsWhitespace(b[0]) && !IsWhitespace(b[|b| - 1])
    requires FieldsOf(b, pe) == Ok(f)
    ensures EntityDeclOf(p + n + " " + b + ">") == Ok(EntityDecl(n, f.kind, f.value, None, f.ndata, pe))
  {
    NameScanWritten(p, n, b, pe);
    StripSpaced(b);
    ReadText(p + n + " " + b + ">", |p|, |p| + |n|, b, pe, f);
  }

  /** The constructor over a text whose name scan and body are known. */
  lemma ReadText(d: string, i1: nat, i2: nat, b: string, pe: bool, f: Fields)
    requires NameScan(d) == Ok((pe, i1, i2))
    requires Strip(d[i2..|d| - 1]) == b && FieldsOf(b, pe) == Ok(f)
    ensures EntityDeclOf(d) == Ok(EntityDecl(d[i1..i2], f.kind, f.value, None, f.ndata, pe))
  {
  }

  lemma FieldsOfInternal(e: EntityDecl)
    requires ReadsBack(e) && e.kind.Internal?
    ensures FieldsOf(Body(e), e.parameterEntity) == Ok(Fields(e.kind, e.value, e.ndataValue))
  {
    var b := Quoted(e.value);
    QuotedEnds(e.value);
    StripSpaced(b);
    KeywordNotInQuoted(e.value, "SYSTEM");
    KeywordNotInQuoted(e.value, "PUBLIC");
    assert IndexOf(b, "SYSTEM") == -1 && IndexOf(b, "PUBLIC") == -1;
  }

  lemma SystemBody(e: EntityDecl)
    requires ReadsBack(e) && e.kind.System?
    ensures var b := Body(e); var q := Quoted(e.value);
      && b == "SYSTEM " + q && |q| >= 2 && q[1..|q| - 1] == e.value
      && !IsWhitespace(q[0]) && !IsWhitespace(q[|q| - 1])
      && !IsWhitespace(b[0]) && !IsWhitespace(b[|b| - 1])
  {
    var q := Quoted(e.value);
    QuotedEnds(e.value);
    var b := "SYSTEM " + q;
    assert b[|b| - 1] == q[|q| - 1];
  }

  lemma FieldsOfSystem(e: EntityDecl)
    requires ReadsBack(e) && e.kind.System?
    ensures FieldsOf(Body(e), e.parameterEntity) == Ok(Fields(e.kind, e.value, e.ndataValue))
  {
    SystemBody(e);
    var q := Quoted(e.value);
    if !e.parameterEntity {
      KeywordNotInQuoted(e.value, "NDATA");
      assert IndexOf(q, "NDATA") == -1;
    }
    SystemFields(Body(e), q, e.value, e.parameterEntity);
  }

  /** A written SYSTEM body reads back as its literal, in either branch. */
  lemma SystemFields(b: string, q: string, v: string, pe: bool)
    requires b == "SYSTEM " + q && |q| >= 2 && q[1..|q| - 1] == v
    requires !IsWhitespace(q[0]) && !IsWhitespace(q[|q| - 1])
    requires !pe ==> IndexOf(q, "NDATA") == -1
    ensures FieldsOf(b, pe) == Ok(Fields(System, v, None))
  {
    assert IndexOf(b, "SYSTEM") == 0 by {
      assert b[0..6] == "SYSTEM";
    }
    assert Strip(b[6..]) == q by {
      assert b[6..] == " " + q;
      StripSpaced(q);
    }
    assert Unquote(q) == Ok(v);
    if pe {
      ParameterSystemBranch(b, v);
    } else {
      GeneralSystemBranch(b, q, v);
    }
  }

  lemma ParameterSystemBranch(rest: string, v: string)
    requires IndexOf(rest, "SYSTEM") == 0 && Unquote(Strip(rest[6..])) == Ok(v)
    ensures FieldsOf(rest, true) == Ok(Fields(System, v, None))
  {
  }

  lemma GeneralSystemBranch(rest: string, q: string, v: string)
    requires IndexOf(rest, "SYSTEM") == 0 && Strip(rest[6..]) == q
    requires IndexOf(q, "NDATA") == -1 && Unquote(q) == Ok(v)
    ensures FieldsOf(rest, false) == Ok(Fields(System, v, None))
  {
  }

  /** "SYSTEM" occurs nowhere in a written PUBLIC body. */
  lemma NoSystemInPublicBody(pid: string, v: string, q: char)
    requires q == '"' || q == '\''
    requires !Contains(pid, "SYSTEM") && !Contains(v, "SYSTEM")
    ensures forall k :: !OccursAt("PUBLIC " + ([q] + pid + [q] + " " + ([q] + v + [q])), "SYSTEM", k)
  {
    var lit := [q] + v + [q];
    var r2 := [q] + pid + [q] + " " + lit;
    IndexOfMissing(pid, "SYSTEM");
    IndexOfMissing(v, "SYSTEM");
    NotInWrapped(v, q, "SYSTEM");
    NoOccurrenceShort([q], "SYSTEM");
    NoOccurrenceShort(" ", "SYSTEM");
    assert forall k :: !OccursAt("PUBLIC ", "SYSTEM", k) by {
      assert !OccursAt("PUBLIC ", "SYSTEM", 0) by { assert "PUBLIC "[0] == 'P'; }
      assert !OccursAt("PUBLIC ", "SYSTEM", 1) by { assert "PUBLIC "[1] == 'U'; }
    }
    NoOccurrenceConcat([q], pid, "SYSTEM");
    NoOccurrenceConcat([q] + pid, [q], "SYSTEM");
    NoOccurrenceConcat([q] + pid + [q], " ", "SYSTEM");
    NoOccurrenceConcat([q] + pid + [q] + " ", lit, "SYSTEM");
    NoOccurrenceConcat("PUBLIC ", r2, "SYSTEM");
  }

  /** The literals of a written parameter PUBLIC entity read back. */
  lemma ExternalLiteralsWritten(pid: string, v: string, q: char)
    requires q == '"' || q == '\''
    requires q !in pid
    ensures ExternalLiterals([q] + pid + [q] + " " + ([q] + v + [q])) == Ok((pid, v))
  {
    LiteralsRead([q] + pid + [q] + " " + ([q] + v + [q]), [q] + v + [q], pid, v, q);
  }

  lemma LiteralsRead(r2: string, lit: string, pid: string, v: string, q: char)
    requires (q == '"' || q == '\'') && q !in pid && lit == [q] + v + [q] && r2 == [q] + pid + [q] + " " + lit
    ensures ExternalLiterals(r2) == Ok((pid, v))
  {
    ClosingDelimiter(r2, pid, q, " " + lit);
    assert Unquote(Strip(r2[2 + |pid|..])) == Ok(v) by {
      assert r2[|pid| + 2..] == " " + lit;
      StripSpaced(lit);
      assert lit[1..|lit| - 1] == v;
    }
    ExternalLiteralsUnfold(r2, q, 1 + |pid|, v);
  }

  /** The delimiter is next found right after the public identifier. */
  lemma ClosingDelimiter(r2: string, pid: string, q: char, rest: string)
    requires q !in pid && r2 == [q] + pid + [q] + rest
    ensures FirstCharFrom(r2, 1, q) == Ok(1 + |pid|) && r2[1..1 + |pid|] == pid
  {
    assert forall k :: 1 <= k < 1 + |pid| ==> r2[k] == pid[k - 1];
    assert r2[1 + |pid|] == q;
    FirstCharFromAt(r2, 1, 1 + |pid|, q);
    assert r2[1..1 + |pid|] == pid;
  }

  lemma ExternalLiteralsUnfold(r2: string, q: char, k: nat, v: string)
    requires |r2| > 0 && r2[0] == q && FirstCharFrom(r2, 1, q) == Ok(k)
    requires Unquote(Strip(r2[k + 1..])) == Ok(v)
    ensures ExternalLiterals(r2) == Ok((r2[1..k], v))
  {
    assert CharAt(r2, 0) == Ok(q);
    var pid := r2[1..k];
    assert r2[|pid| + 2..] == r2[k + 1..];
  }

  /** The PUBLIC branch of a parameter entity, given what its scans find. */
  lemma ParameterPublicRead(b: string, r2: string, pid: string, v: string)
    requires IndexOf(b, "SYSTEM") == -1 && IndexOf(b, "PUBLIC") == 0
    requires Strip(b[6..]) == r2 && ExternalLiterals(r2) == Ok((pid, v))
    ensures ParameterFields(b) == Ok(Fields(Public(pid), v, None))
  {
  }

  lemma FieldsOfPublic(e: EntityDecl)
    requires ReadsBack(e) && e.kind.Public?
    ensures FieldsOf(Body(e), e.parameterEntity) == Ok(Fields(e.kind, e.value, e.ndataValue))
  {
    var pid := e.kind.publicId;
    var q := Delimiter(pid);
    assert q !in pid;
    assert Body(e) == "PUBLIC " + ([q] + pid + [q] + " " + ([q] + e.value + [q])) by {
      assert Body(e) == "PUBLIC " + [q] + pid + [q] + " " + [q] + e.value + [q];
    }
    PublicParameterRead(pid, e.value, q);
  }

  /** A written parameter PUBLIC body reads back as its two literals. */
  lemma PublicParameterRead(pid: string, v: string, q: char)
    requires (q == '"' || q == '\'') && q !in pid
    requires !Contains(pid, "SYSTEM") && !Contains(v, "SYSTEM")
    ensures ParameterFields("PUBLIC " + ([q] + pid + [q] + " " + ([q] + v + [q]))) == Ok(Fields(Public(pid), v, None))
  {
    var r2 := [q] + pid + [q] + " " + ([q] + v + [q]);
    NoSystemInPublicText(pid, v, q);
    ExternalLiteralsWritten(pid, v, q);
    PublicFirst(r2);
    ParameterPublicRead("PUBLIC " + r2, r2, pid, v);
  }

  lemma NoSystemInPublicText(pid: string, v: string, q: char)
    requires q == '"' || q == '\''
    requires !Contains(pid, "SYSTEM") && !Contains(v, "SYSTEM")
    ensures IndexOf("PUBLIC " + ([q] + pid + [q] + " " + ([q] + v + [q])), "SYSTEM") == -1
  {
    NoSystemInPublicBody(pid, v, q);
  }

  /** In "PUBLIC " and a text that starts and ends with a quote, the
      keyword is found first and the stripped rest is the text. */
  lemma PublicFirst(r2: string)
    requires |r2| > 0 && (r2[0] == '"' || r2[0] == '\'') && (r2[|r2| - 1] == '"' || r2[|r2| - 1] == '\'')
    ensures IndexOf("PUBLIC " + r2, "PUBLIC") == 0 && Strip(("PUBLIC " + r2)[6..]) == r2
  {
    var b := "PUBLIC " + r2;
    assert b[0..6] == "PUBLIC";
    assert b[6..] == " " + r2;
    StripSpaced(r2);
  }

  lemma BodyEnds(e: EntityDecl)
    requires ReadsBack(e)
    ensures |Body(e)| > 0 && !IsWhitespace(Body(e)[0]) && !IsWhitespace(Body(e)[|Body(e)| - 1])
  {
    match e.kind
    case Internal => QuotedEnds(e.value);
    case System => SystemBody(e);
    case Public(pid) =>
      var q := Delimiter(pid);
      assert Body(e) == "PUBLIC " + [q] + pid + [q] + " " + [q] + e.value + [q];
  }

  /** Reading back what `toString` wrote gives the same declaration. */
  lemma ReadsBackToString(e: EntityDecl)
    requires ReadsBack(e)
    ensures EntityDeclOf(ToString(e)) == Ok(e)
  {
    if e.kind.Internal? {
      FieldsOfInternal(e);
    } else if e.kind.System? {
      FieldsOfSystem(e);
    } else {
      FieldsOfPublic(e);
    }
    BodyEnds(e);
    ReadsBackFromBody(e);
  }
}
