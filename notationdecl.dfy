/** `<!NOTATION>` declarations (production [82] NotationDecl, section 4.7 of
    XML 1.0): the constructor's scanner.  Every step reads with an
    unguarded `charAt`, so a declaration that ends early is an
    `IndexOutOfBounds` error. */
module NotationDecls {
  import opened Wrappers
  import opened JavaStrings
  import opened XMLUtils
  import opened Scanning
  import EntityDecls

  /** `type` is the keyword (`SYSTEM` or `PUBLIC`), `value` the first literal
      without its delimiters, and `referenced` the rest up to the first `>`,
      trimmed, with its quotes. */
  datatype NotationDecl = NotationDecl(name: string, notationType: string, value: string, referenced: string)

  /** `new NotationDecl(declaration)`: the name is the first run after
      `<!NOTATION` and white space. */
  function NotationDeclOf(d: string): (r: Result<NotationDecl>)
    ensures r.Ok? ==> |r.value.name| > 0 && NoXmlSpace(r.value.name)
    ensures r.Ok? ==> |r.value.notationType| > 0 && NoXmlSpace(r.value.notationType)
    ensures r.Err? ==> r.error == IndexOutOfBounds
  {
    var i1 :- FirstFrom(d, 10, NotXmlSpace);
    var i2 :- FirstFrom(d, i1, IsXmlSpace);
    RunWithoutSpace(d, i1, i2);
    AfterName(d, d[i1..i2], i2)
  }

  /** The type: the next run after white space. */
  function AfterName(d: string, name: string, i: nat): (r: Result<NotationDecl>)
    requires i < |d|
    ensures r.Ok? ==> r.value.name == name
    ensures r.Ok? ==> |r.value.notationType| > 0 && NoXmlSpace(r.value.notationType)
    ensures r.Err? ==> r.error == IndexOutOfBounds
  {
    var i1 :- FirstFrom(d, i, NotXmlSpace);
    var i2 :- FirstFrom(d, i1, IsXmlSpace);
    RunWithoutSpace(d, i1, i2);
    AfterType(d, name, d[i1..i2], i2)
  }

  /** The literal: the character after white space delimits it up to its
      next occurrence; `referenced` is what follows, up to the first `>`. */
  function AfterType(d: string, name: string, notationType: string, i: nat): (r: Result<NotationDecl>)
    requires i < |d|
    ensures r.Ok? ==> r.value.name == name && r.value.notationType == notationType
    ensures r.Err? ==> r.error == IndexOutOfBounds
  {
    var i1 :- FirstFrom(d, i, NotXmlSpace);
    Delimited(d, name, notationType, i1, d[i1])
  }

  /** The literal opened by the delimiter `q` at `i`, and what follows it. */
  function Delimited(d: string, name: string, notationType: string, i: nat, q: char): (r: Result<NotationDecl>)
    ensures r.Ok? ==> r.value.name == name && r.value.notationType == notationType
    ensures r.Ok? ==> q !in r.value.value
    ensures r.Err? ==> r.error == IndexOutOfBounds
  {
    var k :- FirstCharFrom(d, i + 1, q);
    var referenced :- ReferencedFrom(d, k + 1);
    Ok(NotationDecl(name, notationType, d[i + 1..k], referenced))
  }

  /** `declaration.substring(j, declaration.indexOf('>')).trim()`. */
  function ReferencedFrom(d: string, j: nat): (r: Result<string>)
    ensures r.Ok? <==> j <= IndexOf(d, ">")
    ensures r.Err? ==> r.error == IndexOutOfBounds
  {
    var rest :- Substring(d, j, IndexOf(d, ">"));
    Ok(Trim(rest))
  }

  /** The constructor, one cursor loop after the other. */
  method Parse(declaration: string) returns (r: Result<NotationDecl>)
    ensures r == NotationDeclOf(declaration)
  {
    var i :- ScanTo(declaration, 10, NotXmlSpace);
    var start := i;
    i :- ScanTo(declaration, i, IsXmlSpace);
    var name := declaration[start..i];
    r := ReadType(declaration, name, i);
  }

  method ReadType(declaration: string, name: string, i: nat) returns (r: Result<NotationDecl>)
    requires i < |declaration|
    ensures r == AfterName(declaration, name, i)
  {
    var j :- ScanTo(declaration, i, NotXmlSpace);
    var start := j;
    j :- ScanTo(declaration, j, IsXmlSpace);
    var notationType := declaration[start..j];
    r := ReadLiteral(declaration, name, notationType, j);
  }

  method ReadLiteral(declaration: string, name: string, notationType: string, i: nat) returns (r: Result<NotationDecl>)
    requires i < |declaration|
    ensures r == AfterType(declaration, name, notationType, i)
  {
    var j :- ScanTo(declaration, i, NotXmlSpace);
    r := ReadValue(declaration, name, notationType, j);
  }

  method ReadValue(declaration: string, name: string, notationType: string, i: nat) returns (r: Result<NotationDecl>)
    requires i < |declaration|
    ensures r == Delimited(declaration, name, notationType, i, declaration[i])
  {
    var delimiter := declaration[i];
    var j :- ScanToChar(declaration, i + 1, delimiter);
    var value := declaration[i + 1..j];
    var rest :- Substring(declaration, j + 1, IndexOf(declaration, ">"));
    return Ok(NotationDecl(name, notationType, value, Trim(rest)));
  }

  // ---------------------------------------------------------------------
  // The text `toString` builds

  /** The text `toString()` assembles: keyword, name, type, the value
      delimited as in an entity declaration, and the quoted `referenced`
      part when it is not empty.  The method then returns the inherited
      `Object.toString()` instead, which this model leaves out. */
  function BuiltText(n: NotationDecl): string {
    "<!NOTATION" + (" " + n.name + (" " + n.notationType + (" " + (EntityDecls.Quoted(n.value) + (Referenced(n.referenced) + ">")))))
  }

  function Referenced(referenced: string): string {
    if referenced == "" then "" else " " + EntityDecls.Quoted(referenced)
  }

  /** Notations whose built text the constructor reads back: tokens without
      white space, no `>` before the end, and a value that does not hold
      both kinds of quote. */
  predicate Readable(n: NotationDecl) {
    && |n.name| > 0 && NoXmlSpace(n.name) && '>' !in n.name
    && |n.notationType| > 0 && NoXmlSpace(n.notationType) && '>' !in n.notationType
    && '>' !in n.value && !('"' in n.value && '\'' in n.value)
    && '>' !in n.referenced
  }

  /** The constructor reads the built text back, except that `referenced`
      keeps the quotes it was written with. */
  lemma ParseBuiltText(n: NotationDecl)
    requires Readable(n)
    ensures NotationDeclOf(BuiltText(n)) == Ok(n.(referenced := Trim(Referenced(n.referenced))))
    ensures n.referenced != "" ==> Trim(Referenced(n.referenced)) == EntityDecls.Quoted(n.referenced)
  {
    var q := EntityDecls.Delimiter(n.value);
    DelimiterOutside(n.value);
    BuiltTextClosed(n);
    TextRead(BuiltText(n), n.name, n.notationType, q, n.value, Referenced(n.referenced),
             11 + |n.name|, 12 + |n.name| + |n.notationType|);
    ReferencedTrimmed(n.referenced);
  }

  /** The delimiter chosen for a value holding at most one kind of quote
      does not occur in it. */
  lemma DelimiterOutside(v: string)
    requires !('"' in v && '\'' in v)
    ensures EntityDecls.Delimiter(v) !in v && !IsXmlSpace(EntityDecls.Delimiter(v))
  {
  }

  /** Trimming a written `referenced` part gives back its quoted text. */
  lemma ReferencedTrimmed(referenced: string)
    ensures referenced != "" ==> Trim(Referenced(referenced)) == EntityDecls.Quoted(referenced)
  {
    if referenced != "" {
      TrimLeadingSkips(" ", EntityDecls.Quoted(referenced));
      TrimNothing(EntityDecls.Quoted(referenced));
    }
  }

  lemma TextRead(d: string, name: string, t: string, q: char, v: string, rest: string, m: nat, j: nat)
    requires |name| > 0 && NoXmlSpace(name) && |t| > 0 && NoXmlSpace(t)
    requires !IsXmlSpace(q) && q !in v
    requires d == "<!NOTATION" + (" " + name + (" " + t + (" " + ([q] + v + [q] + (rest + ">")))))
    requires m == 11 + |name| && j == m + 1 + |t|
    requires IndexOf(d, ">") == |d| - 1
    ensures NotationDeclOf(d) == Ok(NotationDecl(name, t, v, Trim(rest)))
  {
    var r3 := " " + ([q] + v + [q] + (rest + ">"));
    var r2 := " " + t + r3;
    assert d[10..] == " " + name + r2;
    TokenAfterSpace(d, 10, name, r2);
    TokenAfterSpace(d, m, t, r3);
    NameAndType(d, name, t, m, j);
    ValueRead(d, name, t, j, q, v, rest);
  }

  /** The two token scans, with the name and the type found. */
  lemma NameAndType(d: string, name: string, t: string, m: nat, j: nat)
    requires j < |d|
    requires FirstFrom(d, 10, NotXmlSpace) == Ok(11) && FirstFrom(d, 11, IsXmlSpace) == Ok(m) && d[11..m] == name
    requires FirstFrom(d, m, NotXmlSpace) == Ok(m + 1) && FirstFrom(d, m + 1, IsXmlSpace) == Ok(j) && d[m + 1..j] == t
    ensures NotationDeclOf(d) == AfterType(d, name, t, j)
  {
  }

  /** The literal after one space, then `referenced` up to the closing `>`. */
  lemma ValueRead(d: string, name: string, t: string, j: nat, q: char, v: string, rest: string)
    requires !IsXmlSpace(q) && q !in v
    requires j <= |d| && d[j..] == " " + ([q] + v + [q] + (rest + ">"))
    requires IndexOf(d, ">") == |d| - 1
    ensures AfterType(d, name, t, j) == Ok(NotationDecl(name, t, v, Trim(rest)))
  {
    var k := j + 2 + |v|;
    assert d[j] == ' ' && d[j + 1] == q by {
      assert d[j] == d[j..][0] && d[j + 1] == d[j..][1];
    }
    FirstFromAt(d, j, j + 1, NotXmlSpace);
    assert d[k] == q && d[j + 2..k] == v by {
      assert d[k] == d[j..][2 + |v|];
      assert d[j + 2..k] == d[j..][2..2 + |v|];
    }
    forall i | j + 2 <= i < k ensures d[i] != q {
      assert d[i] == v[i - j - 2] && v[i - j - 2] in v;
    }
    FirstCharFromAt(d, j + 2, k, q);
    assert d[k + 1..|d| - 1] == rest by {
      assert d[k + 1..|d| - 1] == d[j..][3 + |v|..|d| - j - 1];
    }
    DelimitedUnfold(d, name, t, j + 1, q, k, |d| - 1, rest);
  }

  lemma DelimitedUnfold(d: string, name: string, t: string, i: nat, q: char, k: nat, e: int, rest: string)
    requires FirstCharFrom(d, i + 1, q) == Ok(k)
    requires IndexOf(d, ">") == e && k + 1 <= e <= |d| && rest == d[k + 1..e]
    ensures Delimited(d, name, t, i, q) == Ok(NotationDecl(name, t, d[i + 1..k], Trim(rest)))
  {
    ReferencedFromUnfold(d, k + 1, e, rest);
  }

  lemma ReferencedFromUnfold(d: string, j: nat, e: int, rest: string)
    requires IndexOf(d, ">") == e && j <= e <= |d| && rest == d[j..e]
    ensures ReferencedFrom(d, j) == Ok(Trim(rest))
  {
    assert Substring(d, j, e) == Ok(rest);
  }

  /** The built text has no `>` before its last character. */
  lemma BuiltTextClosed(n: NotationDecl)
    requires Readable(n)
    ensures IndexOf(BuiltText(n), ">") == |BuiltText(n)| - 1
  {
    var d := BuiltText(n);
    var body := "<!NOTATION" + (" " + n.name + (" " + n.notationType + (" " + (EntityDecls.Quoted(n.value) + Referenced(n.referenced)))));
    assert d == body + ">";
    assert '>' !in Referenced(n.referenced);
    assert '>' !in body;
    forall i | 0 <= i < |d| - 1 ensures d[i] != '>' {
      assert d[i] == body[i] && body[i] in body;
    }
    IndexOfCharAt(d, '>', |d| - 1);
  }
}
