/** `<!ATTLIST>` declarations (production [52] AttlistDecl, section 3.3 of
    XML 1.0): the constructor's scan of the list name, the attribute loop of
    `parseAttributes`, `toString`, and the round trip between them.

    The attribute loop guards every step with `i < length` and re-reads its
    character `c` only while `i` is in range, so past the end `c` keeps the
    last character read.  The specification functions below state the loop
    with `Cur`, the character such a cursor holds. */
module AttlistDecls {
  import opened Wrappers
  import opened JavaStrings
  import opened XMLUtils
  import opened Scanning
  import opened AttributeDecls

  datatype AttlistDecl = AttlistDecl(listName: string, attributes: seq<AttributeDecl>)

  /** One pass of the outer loop of `parseAttributes`: the attribute it
      records, if any, and where the cursor stands afterwards. */
  datatype Step = Step(attr: Option<AttributeDecl>, next: nat)

  predicate IsQuote(c: char) {
    c == '"' || c == '\''
  }

  /** The quoted-literal scan at `i`: the character there is the quote, the
      value runs to the next same quote, and the cursor moves past that quote
      when there is one. */
  function Literal(d: string, i: nat): (r: (string, nat))
    requires |d| > 0
    ensures i < r.1
    ensures Cur(d, i) !in r.0
  {
    var q := Cur(d, i);
    var k := SpanUntil(d, i + 1, q);
    var v := if i + 1 <= |d| then d[i + 1..k] else "";
    (v, if Cur(d, k) == q then k + 1 else k)
  }

  /** The type scan at `i`: an enumeration `(...)` is taken through its first
      `)`, which must not be the last character; any other type is the run up
      to white space. */
  function TypeScan(d: string, i: nat): (r: Result<(string, nat)>)
    requires 0 < |d| && i <= |d|
    ensures r.Ok? ==> i <= r.value.1 <= |d| && |r.value.0| == r.value.1 - i
    ensures r.Err? ==> r.error == IndexOutOfBounds
  {
    if Cur(d, i) == '(' then
      var k := SpanUntil(d, i, ')');
      if Cur(d, k) == ')' then
        if k + 1 < |d| then Ok((d[i..k] + ")", k + 1)) else Err(IndexOutOfBounds)
      else Ok((d[i..k], k))
    else
      var k := SpanWhile(d, i, NotXmlSpace);
      Ok((d[i..k], k))
  }

  /** The default-declaration scan at `i`, after the type. */
  function DefaultScan(d: string, name: string, attType: string, i: nat): (r: Result<Step>)
    requires 0 < |d| && i <= |d|
    ensures r.Ok? ==> i <= r.value.next
    ensures r.Ok? && r.value.attr.Some? ==>
      var a := r.value.attr.value;
      && a.name == name && a.attType == Some(attType) && a.defaultValue.Some?
      && !a.isParameterEntity
    ensures r.Err? ==> r.error == IllegalArgument && Cur(d, i) == '#'
    ensures r.Ok? && r.value.attr.None? <==> Cur(d, i) != '#' && !IsQuote(Cur(d, i))
    ensures r.Ok? && r.value.attr.None? ==> r.value.next == i
    ensures r.Ok? && r.value.attr.Some? && r.value.attr.value.isFixed ==> Cur(d, i) == '#'
  {
    var c := Cur(d, i);
    if c == '#' then
      var i1 := SpanWhile(d, i, NotXmlSpace);
      var keyword := d[i..i1];
      if keyword == "#FIXED" then
        var i2 := SpanWhile(d, i1, IsXmlSpace);
        if IsQuote(Cur(d, i2)) then
          var literal := Literal(d, i2);
          Ok(Step(Some(AttributeDecl(name, Some(attType), Some(literal.0), true, false)), literal.1))
        else Err(IllegalArgument)
      else Ok(Step(Some(AttributeDecl(name, Some(attType), Some(keyword), false, false)), i1))
    else if IsQuote(c) then
      var literal := Literal(d, i);
      Ok(Step(Some(AttributeDecl(name, Some(attType), Some(literal.0), false, false)), literal.1))
    else Ok(Step(None, i))
  }

  /** A `%name;` token in name position. */
  predicate IsPEReference(name: string) {
    StartsWith(name, "%") && EndsWith(name, ";")
  }

  /** One pass of the outer loop, started at `i < length`. */
  function Iteration(d: string, i: nat): (r: Result<Step>)
    requires i < |d|
    ensures r.Ok? ==> i < r.value.next
    ensures r.Ok? && r.value.attr.Some? && r.value.attr.value.isParameterEntity ==>
      var a := r.value.attr.value;
      IsPEReference(a.name) && a.attType.None? && a.defaultValue.None? && !a.isFixed
    ensures r.Ok? && r.value.attr.Some? && !r.value.attr.value.isParameterEntity ==>
      !IsPEReference(r.value.attr.value.name)
    ensures r.Err? ==> r.error == IndexOutOfBounds || r.error == IllegalArgument
  {
    var i1 := SpanWhile(d, i, IsXmlSpace);
    var i2 := SpanWhile(d, i1, NotXmlSpace);
    var name := d[i1..i2];
    if IsPEReference(name) then
      Ok(Step(Some(AttributeDecl(name, None, None, false, true)), i2))
    else
      TypeAndDefault(d, name, SpanWhile(d, i2, IsXmlSpace))
  }

  /** The rest of a pass after the name and the white space after it. */
  function TypeAndDefault(d: string, name: string, i: nat): (r: Result<Step>)
    requires 0 < |d| && i <= |d|
    ensures r.Ok? ==> i <= r.value.next
    ensures r.Ok? && r.value.attr.Some? ==>
      r.value.attr.value.name == name && !r.value.attr.value.isParameterEntity
    ensures r.Err? ==> r.error == IndexOutOfBounds || r.error == IllegalArgument
  {
    var typed :- TypeScan(d, i);
    DefaultScan(d, name, typed.0, SpanWhile(d, typed.1, IsXmlSpace))
  }

  function Recorded(attr: Option<AttributeDecl>): seq<AttributeDecl> {
    if attr.Some? then [attr.value] else []
  }

  /** The attributes `parseAttributes` appends when its loop starts at `i`. */
  function AttributesFrom(d: string, i: nat): (r: Result<seq<AttributeDecl>>)
    ensures r.Ok? ==> forall a :: a in r.value && a.isParameterEntity ==>
      IsPEReference(a.name) && a.attType.None? && a.defaultValue.None? && !a.isFixed
    decreases |d| - i
  {
    if i >= |d| then Ok([])
    else
      var step :- Iteration(d, i);
      var rest :- AttributesFrom(d, step.next);
      Ok(Recorded(step.attr) + rest)
  }

  /** `new AttlistDecl(declaration)`: the list name is the run after
      `<!ATTLIST` and white space, read with unguarded `charAt`; the rest up
      to the last `>` is trimmed and handed to `parseAttributes`. */
  function AttlistDeclOf(declaration: string): (r: Result<AttlistDecl>)
    ensures r.Ok? ==> |r.value.listName| > 0 && NoXmlSpace(r.value.listName)
  {
    var d := Trim(declaration);
    var i1 :- FirstFrom(d, 9, NotXmlSpace);
    var i2 :- FirstFrom(d, i1, IsXmlSpace);
    var body :- Substring(d, i2, LastIndexOf(d, '>'));
    var attributes :- AttributesFrom(Trim(body), 0);
    Ok(AttlistDecl(d[i1..i2], attributes))
  }

  /** `toString()`: the header, one indented line per attribute, and `>` on a
      line of its own. */
  function Text(a: AttlistDecl): string {
    "<!ATTLIST " + a.listName + Lines(a.attributes) + "\n>"
  }

  function Lines(attributes: seq<AttributeDecl>): string {
    if attributes == [] then ""
    else Lines(attributes[..|attributes| - 1]) + "\n  " + attributes[|attributes| - 1].ToString()
  }

  // ---------------------------------------------------------------------
  // The imperative scanner

  /** The quoted-literal loop; `c` is the opening quote at `i`. */
  method ReadLiteral(d: string, i: nat, c: char) returns (v: string, j: nat)
    requires |d| > 0 && c == Cur(d, i) && IsQuote(c)
    ensures (v, j) == Literal(d, i)
  {
    var quote := c;
    var c' := c;
    j := i + 1;
    if j < |d| {
      c' := d[j];
    }
    j, c', v := SpanTo(d, j, c', quote);
    if c' == quote {
      j := j + 1;
    }
  }

  /** The type and default part of one pass of the outer loop. */
  method ReadTypeAndDefault(d: string, name: string, i: nat, c: char) returns (r: Result<Step>)
    requires 0 < |d| && i <= |d| && c == Cur(d, i)
    ensures r == TypeAndDefault(d, name, i)
  {
    var j, c', attType := i, c, "";
    if c' == '(' {
      j, c', attType := SpanTo(d, j, c', ')');
      if c' == ')' {
        attType := attType + [c'];
        j := j + 1;
        if j >= |d| {
          return Err(IndexOutOfBounds);
        }
        c' := d[j];
      }
    } else {
      j, c', attType := Span(d, j, c', NotXmlSpace);
    }
    var skipped;
    j, c', skipped := Span(d, j, c', IsXmlSpace);
    r := ReadDefault(d, name, attType, j, c');
  }

  /** The default-declaration branch of one pass. */
  method ReadDefault(d: string, name: string, attType: string, i: nat, c: char) returns (r: Result<Step>)
    requires 0 < |d| && i <= |d| && c == Cur(d, i)
    ensures r == DefaultScan(d, name, attType, i)
  {
    if c == '#' {
      var j, c', keyword := Span(d, i, c, NotXmlSpace);
      if keyword == "#FIXED" {
        var skipped;
        j, c', skipped := Span(d, j, c', IsXmlSpace);
        if c' == '"' || c' == '\'' {
          var v, k := ReadLiteral(d, j, c');
          return Ok(Step(Some(AttributeDecl(name, Some(attType), Some(v), true, false)), k));
        } else {
          return Err(IllegalArgument);
        }
      }
      return Ok(Step(Some(AttributeDecl(name, Some(attType), Some(keyword), false, false)), j));
    } else if c == '"' || c == '\'' {
      var v, k := ReadLiteral(d, i, c);
      return Ok(Step(Some(AttributeDecl(name, Some(attType), Some(v), false, false)), k));
    }
    return Ok(Step(None, i));
  }

  /** One pass of the outer loop of `parseAttributes`. */
  method ReadAttribute(d: string, i: nat) returns (r: Result<Step>)
    requires i < |d|
    ensures r == Iteration(d, i)
  {
    var j, c, skipped := Span(d, i, d[i], IsXmlSpace);
    var name;
    j, c, name := Span(d, j, c, NotXmlSpace);
    if StartsWith(name, "%") && EndsWith(name, ";") {
      var parameterEntity := SetParameterEntity(Create(name, None, None, false), true);
      return Ok(Step(Some(parameterEntity), j));
    }
    j, c, skipped := Span(d, j, c, IsXmlSpace);
    r := ReadTypeAndDefault(d, name, j, c);
  }

  /** `parseAttributes(declaration)`, returning the attributes it appends. */
  method ParseAttributes(d: string) returns (r: Result<seq<AttributeDecl>>)
    ensures r == AttributesFrom(d, 0)
  {
    var attributes: seq<AttributeDecl> := [];
    var i := 0;
    var all := AttributesFrom(d, 0);
    assert all.Ok? ==> [] + all.value == all.value;
    while i < |d|
      invariant AttributesFrom(d, 0) == Prepended(attributes, AttributesFrom(d, i))
      decreases |d| - i
    {
      var step := ReadAttribute(d, i);
      PrependedStep(d, i, attributes);
      if step.Err? {
        return Err(step.error);
      }
      attributes := attributes + Recorded(step.value.attr);
      i := step.value.next;
    }
    assert attributes + [] == attributes;
    return Ok(attributes);
  }

  /** One pass of the loop moves its attribute, if any, from the rest of the
      result to the list built so far. */
  lemma PrependedStep(d: string, i: nat, xs: seq<AttributeDecl>)
    requires i < |d|
    ensures Iteration(d, i).Err? ==> Prepended(xs, AttributesFrom(d, i)) == Err(Iteration(d, i).error)
    ensures Iteration(d, i).Ok? ==> var step := Iteration(d, i).value;
      Prepended(xs, AttributesFrom(d, i)) == Prepended(xs + Recorded(step.attr), AttributesFrom(d, step.next))
  {
    if Iteration(d, i).Ok? {
      var step := Iteration(d, i).value;
      var rest := AttributesFrom(d, step.next);
      if rest.Ok? {
        assert xs + (Recorded(step.attr) + rest.value) == xs + Recorded(step.attr) + rest.value;
      }
    }
  }

  ghost function Prepended(xs: seq<AttributeDecl>, r: Result<seq<AttributeDecl>>): Result<seq<AttributeDecl>> {
    if r.Ok? then Ok(xs + r.value) else r
  }

  /** The constructor. */
  method Parse(declaration: string) returns (r: Result<AttlistDecl>)
    ensures r == AttlistDeclOf(declaration)
  {
    var d := Trim(declaration);
    var i :- ScanTo(d, 9, NotXmlSpace);
    var start := i;
    i :- ScanTo(d, i, IsXmlSpace);
    var listName := d[start..i];
    var body :- Substring(d, i, LastIndexOf(d, '>'));
    var attributes :- ParseAttributes(Trim(body));
    return Ok(AttlistDecl(listName, attributes));
  }

  /** `toString()`. */
  method ToString(a: AttlistDecl) returns (s: string)
    ensures s == Text(a)
  {
    s := "<!ATTLIST " + a.listName;
    for k := 0 to |a.attributes|
      invariant s == "<!ATTLIST " + a.listName + Lines(a.attributes[..k])
    {
      assert a.attributes[..k + 1][..k] == a.attributes[..k];
      s := s + "\n  " + a.attributes[k].ToString();
    }
    assert a.attributes[..|a.attributes|] == a.attributes;
    s := s + "\n>";
  }

  // ---------------------------------------------------------------------
  // Round trip

  /** A token with no character up to U+0020: neither `trim` nor a
      white-space scan cuts into it. */
  predicate Printable(s: string) {
    |s| > 0 && forall k :: 0 <= k < |s| ==> s[k] > ' '
  }

  /** A type the type scan reads back: an enumeration whose only `)` closes
      it, or a printable token. */
  predicate WritableType(t: string) {
    |t| > 0 &&
    if t[0] == '(' then t[|t| - 1] == ')' && forall k :: 0 <= k < |t| - 1 ==> t[k] != ')'
    else Printable(t)
  }

  /** An attribute `toString` writes in a form the attribute loop reads back:
      a reference `%name;` with nothing else, or a name, a type and a default
      that is written out (fixed, or non-empty) and has no `"` in it. */
  predicate Writable(a: AttributeDecl) {
    && Printable(a.name)
    && if a.isParameterEntity then
         IsPEReference(a.name) && a.attType.None? && a.defaultValue.None? && !a.isFixed
       else
         && !IsPEReference(a.name)
         && a.attType.Some? && WritableType(a.attType.value)
         && a.defaultValue.Some? && '"' !in a.defaultValue.value
         && (a.isFixed || a.defaultValue.value != "")
  }

  predicate ReadsBack(a: AttlistDecl) {
    && |a.listName| > 0 && NoXmlSpace(a.listName)
    && forall x :: x in a.attributes ==> Writable(x)
  }

  /** A written literal `"v"` or `'v'` reads back as `v`. */
  lemma LiteralWritten(d: string, i: nat, q: char, v: string)
    requires i + |v| + 2 <= |d| && q !in v
    requires d[i] == q && d[i + 1..i + 1 + |v|] == v && d[i + 1 + |v|] == q
    ensures Literal(d, i) == (v, i + |v| + 2)
  {
    forall k | i + 1 <= k < i + 1 + |v| ensures d[k] != q {
      assert d[k] == v[k - i - 1];
    }
    SpanUntilTo(d, i + 1, i + 1 + |v|, q);
  }

  /** A written type reads back, the scan stopping at the space after it. */
  lemma TypeWritten(d: string, t: string, i: nat)
    requires WritableType(t) && i + |t| < |d|
    requires d[i..i + |t|] == t && d[i + |t|] == ' '
    ensures TypeScan(d, i) == Ok((t, i + |t|))
  {
    forall k | i <= k < i + |t| ensures d[k] == t[k - i] {
      assert d[i..i + |t|][k - i] == d[k];
    }
    if t[0] == '(' {
      SpanUntilTo(d, i, i + |t| - 1, ')');
      assert d[i..i + |t| - 1] + ")" == t;
    } else {
      SpanWhileTo(d, i, i + |t|, NotXmlSpace);
    }
  }

  /** A written ` #FIXED "v"` (or ` #FIXED 'v'`) reads back as a fixed
      default `v`. */
  lemma FixedWritten(d: string, name: string, t: string, q: char, v: string, i: nat)
    requires IsQuote(q) && q !in v && 1 <= i && i + 9 + |v| <= |d|
    requires d[i - 1..i + 9 + |v|] == " #FIXED " + [q] + v + [q]
    requires i + 9 + |v| == |d| || IsXmlSpace(d[i + 9 + |v|])
    ensures DefaultScan(d, name, t, i) == Ok(Step(Some(AttributeDecl(name, Some(t), Some(v), true, false)), i + 9 + |v|))
  {
    var p := " #FIXED " + [q] + v + [q];
    forall k | i - 1 <= k < i + 9 + |v| ensures d[k] == p[k - i + 1] {
      assert d[i - 1..i + 9 + |v|][k - i + 1] == d[k];
    }
    SpanWhileTo(d, i, i + 6, NotXmlSpace);
    assert d[i..i + 6] == "#FIXED";
    SpanWhileTo(d, i + 6, i + 7, IsXmlSpace);
    assert d[i + 8..i + 8 + |v|] == v;
    LiteralWritten(d, i + 7, q, v);
  }

  /** Any keyword other than `#FIXED` (a `#` and a run without white space,
      `#REQUIRED` and `#IMPLIED` among them) reads back as that default,
      not fixed. */
  lemma KeywordWritten(d: string, name: string, t: string, v: string, i: nat)
    requires |v| > 0 && v[0] == '#' && v != "#FIXED"
    requires forall k :: 0 <= k < |v| ==> NotXmlSpace(v[k])
    requires i + |v| <= |d| && d[i..i + |v|] == v
    requires i + |v| == |d| || IsXmlSpace(d[i + |v|])
    ensures DefaultScan(d, name, t, i) == Ok(Step(Some(AttributeDecl(name, Some(t), Some(v), false, false)), i + |v|))
  {
    forall k | i <= k < i + |v| ensures d[k] == v[k - i] {
      assert d[i..i + |v|][k - i] == d[k];
    }
    SpanWhileTo(d, i, i + |v|, NotXmlSpace);
  }

  /** A written `"v"` or `'v'` after the type reads back as the default `v`,
      not fixed. */
  lemma QuotedWritten(d: string, name: string, t: string, q: char, v: string, i: nat)
    requires IsQuote(q) && q !in v && i + |v| + 2 <= |d|
    requires d[i..i + |v| + 2] == [q] + v + [q]
    ensures DefaultScan(d, name, t, i) == Ok(Step(Some(AttributeDecl(name, Some(t), Some(v), false, false)), i + |v| + 2))
  {
    var p := [q] + v + [q];
    assert d[i] == p[0];
    assert d[i + 1 + |v|] == p[1 + |v|];
    forall k | i + 1 <= k < i + 1 + |v| ensures d[k] == v[k - i - 1] {
      assert d[k] == d[i..i + |v| + 2][k - i] == p[k - i];
    }
    assert d[i + 1..i + 1 + |v|] == v;
    LiteralWritten(d, i, q, v);
  }

  /** A written default part reads back as the attribute, the scan stopping
      at the end of the text or at the white space after it. */
  lemma DefaultWritten(d: string, a: AttributeDecl, i: nat, p: string, e: nat)
    requires Writable(a) && !a.isParameterEntity
    requires p == a.DefaultPart() && 1 <= i && e == i - 1 + |p| <= |d| && d[i - 1..e] == p
    requires e == |d| || IsXmlSpace(d[e])
    ensures DefaultScan(d, a.name, a.attType.value, i) == Ok(Step(Some(a), e))
  {
    var v := a.defaultValue.value;
    if a.isFixed {
      FixedWritten(d, a.name, a.attType.value, '"', v, i);
    } else if v == "#REQUIRED" || v == "#IMPLIED" {
      BareKeywordWritten(d, a.name, a.attType.value, v, i, e);
    } else {
      QuotedDefaultWritten(d, a.name, a.attType.value, v, i, e);
    }
  }

  /** `DefaultWritten` for a bare `#REQUIRED` or `#IMPLIED`. */
  lemma BareKeywordWritten(d: string, name: string, t: string, v: string, i: nat, e: nat)
    requires v == "#REQUIRED" || v == "#IMPLIED"
    requires 1 <= i && e == i - 1 + |" " + v| <= |d| && d[i - 1..e] == " " + v
    requires e == |d| || IsXmlSpace(d[e])
    ensures DefaultScan(d, name, t, i) == Ok(Step(Some(AttributeDecl(name, Some(t), Some(v), false, false)), e))
  {
    assert d[i..e] == (" " + v)[1..] == v;
    KeywordWritten(d, name, t, v, i);
  }

  /** `DefaultWritten` for a quoted default. */
  lemma QuotedDefaultWritten(d: string, name: string, t: string, v: string, i: nat, e: nat)
    requires '"' !in v
    requires 1 <= i && e == i - 1 + |" \"" + v + "\""| <= |d| && d[i - 1..e] == " \"" + v + "\""
    ensures DefaultScan(d, name, t, i) == Ok(Step(Some(AttributeDecl(name, Some(t), Some(v), false, false)), e))
  {
    assert d[i..e] == (" \"" + v + "\"")[1..] == ['"'] + v + ['"'];
    QuotedWritten(d, name, t, '"', v, i);
  }

  /** The text `toString` writes for an attribute starts with its name,
      followed by the end or a space, and ends above U+0020. */
  lemma AttributeTextEdges(a: AttributeDecl)
    requires Writable(a)
    ensures var t := a.ToString();
      && |t| >= |a.name| && t[..|a.name|] == a.name && t[|t| - 1] > ' '
      && (a.isParameterEntity ==> t == a.name)
      && (!a.isParameterEntity ==> |a.DefaultPart()| >= 2 && t == a.name + " " + a.attType.value + a.DefaultPart())
  {
    if !a.isParameterEntity {
      var p := a.DefaultPart();
      if a.isFixed {
        assert p == " #FIXED \"" + a.defaultValue.value + "\"";
      } else if a.defaultValue.value == "#REQUIRED" || a.defaultValue.value == "#IMPLIED" {
        assert p == " " + a.defaultValue.value;
      } else {
        assert p == " \"" + a.defaultValue.value + "\"";
      }
    }
  }

  /** The default part of a written attribute starts with a space and goes
      on with `#` or a quote. */
  lemma DefaultPartStart(a: AttributeDecl)
    requires Writable(a) && !a.isParameterEntity
    ensures |a.DefaultPart()| >= 2 && a.DefaultPart()[0] == ' ' && !IsXmlSpace(a.DefaultPart()[1])
  {
    var p := a.DefaultPart();
    if a.isFixed {
      assert p == " #FIXED \"" + a.defaultValue.value + "\"";
    } else if a.defaultValue.value == "#REQUIRED" || a.defaultValue.value == "#IMPLIED" {
      assert p == " " + a.defaultValue.value;
    } else {
      assert p == " \"" + a.defaultValue.value + "\"";
    }
  }

  /** A written type and default part read back as the attribute. */
  lemma TypeAndDefaultWritten(d: string, a: AttributeDecl, j: nat, rest: string, e: nat)
    requires Writable(a) && !a.isParameterEntity
    requires rest == a.attType.value + a.DefaultPart()
    requires e == j + |rest| <= |d| && d[j..e] == rest
    requires e == |d| || IsXmlSpace(d[e])
    ensures TypeAndDefault(d, a.name, j) == Ok(Step(Some(a), e))
  {
    var ty := a.attType.value;
    var p := a.DefaultPart();
    var k := j + |ty|;
    assert TypeScan(d, j) == Ok((ty, k)) && SpanWhile(d, k, IsXmlSpace) == k + 1 by {
      DefaultPartStart(a);
      assert d[j..k] == d[j..e][..|ty|] == ty;
      assert d[k] == d[j..e][|ty|] == p[0];
      assert d[k + 1] == d[j..e][|ty| + 1] == p[1];
      TypeWritten(d, ty, j);
      SpanWhileTo(d, k, k + 1, IsXmlSpace);
    }
    assert DefaultScan(d, a.name, ty, k + 1) == Ok(Step(Some(a), e)) by {
      assert d[k..e] == d[j..e][|ty|..] == p;
      DefaultWritten(d, a, k + 1, p, e);
    }
    TypeAndDefaultUnfold(d, a.name, j, ty, k);
  }

  lemma TypeAndDefaultUnfold(d: string, name: string, i: nat, t: string, k: nat)
    requires 0 < |d| && i <= |d| && TypeScan(d, i) == Ok((t, k))
    ensures TypeAndDefault(d, name, i) == DefaultScan(d, name, t, SpanWhile(d, k, IsXmlSpace))
  {
  }

  /** One pass of the loop over white space and a written attribute reads
      the attribute back and stops right after its text. */
  lemma IterationWritten(d: string, i: nat, s: nat, a: AttributeDecl, e: nat)
    requires Writable(a)
    requires i <= s && e == s + |a.ToString()| <= |d|
    requires forall k :: i <= k < s ==> IsXmlSpace(d[k])
    requires d[s..e] == a.ToString()
    requires e == |d| || IsXmlSpace(d[e])
    ensures Iteration(d, i) == Ok(Step(Some(a), e))
  {
    AttributeTextEdges(a);
    if a.isParameterEntity {
      NameWritten(d, i, s, a.name, e);
    } else {
      DeclarationWritten(d, i, s, s + |a.name|, a, a.attType.value + a.DefaultPart(), e);
    }
  }

  /** The white space and the name at the start of a pass. */
  lemma NameWritten(d: string, i: nat, s: nat, name: string, e: nat)
    requires Printable(name) && i <= s && e == s + |name| <= |d|
    requires forall k :: i <= k < s ==> IsXmlSpace(d[k])
    requires d[s..e] == name
    requires e == |d| || IsXmlSpace(d[e])
    ensures SpanWhile(d, i, IsXmlSpace) == s && SpanWhile(d, s, NotXmlSpace) == e
  {
    assert d[s] == d[s..e][0] == name[0];
    SpanWhileTo(d, i, s, IsXmlSpace);
    forall k | s <= k < e ensures !IsXmlSpace(d[k]) {
      assert d[k] == d[s..e][k - s] == name[k - s];
    }
    SpanWhileTo(d, s, e, NotXmlSpace);
  }

  /** A declaration that is not a parameter-entity reference, written as
      white space, the name, one space and then type and default. */
  lemma DeclarationWritten(d: string, i: nat, s: nat, m: nat, a: AttributeDecl, rest: string, e: nat)
    requires Writable(a) && !a.isParameterEntity
    requires rest == a.attType.value + a.DefaultPart()
    requires i <= s && m == s + |a.name| && e == m + 1 + |rest| <= |d|
    requires forall k :: i <= k < s ==> IsXmlSpace(d[k])
    requires d[s..e] == a.name + " " + rest
    requires e == |d| || IsXmlSpace(d[e])
    ensures Iteration(d, i) == Ok(Step(Some(a), e))
  {
    TypeAndDefaultAfterName(d, s, m, a, rest, e);
    NameBeforeType(d, i, s, m, a.name, rest, e);
    WritableTypeStart(a);
    NameTypeGap(d, s, m, e, a.name, rest, a.attType.value, a.DefaultPart());
    IterationFrom(d, i, s, m, m + 1, a, e);
  }

  /** The type and default part after the name and its space. */
  lemma TypeAndDefaultAfterName(d: string, s: nat, m: nat, a: AttributeDecl, rest: string, e: nat)
    requires Writable(a) && !a.isParameterEntity
    requires rest == a.attType.value + a.DefaultPart()
    requires m == s + |a.name| && e == m + 1 + |rest| <= |d|
    requires d[s..e] == a.name + " " + rest
    requires e == |d| || IsXmlSpace(d[e])
    ensures TypeAndDefault(d, a.name, m + 1) == Ok(Step(Some(a), e))
  {
    AfterName(d, s, m, e, a.name, rest);
    TypeAndDefaultWritten(d, a, m + 1, rest, e);
  }

  /** The text after a name and its space. */
  lemma AfterName(d: string, s: nat, m: nat, e: nat, name: string, rest: string)
    requires m == s + |name| && e == m + 1 + |rest| <= |d|
    requires d[s..e] == name + " " + rest
    ensures d[m + 1..e] == rest
  {
    assert d[m + 1..e] == d[s..e][|name| + 1..];
  }

  /** The white space and the name before the space that precedes the type. */
  lemma NameBeforeType(d: string, i: nat, s: nat, m: nat, name: string, rest: string, e: nat)
    requires Printable(name) && i <= s && m == s + |name| && e == m + 1 + |rest| <= |d|
    requires forall k :: i <= k < s ==> IsXmlSpace(d[k])
    requires d[s..e] == name + " " + rest
    ensures SpanWhile(d, i, IsXmlSpace) == s && SpanWhile(d, s, NotXmlSpace) == m && d[s..m] == name
  {
    assert d[s..m] == d[s..e][..|name|];
    assert d[m] == d[s..e][|name|];
    NameWritten(d, i, s, name, m);
  }

  /** The single space between the name and a written type. */
  lemma NameTypeGap(d: string, s: nat, m: nat, e: nat, name: string, rest: string, t: string, p: string)
    requires s <= e <= |d| && d[s..e] == name + " " + rest && m == s + |name|
    requires rest == t + p && |t| > 0 && !IsXmlSpace(t[0])
    ensures SpanWhile(d, m, IsXmlSpace) == m + 1
  {
    assert d[m] == d[s..e][|name|];
    assert d[m + 1] == d[s..e][|name| + 1] == rest[0] == t[0];
    SpanWhileTo(d, m, m + 1, IsXmlSpace);
  }

  /** A written type starts with a character other than white space. */
  lemma WritableTypeStart(a: AttributeDecl)
    requires Writable(a) && !a.isParameterEntity
    ensures |a.attType.value| > 0 && !IsXmlSpace(a.attType.value[0])
  {
  }

  /** One pass that reads name, white space and then a type and default. */
  lemma IterationFrom(d: string, i: nat, i1: nat, i2: nat, i3: nat, a: AttributeDecl, e: nat)
    requires 0 < |d| && i < |d| && i3 <= |d| && !IsPEReference(a.name)
    requires SpanWhile(d, i, IsXmlSpace) == i1 && SpanWhile(d, i1, NotXmlSpace) == i2
    requires d[i1..i2] == a.name && SpanWhile(d, i2, IsXmlSpace) == i3
    requires TypeAndDefault(d, a.name, i3) == Ok(Step(Some(a), e))
    ensures Iteration(d, i) == Ok(Step(Some(a), e))
  {
  }


  /** `toString` of a list, read from the front: one line per attribute. */
  lemma {:induction false} LinesCons(x: AttributeDecl, ys: seq<AttributeDecl>)
    ensures Lines([x] + ys) == "\n  " + x.ToString() + Lines(ys)
    decreases |ys|
  {
    if ys == [] {
      assert [x] + ys == [x];
      assert [x][..0] == [];
    } else {
      var xs := [x] + ys;
      var last := ys[|ys| - 1];
      assert xs[..|xs| - 1] == [x] + ys[..|ys| - 1];
      LinesCons(x, ys[..|ys| - 1]);
    }
  }

  /** One pass reads the attribute text at `s`, the next pass starts at the
      line break after it. */
  lemma AttributesFromStep(d: string, i: nat, a: AttributeDecl, e: nat, rest: seq<AttributeDecl>)
    requires i < |d| && Iteration(d, i) == Ok(Step(Some(a), e))
    requires AttributesFrom(d, e) == Ok(rest)
    ensures AttributesFrom(d, i) == Ok([a] + rest)
  {
  }

  /** Every attribute of the list is writable, stated from the front. */
  predicate AllWritable(ys: seq<AttributeDecl>)
    decreases |ys|
  {
    ys == [] || (Writable(ys[0]) && AllWritable(ys[1..]))
  }

  lemma {:induction false} AllWritableOf(ys: seq<AttributeDecl>)
    requires forall k :: 0 <= k < |ys| ==> Writable(ys[k])
    ensures AllWritable(ys)
    decreases |ys|
  {
    if ys != [] {
      assert forall k :: 0 <= k < |ys[1..]| ==> ys[1..][k] == ys[k + 1];
      AllWritableOf(ys[1..]);
    }
  }

  /** The text at `s`, after white space from `i`, is the lines of the
      writable attributes `[x] + ys`, the first one without its line break. */
  predicate LinesAt(d: string, i: nat, s: nat, x: AttributeDecl, ys: seq<AttributeDecl>) {
    && Writable(x) && AllWritable(ys)
    && i <= s <= |d| && (forall k :: i <= k < s ==> IsXmlSpace(d[k]))
    && d[s..] == x.ToString() + Lines(ys)
  }

  /** Such lines read back as those attributes. */
  lemma {:induction false} AttributesWritten(d: string, i: nat, s: nat, x: AttributeDecl, ys: seq<AttributeDecl>)
    requires LinesAt(d, i, s, x, ys)
    ensures AttributesFrom(d, i) == Ok([x] + ys)
    decreases |ys|
  {
    var e := FirstLine(d, i, s, x, ys);
    assert AttributesFrom(d, e) == Ok(ys) by {
      if ys != [] {
        NextLines(d, e, ys);
        AttributesWritten(d, e, e + 3, ys[0], ys[1..]);
      }
    }
    AttributesFromStep(d, i, x, e, ys);
  }

  /** The first line is one pass, ending where the other lines start. */
  lemma FirstLine(d: string, i: nat, s: nat, x: AttributeDecl, ys: seq<AttributeDecl>) returns (e: nat)
    requires LinesAt(d, i, s, x, ys)
    ensures i < |d| && Iteration(d, i) == Ok(Step(Some(x), e))
    ensures e <= |d| && d[e..] == Lines(ys)
    ensures ys == [] ==> e == |d|
  {
    e := s + |x.ToString()|;
    LinesStart(ys);
    FirstAttribute(d, i, s, e, x, Lines(ys));
  }

  /** After the first line, the next attribute's line is indented. */
  lemma NextLines(d: string, e: nat, ys: seq<AttributeDecl>)
    requires ys != [] && AllWritable(ys) && e <= |d| && d[e..] == Lines(ys)
    ensures LinesAt(d, e, e + 3, ys[0], ys[1..]) && [ys[0]] + ys[1..] == ys
  {
    NextLine(d, e, ys);
    HeadTail(ys);
  }

  lemma HeadTail(ys: seq<AttributeDecl>)
    requires |ys| > 0
    ensures [ys[0]] + ys[1..] == ys
  {
  }

  /** The first attribute text, followed by `rest`, is one pass; the text
      after it is `rest`, which is empty or starts a new line. */
  lemma FirstAttribute(d: string, i: nat, s: nat, e: nat, a: AttributeDecl, rest: string)
    requires Writable(a) && i <= s <= |d| && forall k :: i <= k < s ==> IsXmlSpace(d[k])
    requires d[s..] == a.ToString() + rest && e == s + |a.ToString()|
    requires rest == "" || rest[0] == '\n'
    ensures Iteration(d, i) == Ok(Step(Some(a), e)) && e <= |d| && d[e..] == rest
    ensures rest == "" ==> e == |d|
  {
    AttributeNext(d, s, a.ToString(), rest, e);
    if rest != "" {
      assert d[e] == d[e..][0];
    }
    IterationWritten(d, i, s, a, e);
  }

  /** The lines of a list are empty or start with a line break. */
  lemma LinesStart(xs: seq<AttributeDecl>)
    ensures Lines(xs) == "" || Lines(xs)[0] == '\n'
    decreases |xs|
  {
    if xs != [] {
      LinesStart(xs[..|xs| - 1]);
    }
  }

  /** The indentation in front of the next attribute line. */
  lemma NextLine(d: string, e: nat, ys: seq<AttributeDecl>)
    requires |ys| > 0 && e <= |d| && d[e..] == Lines(ys)
    ensures e + 3 <= |d| && forall k :: e <= k < e + 3 ==> IsXmlSpace(d[k])
    ensures d[e + 3..] == ys[0].ToString() + Lines(ys[1..])
  {
    LinesFront(ys);
    Indented(d, e, ys[0].ToString() + Lines(ys[1..]));
  }

  /** The lines of a non-empty list, read from the front. */
  lemma LinesFront(ys: seq<AttributeDecl>)
    requires |ys| > 0
    ensures Lines(ys) == "\n  " + (ys[0].ToString() + Lines(ys[1..]))
  {
    assert ys == [ys[0]] + ys[1..];
    LinesCons(ys[0], ys[1..]);
    Associative("\n  ", ys[0].ToString(), Lines(ys[1..]));
  }

  lemma Associative(a: string, b: string, c: string)
    ensures a + b + c == a + (b + c)
  {
  }

  lemma Indented(d: string, e: nat, t: string)
    requires e <= |d| && d[e..] == "\n  " + t
    ensures e + 3 <= |d| && d[e + 3..] == t
    ensures forall k :: e <= k < e + 3 ==> IsXmlSpace(d[k])
  {
    assert d[e + 3..] == d[e..][3..];
    assert d[e] == d[e..][0] && d[e + 1] == d[e..][1] && d[e + 2] == d[e..][2];
  }

  /** The text at `s` splits after the attribute text. */
  lemma AttributeNext(d: string, s: nat, t: string, rest: string, e: nat)
    requires s <= |d| && d[s..] == t + rest && e == s + |t|
    ensures e <= |d| && d[s..e] == t && d[e..] == rest
  {
    assert d[s..e] == d[s..][..|t|];
    assert d[e..] == d[s..][|t|..];
  }

  /** The last line of a non-empty list ends above U+0020. */
  lemma LinesEnd(xs: seq<AttributeDecl>)
    requires |xs| > 0 && Writable(xs[|xs| - 1])
    ensures |Lines(xs)| > 0 && Lines(xs)[|Lines(xs)| - 1] > ' '
  {
    AttributeTextEdges(xs[|xs| - 1]);
  }

  /** Trimming an indented line with its line break. */
  lemma TrimIndented(body: string, t: string, rest: string)
    requires |t + rest| > 0 && (t + rest)[0] > ' ' && (t + rest)[|t + rest| - 1] > ' '
    requires body == "\n  " + t + rest + "\n"
    ensures Trim(body) == t + rest
  {
    assert body == "\n  " + (t + rest + "\n");
    TrimLeadingSkips("\n  ", t + rest + "\n");
    TrimTrailingSkips(t + rest, "\n");
  }

  /** A non-empty list of lines is a first line and the rest; that text
      starts and ends above U+0020. */
  lemma LinesHead(xs: seq<AttributeDecl>, t: string, rest: string)
    requires |xs| > 0 && forall k :: 0 <= k < |xs| ==> Writable(xs[k])
    requires t == xs[0].ToString() && rest == Lines(xs[1..])
    ensures Lines(xs) == "\n  " + t + rest
    ensures |t + rest| > 0 && (t + rest)[0] > ' ' && (t + rest)[|t + rest| - 1] > ' '
  {
    assert xs == [xs[0]] + xs[1..];
    LinesCons(xs[0], xs[1..]);
    AttributeTextEdges(xs[0]);
    assert (t + rest)[0] == t[0] == xs[0].name[0];
    if |xs| > 1 {
      assert xs[1..][|xs[1..]| - 1] == xs[|xs| - 1];
      LinesEnd(xs[1..]);
    }
  }

  /** The text the declaration's attributes are read from. */
  lemma BodyRead(xs: seq<AttributeDecl>, body: string)
    requires forall k :: 0 <= k < |xs| ==> Writable(xs[k])
    requires body == Lines(xs) + "\n"
    ensures AttributesFrom(Trim(body), 0) == Ok(xs)
  {
    if xs == [] {
      assert body == "\n";
      assert Trim(body) == "";
    } else {
      var t := xs[0].ToString();
      LinesHead(xs, t, Lines(xs[1..]));
      TrimIndented(body, t, Lines(xs[1..]));
      BodyLines(xs, t + Lines(xs[1..]));
      AttributesWritten(t + Lines(xs[1..]), 0, 0, xs[0], xs[1..]);
    }
  }

  lemma BodyLines(xs: seq<AttributeDecl>, d: string)
    requires |xs| > 0 && forall k :: 0 <= k < |xs| ==> Writable(xs[k])
    requires d == xs[0].ToString() + Lines(xs[1..])
    ensures LinesAt(d, 0, 0, xs[0], xs[1..]) && [xs[0]] + xs[1..] == xs
  {
    AllWritableOf(xs);
    HeadTail(xs);
  }

  /** The header scans of the constructor on a written declaration. */
  lemma HeaderRead(d: string, n: string, lines: string)
    requires |n| > 0 && NoXmlSpace(n) && (lines == "" || lines[0] == '\n')
    requires d == "<!ATTLIST " + n + lines + "\n>"
    ensures FirstFrom(d, 9, NotXmlSpace) == Ok(10)
    ensures FirstFrom(d, 10, IsXmlSpace) == Ok(10 + |n|) && d[10..10 + |n|] == n
  {
    assert d[9] == ' ' && d[10] == n[0];
    assert n[0] in n;
    FirstFromAt(d, 9, 10, NotXmlSpace);
    forall k | 10 <= k < 10 + |n| ensures !IsXmlSpace(d[k]) {
      assert d[k] == n[k - 10];
      assert n[k - 10] in n;
    }
    assert d[10 + |n|] == '\n';
    FirstFromAt(d, 10, 10 + |n|, IsXmlSpace);
    assert d[10..10 + |n|] == n;
  }

  /** What lies between the list name and the final `>`. */
  lemma BodySlice(d: string, n: string, lines: string)
    requires d == "<!ATTLIST " + n + lines + "\n>"
    ensures Substring(d, 10 + |n|, LastIndexOf(d, '>')) == Ok(lines + "\n")
  {
    assert LastIndexOf(d, '>') == |d| - 1;
    assert d[10 + |n|..|d| - 1] == lines + "\n";
  }

  lemma AttlistDeclUnfold(declaration: string, d: string, i1: nat, i2: nat, body: string, xs: seq<AttributeDecl>)
    requires Trim(declaration) == d && FirstFrom(d, 9, NotXmlSpace) == Ok(i1) && FirstFrom(d, i1, IsXmlSpace) == Ok(i2)
    requires Substring(d, i2, LastIndexOf(d, '>')) == Ok(body) && AttributesFrom(Trim(body), 0) == Ok(xs)
    ensures AttlistDeclOf(declaration) == Ok(AttlistDecl(d[i1..i2], xs))
  {
  }

  /** The constructor reads back what `toString` writes, for a list name
      and attributes that survive the scans. */
  lemma ParseText(a: AttlistDecl)
    requires ReadsBack(a)
    ensures AttlistDeclOf(Text(a)) == Ok(a)
  {
    var xs := a.attributes;
    assert forall k :: 0 <= k < |xs| ==> Writable(xs[k]) by {
      assert forall k :: 0 <= k < |xs| ==> xs[k] in xs;
    }
    TextRead(Text(a), a.listName, Lines(xs), xs);
  }

  lemma TextRead(d: string, n: string, lines: string, xs: seq<AttributeDecl>)
    requires |n| > 0 && NoXmlSpace(n) && forall k :: 0 <= k < |xs| ==> Writable(xs[k])
    requires lines == Lines(xs) && d == "<!ATTLIST " + n + lines + "\n>"
    ensures AttlistDeclOf(d) == Ok(AttlistDecl(n, xs))
  {
    TrimNothing(d);
    LinesStart(xs);
    HeaderRead(d, n, lines);
    BodySlice(d, n, lines);
    BodyRead(xs, lines + "\n");
    AttlistDeclUnfold(d, d, 10, 10 + |n|, lines + "\n", xs);
  }

  // ---------------------------------------------------------------------
  // Error paths

  /** `#FIXED` not followed, after white space, by a quote is rejected. */
  lemma FixedWithoutQuote(d: string, name: string, attType: string, i: nat, j: nat)
    requires i + 6 <= |d| && d[i..i + 6] == "#FIXED" && (i + 6 == |d| || IsXmlSpace(d[i + 6]))
    requires j == SpanWhile(d, i + 6, IsXmlSpace) && !IsQuote(Cur(d, j))
    ensures DefaultScan(d, name, attType, i) == Err(IllegalArgument)
  {
    forall k | i <= k < i + 6 ensures NotXmlSpace(d[k]) {
      assert d[k] == d[i..i + 6][k - i];
    }
    SpanWhileTo(d, i, i + 6, NotXmlSpace);
  }

  /** The declaration `<!ATTLIST name>` that the SAX handlers build for an
      attribute has no white space after the name, so the constructor's
      unguarded scan for it runs off the end. */
  lemma AttlistWithoutSpace(n: string)
    requires NoXmlSpace(n)
    ensures AttlistDeclOf("<!ATTLIST " + n + ">") == Err(IndexOutOfBounds)
  {
    var d := "<!ATTLIST " + n + ">";
    TrimNothing(d);
    HeaderWithoutSpace(d, n);
    HeaderFails(d, d);
  }

  /** The scans of `<!ATTLIST name>`: the name starts at 10 and no white
      space follows it. */
  lemma HeaderWithoutSpace(d: string, n: string)
    requires NoXmlSpace(n) && d == "<!ATTLIST " + n + ">"
    ensures FirstFrom(d, 9, NotXmlSpace) == Ok(10)
    ensures FirstFrom(d, 10, IsXmlSpace) == Err(IndexOutOfBounds)
  {
    assert d[9] == ' ';
    if n == [] {
      assert d[10] == '>';
    } else {
      assert d[10] == n[0] && n[0] in n;
    }
    FirstFromAt(d, 9, 10, NotXmlSpace);
    forall k | 10 <= k < |d| ensures !IsXmlSpace(d[k]) {
      if k < 10 + |n| {
        assert d[k] == n[k - 10] && n[k - 10] in n;
      }
    }
    FirstFromNone(d, 10, IsXmlSpace);
  }

  lemma HeaderFails(declaration: string, d: string)
    requires Trim(declaration) == d && FirstFrom(d, 9, NotXmlSpace) == Ok(10)
    requires FirstFrom(d, 10, IsXmlSpace) == Err(IndexOutOfBounds)
    ensures AttlistDeclOf(declaration) == Err(IndexOutOfBounds)
  {
  }
}
