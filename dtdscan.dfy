/** The string helpers of the DTD parser: prefix test, occurrence count,
    parameter-entity expansion, the keyword of a conditional section
    (section 3.4 of XML 1.0) and the growth of a section until its
    `<![` and `]]>` balance. */
module DTDScanning {
  import opened Wrappers
  import opened JavaStrings
  import opened XMLUtils
  import opened Scanning
  import opened EntityDecls

  /** `lookingAt(search, source, start)`: a character loop comparing
      `search` with the text at `start`. */
  method LookingAt(search: string, source: string, start: nat) returns (r: bool)
    ensures r <==> OccursAt(source, search, start)
  {
    if |search| + start > |source| {
      return false;
    }
    for i := 0 to |search|
      invariant source[start..start + i] == search[..i]
    {
      if source[start + i] != search[i] {
        assert source[start..start + |search|][i] != search[i];
        return false;
      }
      assert source[start..start + i + 1] == source[start..start + i] + [source[start + i]];
    }
    assert search[..|search|] == search;
    return true;
  }

  // ---------------------------------------------------------------------
  // count

  /** The number of positions from `k` on where `t` occurs, overlapping
      occurrences included. */
  function CountAt(s: string, t: string, k: nat): nat
    decreases |s| + 1 - k
  {
    if k > |s| then 0
    else (if OccursAt(s, t, k) then 1 else 0) + CountAt(s, t, k + 1)
  }

  /** No occurrence lies between `from` and the one `indexOf` finds. */
  lemma {:induction false} CountSkips(s: string, t: string, from: nat)
    ensures IndexOfFrom(s, t, from) == -1 ==> CountAt(s, t, from) == 0
    ensures IndexOfFrom(s, t, from) >= 0 ==> CountAt(s, t, from) == CountAt(s, t, IndexOfFrom(s, t, from))
    decreases |s| + 1 - from
  {
    if from <= |s| {
      CountSkips(s, t, from + 1);
      if from + |t| <= |s| && s[from..from + |t|] != t {
        assert !OccursAt(s, t, from);
      }
    }
  }

  /** A text shorter than the target holds no occurrence of it. */
  lemma {:induction false} CountShort(s: string, t: string, k: nat)
    requires |s| < |t|
    ensures CountAt(s, t, k) == 0
    decreases |s| + 1 - k
  {
    if k <= |s| {
      CountShort(s, t, k + 1);
    }
  }

  /** `count(target, section)`: the search resumes one past each hit. */
  method Count(target: string, section: string) returns (count: nat)
    requires |target| > 0
    ensures count == CountAt(section, target, 0)
  {
    count := 0;
    var index := IndexOf(section, target);
    CountSkips(section, target, 0);
    while index != -1
      invariant index == -1 || (0 <= index && OccursAt(section, target, index))
      invariant count + (if index == -1 then 0 else CountAt(section, target, index)) == CountAt(section, target, 0)
      decreases if index == -1 then 0 else |section| + 1 - index
    {
      count := count + 1;
      CountSkips(section, target, index + 1);
      index := IndexOfFrom(section, target, index + 1);
    }
  }

  // ---------------------------------------------------------------------
  // replaceParameterEntities

  /** The single pass of `replaceParameterEntities` from index `i`: every
      `%name;` is replaced by the value of entity `name`, every other
      character is kept.  A `%` with no later `;`, or an undeclared name,
      is a syntax error. */
  function Pass(s: string, i: nat, entities: map<string, EntityDecl>): (r: Result<string>)
    ensures r.Err? ==> r.error == SyntaxError
    decreases |s| - i
  {
    if i >= |s| then Ok("")
    else if s[i] == '%' then
      var end := IndexOfFrom(s, ";", i);
      if end == -1 then Err(SyntaxError)
      else
        OccursAtChar(s, '%', i);
        var name := s[i + 1..end];
        if name !in entities then Err(SyntaxError)
        else
          var rest :- Pass(s, end + 1, entities);
          Ok(entities[name].value + rest)
    else
      var rest :- Pass(s, i + 1, entities);
      Ok([s[i]] + rest)
  }

  /** `replaceParameterEntities(text)`: unchanged without `%`, otherwise
      one pass and then expansion again while a `%` remains.  Each further
      round takes one unit of `fuel`; a self-referential entity would
      recurse without end in the source. */
  function Expand(s: string, entities: map<string, EntityDecl>, fuel: nat): (r: Result<string>)
    ensures r.Ok? ==> '%' !in r.value
    ensures '%' !in s ==> r == Ok(s)
    ensures r.Err? ==> r.error == SyntaxError || r.error == Nontermination
    decreases fuel
  {
    if '%' !in s then Ok(s)
    else
      var replaced :- Pass(s, 0, entities);
      if '%' !in replaced then Ok(replaced)
      else if fuel == 0 then Err(Nontermination)
      else Expand(replaced, entities, fuel - 1)
  }

  /** `r` with `a` put in front of its text. */
  function Prepend(a: string, r: Result<string>): Result<string> {
    if r.Ok? then Ok(a + r.value) else r
  }

  /** The pass, as the loop over `index` that appends to a builder. */
  method ReplacePass(s: string, entities: map<string, EntityDecl>) returns (r: Result<string>)
    ensures r == Pass(s, 0, entities)
  {
    var sb := "";
    var index := 0;
    assert Pass(s, 0, entities).Ok? ==> "" + Pass(s, 0, entities).value == Pass(s, 0, entities).value;
    while index < |s|
      invariant index <= |s|
      invariant Pass(s, 0, entities) == Prepend(sb, Pass(s, index, entities))
      decreases |s| - index
    {
      var c := s[index];
      if c == '%' {
        var end := IndexOfFrom(s, ";", index);
        if end == -1 {
          return Err(SyntaxError);
        }
        OccursAtChar(s, '%', index);
        var entityName := s[index + 1..end];
        if entityName !in entities {
          return Err(SyntaxError);
        }
        PassReference(s, index, end, entities);
        PrependAppend(sb, entities[entityName].value, Pass(s, end + 1, entities));
        sb := sb + entities[entityName].value;
        index := end + 1;
      } else {
        PassCharacter(s, index, entities);
        PrependAppend(sb, [c], Pass(s, index + 1, entities));
        sb := sb + [c];
        index := index + 1;
      }
    }
    assert sb + "" == sb;
    return Ok(sb);
  }

  lemma PrependAppend(a: string, b: string, r: Result<string>)
    ensures Prepend(a, Prepend(b, r)) == Prepend(a + b, r)
  {
    if r.Ok? {
      assert a + (b + r.value) == a + b + r.value;
    }
  }

  /** The whole of `replaceParameterEntities`, with its recursion. */
  method ReplaceParameterEntities(text: string, entities: map<string, EntityDecl>, fuel: nat) returns (r: Result<string>)
    ensures r == Expand(text, entities, fuel)
    decreases fuel
  {
    if '%' !in text {
      return Ok(text);
    }
    var replaced :- ReplacePass(text, entities);
    if '%' in replaced {
      if fuel == 0 {
        return Err(Nontermination);
      }
      r := ReplaceParameterEntities(replaced, entities, fuel - 1);
      return;
    }
    return Ok(replaced);
  }

  /** Characters other than `%` are copied as they are. */
  lemma {:induction false} PassCopies(s: string, i: nat, k: nat, entities: map<string, EntityDecl>)
    requires i <= k <= |s|
    requires forall j :: i <= j < k ==> s[j] != '%'
    ensures Pass(s, i, entities) == Prepend(s[i..k], Pass(s, k, entities))
    decreases k - i
  {
    if i < k {
      PassCopies(s, i + 1, k, entities);
      PrependAppend([s[i]], s[i + 1..k], Pass(s, k, entities));
      assert [s[i]] + s[i + 1..k] == s[i..k];
    } else {
      var r := Pass(s, k, entities);
      assert r.Ok? ==> s[i..k] + r.value == r.value;
    }
  }

  /** A declared reference `%name;` whose value holds no `%` is replaced by
      that value, and the text around it is kept. */
  lemma ExpandReference(a: string, name: string, b: string, entities: map<string, EntityDecl>, fuel: nat)
    requires '%' !in a && ';' !in name && '%' !in b
    requires name in entities && '%' !in entities[name].value
    ensures Expand(a + "%" + name + ";" + b, entities, fuel) == Ok(a + entities[name].value + b)
  {
    var s := a + "%" + name + ";" + b;
    var k := |a|;
    var e := |a| + 1 + |name|;
    var v := entities[name].value;
    ReferenceSplit(a, name, b);
    PassCopies(s, 0, k, entities);
    PassReference(s, k, e, entities);
    PassCopies(s, e + 1, |s|, entities);
    PrependThree(a, v, b);
    ExpandOnce(s, entities, fuel, a + v + b);
  }

  /** Where the pieces of `a % name ; b` sit. */
  lemma ReferenceSplit(a: string, name: string, b: string)
    requires '%' !in a && ';' !in name && '%' !in b
    ensures var s := a + "%" + name + ";" + b;
            var k := |a|;
            var e := |a| + 1 + |name|;
            e < |s| && s[k] == '%' && IndexOfFrom(s, ";", k) == e && s[k + 1..e] == name &&
            s[0..k] == a && s[e + 1..|s|] == b &&
            (forall j :: 0 <= j < k ==> s[j] != '%') &&
            (forall j :: e + 1 <= j < |s| ==> s[j] != '%')
  {
    var s := a + "%" + name + ";" + b;
    var k := |a|;
    var e := |a| + 1 + |name|;
    forall j | 0 <= j < k ensures s[j] != '%' {
      assert s[j] == a[j];
    }
    assert s[k] == '%' && s[e] == ';';
    forall j | k <= j < e ensures s[j] != ';' {
      if j > k {
        assert s[j] == name[j - k - 1];
      }
    }
    IndexOfFromCharAt(s, ';', k, e);
    assert s[k + 1..e] == name;
    forall j | e + 1 <= j < |s| ensures s[j] != '%' {
      assert s[j] == b[j - e - 1];
    }
    assert s[e + 1..|s|] == b && s[0..k] == a;
  }

  /** One declared reference in the pass. */
  lemma PassReference(s: string, k: nat, e: int, entities: map<string, EntityDecl>)
    requires k < e < |s| && s[k] == '%' && IndexOfFrom(s, ";", k) == e && s[k + 1..e] in entities
    ensures Pass(s, k, entities) == Prepend(entities[s[k + 1..e]].value, Pass(s, e + 1, entities))
  {
  }

  /** A character other than `%` in the pass. */
  lemma PassCharacter(s: string, k: nat, entities: map<string, EntityDecl>)
    requires k < |s| && s[k] != '%'
    ensures Pass(s, k, entities) == Prepend([s[k]], Pass(s, k + 1, entities))
  {
  }

  lemma PrependThree(a: string, v: string, b: string)
    ensures Prepend(a, Prepend(v, Prepend(b, Ok("")))) == Ok(a + v + b)
  {
    assert a + (v + (b + "")) == a + v + b;
  }

  /** A pass that leaves no `%` ends the expansion. */
  lemma ExpandOnce(s: string, entities: map<string, EntityDecl>, fuel: nat, x: string)
    requires '%' in s && Pass(s, 0, entities) == Ok(x) && '%' !in x
    ensures Expand(s, entities, fuel) == Ok(x)
  {
  }

  /** A `%` with no `;` after it is a syntax error. */
  lemma ExpandUnterminated(a: string, b: string, entities: map<string, EntityDecl>, fuel: nat)
    requires '%' !in a && ';' !in b
    ensures Expand(a + "%" + b, entities, fuel) == Err(SyntaxError)
  {
    var s := a + "%" + b;
    var k := |a|;
    forall j | 0 <= j < k ensures s[j] != '%' {
      assert s[j] == a[j];
    }
    PassCopies(s, 0, k, entities);
    forall j | k <= j < |s| ensures s[j] != ';' {
      if j > k {
        assert s[j] == b[j - k - 1];
      }
    }
    IndexOfFromCharNone(s, ';', k);
    assert s[k] == '%';
  }

  /** A reference to an undeclared entity is a syntax error. */
  lemma ExpandUndeclared(a: string, name: string, b: string, entities: map<string, EntityDecl>, fuel: nat)
    requires '%' !in a && ';' !in name && name !in entities
    ensures Expand(a + "%" + name + ";" + b, entities, fuel) == Err(SyntaxError)
  {
    var s := a + "%" + name + ";" + b;
    var k := |a|;
    var e := |a| + 1 + |name|;
    forall j | 0 <= j < k ensures s[j] != '%' {
      assert s[j] == a[j];
    }
    PassCopies(s, 0, k, entities);
    assert s[k] == '%' && s[e] == ';';
    forall j | k <= j < e ensures s[j] != ';' {
      if j > k {
        assert s[j] == name[j - k - 1];
      }
    }
    IndexOfFromCharAt(s, ';', k, e);
    assert s[k + 1..e] == name;
  }

  /** An entity whose value is a reference to itself: the source's
      expansion never ends, so no amount of fuel is enough. */
  lemma {:induction false} ExpandSelfReference(name: string, entities: map<string, EntityDecl>, fuel: nat)
    requires ';' !in name && name in entities && entities[name].value == "%" + name + ";"
    ensures Expand("%" + name + ";", entities, fuel) == Err(Nontermination)
    decreases fuel
  {
    var s := "%" + name + ";";
    var e := 1 + |name|;
    assert s[0] == '%' && s[e] == ';';
    forall j | 0 <= j < e ensures s[j] != ';' {
      if j > 0 {
        assert s[j] == name[j - 1];
      }
    }
    IndexOfFromCharAt(s, ';', 0, e);
    assert s[1..e] == name;
    assert Pass(s, e + 1, entities) == Ok("");
    assert Pass(s, 0, entities) == Ok(s + "");
    assert s + "" == s && s[0] == '%';
    if fuel > 0 {
      ExpandSelfReference(name, entities, fuel - 1);
    }
  }

  // ---------------------------------------------------------------------
  // getSectionType

  predicate KeywordChar(c: char) {
    !IsXmlSpace(c) && c != '['
  }

  /** The keyword run: white space after `<![` is skipped, then the
      characters up to white space or `[` are taken. */
  function Keyword(section: string): (r: string)
    ensures forall c :: c in r ==> KeywordChar(c)
  {
    var i := SpanWhile(section, 3, IsXmlSpace);
    var j := SpanWhile(section, i, KeywordChar);
    if i <= |section| then
      assert forall c :: c in section[i..j] ==> KeywordChar(c) by {
        forall c | c in section[i..j] ensures KeywordChar(c) {
          var k :| 0 <= k < j - i && section[i..j][k] == c;
          assert c == section[i + k];
        }
      }
      section[i..j]
    else ""
  }

  /** A keyword that is a reference `%name;` or `&name;`. */
  predicate IsReference(t: string) {
    (StartsWith(t, "%") || StartsWith(t, "&")) && EndsWith(t, ";")
  }

  /** The loop replacing a reference by the value of the entity it names
      one level at a time, while the result is still a reference; each
      level takes one unit of `fuel`. */
  function Resolve(t: string, entities: map<string, EntityDecl>, fuel: nat): (r: Result<string>)
    ensures r.Ok? ==> !IsReference(r.value)
    ensures !IsReference(t) ==> r == Ok(t)
    ensures r.Err? ==> r.error == SyntaxError || r.error == Nontermination
    decreases fuel
  {
    if !IsReference(t) then Ok(t)
    else
      assert t[0] != t[|t| - 1] by {
        assert t[0] == t[..1][0] && t[|t| - 1] == t[|t| - 1..][0];
      }
      var name := t[1..|t| - 1];
      if name !in entities then Err(SyntaxError)
      else if fuel == 0 then Err(Nontermination)
      else Resolve(entities[name].value, entities, fuel - 1)
  }

  /** `getSectionType(section)`. */
  function SectionType(section: string, entities: map<string, EntityDecl>, fuel: nat): (r: Result<string>)
    ensures r.Ok? ==> !IsReference(r.value)
  {
    Resolve(Keyword(section), entities, fuel)
  }

  method GetSectionType(section: string, entities: map<string, EntityDecl>, fuel: nat) returns (r: Result<string>)
    ensures r == SectionType(section, entities, fuel)
  {
    var t := ReadKeyword(section);
    r := ResolveKeyword(t, entities, fuel);
  }

  /** The two scanning loops of `getSectionType`: white space skipped, then
      the keyword characters collected. */
  method ReadKeyword(section: string) returns (sb: string)
    ensures sb == Keyword(section)
  {
    var i := 3;
    while i < |section| && IsXmlSpace(section[i])
      invariant 3 <= i && SpanWhile(section, i, IsXmlSpace) == SpanWhile(section, 3, IsXmlSpace)
      decreases |section| - i
    {
      i := i + 1;
    }
    sb := "";
    var j := i;
    while j < |section| && KeywordChar(section[j])
      invariant i <= j && (i <= |section| ==> j <= |section|) && (i > |section| ==> j == i)
      invariant SpanWhile(section, j, KeywordChar) == SpanWhile(section, i, KeywordChar)
      invariant sb == if i <= |section| then section[i..j] else ""
      decreases |section| - j
    {
      sb := sb + [section[j]];
      j := j + 1;
    }
  }

  /** The loop of `getSectionType` that replaces a reference by the value
      of its entity while the keyword is still a reference. */
  method ResolveKeyword(keyword: string, entities: map<string, EntityDecl>, fuel: nat) returns (r: Result<string>)
    ensures r == Resolve(keyword, entities, fuel)
  {
    var t := keyword;
    var level := fuel;
    while IsReference(t)
      invariant Resolve(t, entities, level) == Resolve(keyword, entities, fuel)
      decreases level
    {
      assert t[0] != t[|t| - 1] by {
        assert t[0] == t[..1][0] && t[|t| - 1] == t[|t| - 1..][0];
      }
      var name := t[1..|t| - 1];
      if name !in entities {
        return Err(SyntaxError);
      }
      if level == 0 {
        return Err(Nontermination);
      }
      t := entities[name].value;
      level := level - 1;
    }
    return Ok(t);
  }

  /** A section of at most three characters has an empty keyword. */
  lemma ShortSectionType(section: string, entities: map<string, EntityDecl>, fuel: nat)
    requires |section| <= 3
    ensures SectionType(section, entities, fuel) == Ok("")
  {
  }

  /** A keyword after `<![` and white space, ended by `[`, is the type. */
  lemma KeywordSectionType(w: string, k: string, rest: string, entities: map<string, EntityDecl>, fuel: nat)
    requires forall c :: c in w ==> IsXmlSpace(c)
    requires forall c :: c in k ==> KeywordChar(c)
    requires !IsReference(k)
    ensures SectionType("<![" + w + k + "[" + rest, entities, fuel) == Ok(k)
  {
    var s := "<![" + w + k + "[" + rest;
    var i := 3 + |w|;
    var j := i + |k|;
    forall x | 3 <= x < i ensures IsXmlSpace(s[x]) {
      assert s[x] == w[x - 3];
    }
    if |k| > 0 {
      assert s[i] == k[0] && k[0] in k;
    } else {
      assert s[i] == '[';
    }
    SpanWhileTo(s, 3, i, IsXmlSpace);
    forall x | i <= x < j ensures KeywordChar(s[x]) {
      assert s[x] == k[x - i];
    }
    assert s[j] == '[';
    SpanWhileTo(s, i, j, KeywordChar);
    assert s[i..j] == k;
  }

  /** A keyword `%name;` stands for the value of entity `name`. */
  lemma ReferenceResolved(name: string, entities: map<string, EntityDecl>, fuel: nat)
    requires name in entities && fuel > 0
    ensures Resolve("%" + name + ";", entities, fuel) == Resolve(entities[name].value, entities, fuel - 1)
  {
    var t := "%" + name + ";";
    assert StartsWith(t, "%") && EndsWith(t, ";");
    assert t[1..|t| - 1] == name;
  }

  /** A keyword `%name;` naming no declared entity is a syntax error. */
  lemma ReferenceUndeclared(name: string, entities: map<string, EntityDecl>, fuel: nat)
    requires name !in entities
    ensures Resolve("%" + name + ";", entities, fuel) == Err(SyntaxError)
  {
    var t := "%" + name + ";";
    assert StartsWith(t, "%") && EndsWith(t, ";");
    assert t[1..|t| - 1] == name;
  }

  // ---------------------------------------------------------------------
  // The extent of a conditional section

  const SectionOpen := "<!["
  const SectionClose := "]]>"

  /** The section from `pointer` through the `]]>` at `end` grows to the
      next `]]>` until it holds as many `<![` as `]]>`.  With no `]]>`
      left (`end == -1`) the source takes `substring(pointer, 2)`, which
      fails unless `pointer <= 2`. */
  function SectionFrom(source: string, pointer: nat, end: int): (r: Result<string>)
    requires -1 <= end
    ensures r.Ok? ==> CountAt(r.value, SectionOpen, 0) == CountAt(r.value, SectionClose, 0)
    ensures r.Ok? ==> OccursAt(source, r.value, pointer)
    ensures r.Err? ==> r.error == IndexOutOfBounds
    decreases if end == -1 then 0 else |source| + 1 - end
  {
    var section :- Substring(source, pointer, end + 3);
    if CountAt(section, SectionOpen, 0) == CountAt(section, SectionClose, 0) then Ok(section)
    else
      assert end != -1 by {
        if end == -1 {
          CountShort(section, SectionOpen, 0);
          CountShort(section, SectionClose, 0);
        }
      }
      var next := IndexOfFrom(source, SectionClose, end + 1);
      SectionFrom(source, pointer, next)
  }

  /** The section loop of `parse`, with `count` for the balance test. */
  method SectionExtent(source: string, pointer: nat) returns (r: Result<string>)
    ensures r == SectionFrom(source, pointer, IndexOfFrom(source, SectionClose, pointer))
  {
    var end := IndexOfFrom(source, SectionClose, pointer);
    var section :- Substring(source, pointer, end + 3);
    var open := Count(SectionOpen, section);
    var close := Count(SectionClose, section);
    while open != close
      invariant -1 <= end
      invariant Substring(source, pointer, end + 3) == Ok(section)
      invariant open == CountAt(section, SectionOpen, 0) && close == CountAt(section, SectionClose, 0)
      invariant SectionFrom(source, pointer, end) == SectionFrom(source, pointer, IndexOfFrom(source, SectionClose, pointer))
      decreases if end == -1 then 0 else |source| + 1 - end
    {
      if end == -1 {
        CountShort(section, SectionOpen, 0);
        CountShort(section, SectionClose, 0);
        assert false;
      }
      end := IndexOfFrom(source, SectionClose, end + 1);
      section :- Substring(source, pointer, end + 3);
      open := Count(SectionOpen, section);
      close := Count(SectionClose, section);
    }
    return Ok(section);
  }
}
