/** One attribute definition of an `<!ATTLIST>` declaration (production [53]
    AttDef, section 3.3 of XML 1.0).  The fields are set once by the
    constructor; `setParameterEntity` is the only setter and is modelled as
    building the updated value. */
module AttributeDecls {
  import opened Wrappers
  import opened JavaStrings

  /** A Java `null` type or default is `None`. */
  datatype AttributeDecl = AttributeDecl(
    name: string,
    attType: Option<string>,
    defaultValue: Option<string>,
    isFixed: bool,
    isParameterEntity: bool)
  {
    /** `toString()`: a parameter-entity reference is its name alone;
        otherwise name, type and the default declaration. */
    function ToString(): (r: string)
      ensures isParameterEntity ==> r == name
      ensures !isParameterEntity ==> StartsWith(r, name + " " + Shown(attType))
    {
      if isParameterEntity then name
      else
        var r := name + " " + Shown(attType) + DefaultPart();
        assert r[..|name + " " + Shown(attType)|] == name + " " + Shown(attType);
        r
    }

    /** What follows the type: ` #FIXED "v"`, a bare `#REQUIRED` or
        `#IMPLIED`, a quoted non-empty default, or nothing. */
    function DefaultPart(): string {
      if isFixed then " #FIXED \"" + Shown(defaultValue) + "\""
      else if defaultValue == Some("#REQUIRED") then " #REQUIRED"
      else if defaultValue == Some("#IMPLIED") then " #IMPLIED"
      else if defaultValue.Some? && defaultValue.value != "" then " \"" + defaultValue.value + "\""
      else ""
    }
  }

  /** The four renderings `toString` gives a declaration that is not a
      parameter-entity reference: a fixed default quoted after `#FIXED`, a
      bare `#REQUIRED` or `#IMPLIED`, any other non-empty default quoted, and
      nothing after the type for a null or empty default. */
  lemma Renderings(a: AttributeDecl)
    requires !a.isParameterEntity
    ensures var head := a.name + " " + Shown(a.attType);
      && (a.isFixed ==> a.ToString() == head + " #FIXED \"" + Shown(a.defaultValue) + "\"")
      && (!a.isFixed && a.defaultValue.Some? && a.defaultValue.value in {"#REQUIRED", "#IMPLIED"} ==>
            a.ToString() == head + " " + a.defaultValue.value)
      && (!a.isFixed && a.defaultValue.Some? && a.defaultValue.value !in {"#REQUIRED", "#IMPLIED", ""} ==>
            a.ToString() == head + " \"" + a.defaultValue.value + "\"")
      && (!a.isFixed && (a.defaultValue.None? || a.defaultValue == Some("")) ==> a.ToString() == head)
  {
    var head := a.name + " " + Shown(a.attType);
    assert a.ToString() == head + a.DefaultPart();
    if a.isFixed {
      assert head + (" #FIXED \"" + Shown(a.defaultValue) + "\"") == head + " #FIXED \"" + Shown(a.defaultValue) + "\"";
    } else if a.defaultValue.Some? && a.defaultValue.value != "" && a.defaultValue.value !in {"#REQUIRED", "#IMPLIED"} {
      assert head + (" \"" + a.defaultValue.value + "\"") == head + " \"" + a.defaultValue.value + "\"";
    } else if a.defaultValue.None? || a.defaultValue == Some("") {
      assert a.DefaultPart() == "";
    }
  }

  /** How Java's string concatenation shows a possibly-null string. */
  function Shown(s: Option<string>): string {
    s.GetOr("null")
  }

  /** `new AttributeDecl(name, type, defaultValue, isFixed)`. */
  function Create(name: string, attType: Option<string>, defaultValue: Option<string>, isFixed: bool): (r: AttributeDecl)
    ensures !r.isParameterEntity
    ensures (r.name, r.attType, r.defaultValue, r.isFixed) == (name, attType, defaultValue, isFixed)
  {
    AttributeDecl(name, attType, defaultValue, isFixed, false)
  }

  /** `setParameterEntity(b)`: only the flag changes. */
  function SetParameterEntity(a: AttributeDecl, b: bool): (r: AttributeDecl)
    ensures r.isParameterEntity == b
    ensures r.(isParameterEntity := a.isParameterEntity) == a
  {
    a.(isParameterEntity := b)
  }

  /** `#FIXED` is in the written text exactly when the attribute is fixed,
      as long as the name, the type and the default do not spell it. */
  lemma FixedShownIff(a: AttributeDecl)
    requires !a.isParameterEntity
    requires !Contains(a.name, "#FIXED") && !Contains(Shown(a.attType), "#FIXED")
    requires !Contains(Shown(a.defaultValue), "#FIXED")
    ensures Contains(a.ToString(), "#FIXED") <==> a.isFixed
  {
    var t := "#FIXED";
    var head := a.name + " " + Shown(a.attType);
    var r := a.ToString();
    assert r == head + a.DefaultPart();
    if a.isFixed {
      assert r[|head| + 1..|head| + 7] == t;
      assert OccursAt(r, t, |head| + 1);
      assert IndexOf(r, t) != -1;
    } else {
      IndexOfMissing(a.name, t);
      IndexOfMissing(Shown(a.attType), t);
      NoOccurrenceShort(" ", t);
      NoOccurrenceConcat(a.name, " ", t);
      NoOccurrenceConcat(a.name + " ", Shown(a.attType), t);
      DefaultPartWithoutFixed(a);
      NoOccurrenceConcat(head, a.DefaultPart(), t);
      assert forall k :: !OccursAt(r, t, k);
      assert IndexOf(r, t) == -1;
    }
  }

  /** The default part of an attribute that is not fixed never spells `#FIXED`,
      and it is empty or starts with a space. */
  lemma DefaultPartWithoutFixed(a: AttributeDecl)
    requires !a.isFixed && !Contains(Shown(a.defaultValue), "#FIXED")
    ensures forall k :: !OccursAt(a.DefaultPart(), "#FIXED", k)
    ensures a.DefaultPart() == "" || a.DefaultPart()[0] == ' '
  {
    var t := "#FIXED";
    var p := a.DefaultPart();
    if a.defaultValue == Some("#REQUIRED") || a.defaultValue == Some("#IMPLIED") {
      forall k ensures !OccursAt(p, t, k) {
        if 0 <= k && k + |t| <= |p| {
          if k == 1 {
            assert p[k..k + |t|][1] == p[2] != 'F';
          } else {
            assert p[k..k + |t|][0] == p[k] != '#';
          }
        }
      }
    } else if p != "" {
      var v := a.defaultValue.value;
      assert p == " \"" + v + "\"";
      IndexOfMissing(v, t);
      NoOccurrenceShort(" \"", t);
      NoOccurrenceShort("\"", t);
      NoOccurrenceConcat(" \"", v, t);
      NoOccurrenceConcat(" \"" + v, "\"", t);
    }
  }
}
