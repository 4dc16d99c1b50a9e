/** Content particles (productions [47]-[50], section 3.2.1 of XML 1.0):
    element names, sequences and choices, each with a cardinality code, and
    the text they render to.

    A particle value is the datatype `Particle`; the three node classes keep
    their own mutable fields and hold their children as such values. */
module Particles {
  import opened ContentModels

  datatype Particle =
    | Name(name: string, cardinality: int)
    | Sequence(content: seq<Particle>, cardinality: int)
    | Choice(content: seq<Particle>, cardinality: int)

  /** `getType()`. */
  const PcDataType := 0
  const NameType := 1
  const SequenceType := 2
  const ChoiceType := 3

  function TypeOf(p: Particle): (r: int)
    ensures r == NameType <==> p.Name?
    ensures r == SequenceType <==> p.Sequence?
    ensures r == ChoiceType <==> p.Choice?
  {
    match p
    case Name(_, _) => NameType
    case Sequence(_, _) => SequenceType
    case Choice(_, _) => ChoiceType
  }

  /** The suffix of a known cardinality; an unknown one has none. */
  function Suffix(cardinality: int): string {
    if cardinality == Optional then "?"
    else if cardinality == OneMany then "+"
    else if cardinality == ZeroMany then "*"
    else ""
  }

  predicate KnownCardinality(cardinality: int) {
    cardinality == Once || cardinality == Optional || cardinality == ZeroMany || cardinality == OneMany
  }

  /** `toString()`: a name with its suffix, or nothing at all for an unknown
      cardinality; a group as its children's texts joined by `,` or ` | `
      inside parentheses, then its suffix. */
  function Text(p: Particle): string
    decreases p
  {
    match p
    case Name(n, c) => if KnownCardinality(c) then n + Suffix(c) else ""
    case Sequence(ps, c) => "(" + Join(Texts(ps), ",") + ")" + Suffix(c)
    case Choice(ps, c) => "(" + Join(Texts(ps), " | ") + ")" + Suffix(c)
  }

  function Texts(ps: seq<Particle>): (r: seq<string>)
    ensures |r| == |ps|
    decreases ps, 0
  {
    if ps == [] then [] else [Text(ps[0])] + Texts(ps[1..])
  }

  /** The texts with `sep` between neighbours. */
  function Join(ts: seq<string>, sep: string): string {
    if |ts| == 0 then ""
    else if |ts| == 1 then ts[0]
    else Join(ts[..|ts| - 1], sep) + sep + ts[|ts| - 1]
  }

  /** `DTDSecuence.getChildren()`: the names of direct name particles, and
      those collected from nested sequences and choices.  A choice's own
      `getChildren()` is not part of the modelled code, so it is the
      parameter `choiceChildren`. */
  function SequenceChildren(ps: seq<Particle>, choiceChildren: Particle -> set<string>): set<string>
    decreases ps
  {
    if ps == [] then {}
    else SequenceChildren(ps[..|ps| - 1], choiceChildren) + ChildrenOf(ps[|ps| - 1], choiceChildren)
  }

  /** What one particle adds to its sequence's children. */
  function ChildrenOf(p: Particle, choiceChildren: Particle -> set<string>): set<string>
    decreases p
  {
    match p
    case Name(n, _) => {n}
    case Sequence(ps, _) => SequenceChildren(ps, choiceChildren)
    case Choice(_, _) => choiceChildren(p)
  }

  /** The element names a particle mentions, in every kind of group. */
  function Names(p: Particle): set<string>
    decreases p
  {
    match p
    case Name(n, _) => {n}
    case Sequence(ps, _) => NamesOf(ps)
    case Choice(ps, _) => NamesOf(ps)
  }

  function NamesOf(ps: seq<Particle>): set<string>
    decreases ps, 0
  {
    if ps == [] then {} else Names(ps[0]) + NamesOf(ps[1..])
  }

  // ---------------------------------------------------------------------
  // Properties of the rendering and of the children

  /** The cardinality a rendered particle ends with. */
  function ReadCardinality(t: string): int {
    if |t| == 0 then Once
    else if t[|t| - 1] == '?' then Optional
    else if t[|t| - 1] == '+' then OneMany
    else if t[|t| - 1] == '*' then ZeroMany
    else Once
  }

  predicate SuffixChar(c: char) {
    c == '?' || c == '+' || c == '*'
  }

  /** The suffix written for a known cardinality reads back as that
      cardinality, for groups and for names that do not themselves end like
      a suffix. */
  lemma CardinalityReadBack(p: Particle)
    requires KnownCardinality(p.cardinality)
    requires p.Name? ==> |p.name| > 0 && !SuffixChar(p.name[|p.name| - 1])
    ensures ReadCardinality(Text(p)) == p.cardinality
  {
    var t := Text(p);
    match p
    case Name(n, c) =>
      assert t == n + Suffix(c);
      if c != Once {
        assert t[|t| - 1] == Suffix(c)[0];
      } else {
        assert t[|t| - 1] == n[|n| - 1];
      }
    case Sequence(ps, c) =>
      var g := "(" + Join(Texts(ps), ",") + ")";
      assert t == g + Suffix(c);
      if c != Once {
        assert t[|t| - 1] == Suffix(c)[0];
      } else {
        assert t[|t| - 1] == g[|g| - 1] == ')';
      }
    case Choice(ps, c) =>
      var g := "(" + Join(Texts(ps), " | ") + ")";
      assert t == g + Suffix(c);
      if c != Once {
        assert t[|t| - 1] == Suffix(c)[0];
      } else {
        assert t[|t| - 1] == g[|g| - 1] == ')';
      }
  }

  /** Appending a particle appends its text, after a separator when the
      group was not empty. */
  lemma {:induction false} TextsAppend(ps: seq<Particle>, p: Particle)
    ensures Texts(ps + [p]) == Texts(ps) + [Text(p)]
    decreases |ps|
  {
    if ps == [] {
      assert ps + [p] == [p];
    } else {
      assert (ps + [p])[1..] == ps[1..] + [p];
      TextsAppend(ps[1..], p);
    }
  }

  lemma JoinAppend(ts: seq<string>, t: string, sep: string)
    ensures Join(ts + [t], sep) == if ts == [] then t else Join(ts, sep) + sep + t
  {
    assert (ts + [t])[..|ts|] == ts;
  }

  /** After `addParticle`, a group's joined text is the old one followed by
      the separator, when there was a child, and the new child's text. */
  lemma JoinedAfterAdd(ps: seq<Particle>, p: Particle, sep: string)
    ensures Join(Texts(ps + [p]), sep) == if ps == [] then Text(p) else Join(Texts(ps), sep) + sep + Text(p)
  {
    TextsAppend(ps, p);
    JoinAppend(Texts(ps), Text(p), sep);
  }

  /** Appending a particle to a sequence adds exactly what that particle
      contributes to its children. */
  lemma ChildrenAppend(ps: seq<Particle>, p: Particle, choiceChildren: Particle -> set<string>)
    ensures SequenceChildren(ps + [p], choiceChildren) == SequenceChildren(ps, choiceChildren) + ChildrenOf(p, choiceChildren)
  {
    assert (ps + [p])[..|ps|] == ps;
  }

  lemma {:induction false} NamesOfAppend(ps: seq<Particle>, p: Particle)
    ensures NamesOf(ps + [p]) == NamesOf(ps) + Names(p)
    decreases |ps|
  {
    if ps == [] {
      assert ps + [p] == [p];
    } else {
      assert (ps + [p])[1..] == ps[1..] + [p];
      NamesOfAppend(ps[1..], p);
    }
  }

  /** When a choice's children are all the names it mentions, a sequence's
      children are exactly the element names found anywhere inside it. */
  lemma {:induction false} ChildrenAreNames(ps: seq<Particle>, choiceChildren: Particle -> set<string>)
    requires forall c: Particle :: c.Choice? ==> choiceChildren(c) == Names(c)
    ensures SequenceChildren(ps, choiceChildren) == NamesOf(ps)
    decreases ps
  {
    if ps != [] {
      var init, last := ps[..|ps| - 1], ps[|ps| - 1];
      assert ps == init + [last];
      ChildrenAreNames(init, choiceChildren);
      NamesOfAppend(init, last);
      match last
      case Name(_, _) =>
      case Sequence(qs, _) =>
        ChildrenAreNames(qs, choiceChildren);
      case Choice(_, _) =>
    }
  }

  /** Without help from the choices, a sequence's children are still among
      the names it mentions. */
  lemma {:induction false} ChildrenWithinNames(ps: seq<Particle>, choiceChildren: Particle -> set<string>)
    requires forall c: Particle :: c.Choice? ==> choiceChildren(c) <= Names(c)
    ensures SequenceChildren(ps, choiceChildren) <= NamesOf(ps)
    decreases ps
  {
    if ps != [] {
      var init, last := ps[..|ps| - 1], ps[|ps| - 1];
      assert ps == init + [last];
      ChildrenWithinNames(init, choiceChildren);
      NamesOfAppend(init, last);
      match last
      case Name(_, _) =>
      case Sequence(qs, _) =>
        ChildrenWithinNames(qs, choiceChildren);
      case Choice(_, _) =>
    }
  }

  // ---------------------------------------------------------------------
  // The node classes

  /** `DTDName`: an element name and its cardinality. */
  class DTDName {
    const name: string
    var cardinality: int

    constructor (name: string)
      ensures this.name == name && cardinality == Once
    {
      this.name := name;
      cardinality := Once;
    }

    function Value(): Particle
      reads this
    {
      Name(name, cardinality)
    }

    function GetCardinality(): (r: int)
      reads this
      ensures r == Value().cardinality
    {
      cardinality
    }

    method SetCardinality(c: int)
      modifies this
      ensures cardinality == c
    {
      cardinality := c;
    }

    /** `addParticle` does nothing on a name. */
    method AddParticle(p: Particle)
      ensures Value() == old(Value())
    {
    }

    /** A fresh list holding the particle itself. */
    function GetParticles(): (r: seq<Particle>)
      reads this
      ensures r == [Value()] && TypeOf(r[0]) == NameType
    {
      [Value()]
    }

    /** `toString()`: the switch on the cardinality. */
    function ToString(): (s: string)
      reads this
      ensures KnownCardinality(cardinality) ==> |s| == |name| + |Suffix(cardinality)| && s[..|name|] == name
      ensures !KnownCardinality(cardinality) ==> s == ""
      ensures s == Text(Value())
    {
      if cardinality == Once then name
      else if cardinality == Optional then name + "?"
      else if cardinality == OneMany then name + "+"
      else if cardinality == ZeroMany then name + "*"
      else ""
    }
  }

  /** `DTDSecuence`: an ordered list of particles and a cardinality. */
  class DTDSecuence {
    var content: seq<Particle>
    var cardinality: int

    constructor ()
      ensures content == [] && cardinality == Once
    {
      content := [];
      cardinality := Once;
    }

    function Value(): Particle
      reads this
    {
      Sequence(content, cardinality)
    }

    method AddParticle(p: Particle)
      modifies this
      ensures content == old(content) + [p] && cardinality == old(cardinality)
    {
      content := content + [p];
    }

    method SetCardinality(c: int)
      modifies this
      ensures cardinality == c && content == old(content)
    {
      cardinality := c;
    }

    function GetCardinality(): (r: int)
      reads this
      ensures r == Value().cardinality
    {
      cardinality
    }

    function GetParticles(): (r: seq<Particle>)
      reads this
      ensures r == Value().content
    {
      content
    }

    /** `toString()`: the children's texts separated by `,`. */
    method ToString() returns (s: string)
      ensures s == Text(Value())
    {
      s := GroupText(content, ",", cardinality);
    }

    /** `getChildren()`. */
    method GetChildren(choiceChildren: Particle -> set<string>) returns (children: set<string>)
      ensures children == SequenceChildren(content, choiceChildren)
    {
      children := CollectChildren(content, choiceChildren);
    }
  }

  /** `DTDChoice`: alternatives in order and a cardinality. */
  class DTDChoice {
    var content: seq<Particle>
    var cardinality: int

    constructor ()
      ensures content == [] && cardinality == Once
    {
      content := [];
      cardinality := Once;
    }

    function Value(): Particle
      reads this
    {
      Choice(content, cardinality)
    }

    method AddParticle(p: Particle)
      modifies this
      ensures content == old(content) + [p] && cardinality == old(cardinality)
    {
      content := content + [p];
    }

    method SetCardinality(c: int)
      modifies this
      ensures cardinality == c && content == old(content)
    {
      cardinality := c;
    }

    function GetCardinality(): (r: int)
      reads this
      ensures r == Value().cardinality
    {
      cardinality
    }

    function GetParticles(): (r: seq<Particle>)
      reads this
      ensures r == Value().content
    {
      content
    }

    /** `toString()`: the children's texts separated by ` | `. */
    method ToString() returns (s: string)
      ensures s == Text(Value())
    {
      s := GroupText(content, " | ", cardinality);
    }
  }

  /** The loop both groups' `toString` run: each child's text, `sep` after
      every child but the last, the closing parenthesis and the switch on
      the cardinality. */
  method GroupText(content: seq<Particle>, sep: string, cardinality: int) returns (s: string)
    ensures s == "(" + Join(Texts(content), sep) + ")" + Suffix(cardinality)
  {
    var sb := JoinLoop(content, sep);
    sb := sb + ")";
    if cardinality == Once {
      return sb;
    } else if cardinality == Optional {
      return sb + "?";
    } else if cardinality == OneMany {
      return sb + "+";
    } else if cardinality == ZeroMany {
      return sb + "*";
    }
    return sb;
  }

  method JoinLoop(content: seq<Particle>, sep: string) returns (sb: string)
    ensures sb == "(" + Join(Texts(content), sep)
  {
    ghost var ts := Texts(content);
    sb := "(";
    for i := 0 to |content|
      invariant sb == "(" + Join(ts[..i], sep) + (if 0 < i < |content| then sep else "")
    {
      TextsAt(content, i);
      JoinLoopStep(ts, i, sep, sb);
      sb := sb + Text(content[i]);
      if i < |content| - 1 {
        sb := sb + sep;
      }
    }
    assert ts[..|content|] == ts;
  }

  /** One pass of the loop of `toString()` over the texts `ts`. */
  lemma JoinLoopStep(ts: seq<string>, i: nat, sep: string, sb: string)
    requires i < |ts| && sb == "(" + Join(ts[..i], sep) + (if 0 < i then sep else "")
    ensures i < |ts| - 1 ==> sb + ts[i] + sep == "(" + Join(ts[..i + 1], sep) + sep
    ensures i == |ts| - 1 ==> sb + ts[i] == "(" + Join(ts[..i + 1], sep)
  {
    assert ts[..i + 1] == ts[..i] + [ts[i]];
    JoinAppend(ts[..i], ts[i], sep);
    if i > 0 {
      JoinedAssoc("(", Join(ts[..i], sep), sep, ts[i]);
    }
  }

  lemma JoinedAssoc(a: string, j: string, sep: string, t: string)
    ensures a + j + sep + t == a + (j + sep + t)
  {
  }

  lemma {:induction false} TextsAt(ps: seq<Particle>, i: nat)
    requires i < |ps|
    ensures Texts(ps)[i] == Text(ps[i])
    decreases ps
  {
    if i > 0 {
      TextsAt(ps[1..], i - 1);
    }
  }

  /** The loop of `getChildren()` over a sequence's content: each particle
      adds its name, a choice's children, or the children of the nested
      sequence, collected the same way. */
  method CollectChildren(content: seq<Particle>, choiceChildren: Particle -> set<string>) returns (children: set<string>)
    ensures children == SequenceChildren(content, choiceChildren)
    decreases content
  {
    children := {};
    for i := 0 to |content|
      invariant children == SequenceChildren(content[..i], choiceChildren)
    {
      var p := content[i];
      ChildrenAppend(content[..i], p, choiceChildren);
      assert content[..i + 1] == content[..i] + [p];
      match p {
        case Name(n, _) =>
          children := children + {n};
        case Choice(_, _) =>
          children := children + choiceChildren(p);
        case Sequence(nested, _) =>
          var more := CollectChildren(nested, choiceChildren);
          children := children + more;
      }
    }
    assert content[..|content|] == content;
  }
}
