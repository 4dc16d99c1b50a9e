/** The tables a DTD parse produces, their filters, and the inference of
    the root element. */
module Grammars {
  import opened ContentModels
  import opened ElementDecls
  import opened AttlistDecls
  import opened EntityDecls
  import opened NotationDecls

  /** The names listed as children by the models of the declarations under
      the keys `ks`. */
  function ChildrenOfKeys(m: map<string, ElementDecl>, ks: set<string>): set<string> {
    set k, c | k in ks && k in m && c in m[k].model.children :: c
  }

  /** Every name some declaration's model lists as a child. */
  function AllChildren(m: map<string, ElementDecl>): set<string> {
    ChildrenOfKeys(m, m.Keys)
  }

  predicate IsSystemEntity(e: EntityDecl) {
    e.kind.System?
  }

  predicate IsPublicEntity(e: EntityDecl) {
    e.kind.Public?
  }

  predicate AnyEntity(e: EntityDecl) {
    true
  }

  predicate AnyElement(e: ElementDecl) {
    true
  }

  /** A loop over the keys of `m`, in whatever order the map yields them,
      that collects the values satisfying `keep`; `keys` records the order. */
  method CollectValues<T>(m: map<string, T>, keep: T -> bool) returns (result: seq<T>, ghost keys: seq<string>)
    ensures |keys| == |result|
    ensures forall i :: 0 <= i < |keys| ==> keys[i] in m && result[i] == m[keys[i]]
    ensures forall i, j :: 0 <= i < j < |keys| ==> keys[i] != keys[j]
    ensures forall k :: k in m && keep(m[k]) <==> k in keys
  {
    var remaining := m.Keys;
    result, keys := [], [];
    while remaining != {}
      invariant remaining <= m.Keys
      invariant |keys| == |result|
      invariant forall i :: 0 <= i < |keys| ==> keys[i] in m && keys[i] !in remaining && result[i] == m[keys[i]] && keep(result[i])
      invariant forall i, j :: 0 <= i < j < |keys| ==> keys[i] != keys[j]
      invariant forall k :: k in m && k !in remaining && keep(m[k]) ==> k in keys
      decreases remaining
    {
      var k :| k in remaining;
      if keep(m[k]) {
        result, keys := result + [m[k]], keys + [k];
      }
      remaining := remaining - {k};
    }
  }

  class Grammar {
    const elementDeclMap: map<string, ElementDecl>
    const attributeListMap: map<string, AttlistDecl>
    const entitiesMap: map<string, EntityDecl>
    const notationsMap: map<string, NotationDecl>

    constructor (elementDeclMap: map<string, ElementDecl>, attributeListMap: map<string, AttlistDecl>,
                 entitiesMap: map<string, EntityDecl>, notationsMap: map<string, NotationDecl>)
      ensures this.elementDeclMap == elementDeclMap && this.attributeListMap == attributeListMap
      ensures this.entitiesMap == entitiesMap && this.notationsMap == notationsMap
    {
      this.elementDeclMap := elementDeclMap;
      this.attributeListMap := attributeListMap;
      this.entitiesMap := entitiesMap;
      this.notationsMap := notationsMap;
    }

    /** `getSytemEntities()`: one entry per SYSTEM entity, and no other. */
    method GetSystemEntities() returns (result: seq<EntityDecl>, ghost keys: seq<string>)
      ensures |keys| == |result| && forall i :: 0 <= i < |keys| ==> keys[i] in entitiesMap && result[i] == entitiesMap[keys[i]]
      ensures forall i, j :: 0 <= i < j < |keys| ==> keys[i] != keys[j]
      ensures forall k :: k in entitiesMap && entitiesMap[k].kind.System? <==> k in keys
      ensures forall e :: e in result ==> e.kind.System?
    {
      result, keys := CollectValues(entitiesMap, IsSystemEntity);
    }

    /** `getPublicEntities()`: one entry per PUBLIC entity, and no other. */
    method GetPublicEntities() returns (result: seq<EntityDecl>, ghost keys: seq<string>)
      ensures |keys| == |result| && forall i :: 0 <= i < |keys| ==> keys[i] in entitiesMap && result[i] == entitiesMap[keys[i]]
      ensures forall i, j :: 0 <= i < j < |keys| ==> keys[i] != keys[j]
      ensures forall k :: k in entitiesMap && entitiesMap[k].kind.Public? <==> k in keys
      ensures forall e :: e in result ==> e.kind.Public?
    {
      result, keys := CollectValues(entitiesMap, IsPublicEntity);
    }

    /** `getEntities()`: every entity value, once per key. */
    method GetEntities() returns (result: seq<EntityDecl>, ghost keys: seq<string>)
      ensures |keys| == |result| && forall i :: 0 <= i < |keys| ==> keys[i] in entitiesMap && result[i] == entitiesMap[keys[i]]
      ensures forall i, j :: 0 <= i < j < |keys| ==> keys[i] != keys[j]
      ensures forall k :: k in entitiesMap <==> k in keys
    {
      result, keys := CollectValues(entitiesMap, AnyEntity);
    }

    /** `getElements()`: one declaration per key. */
    method GetElements() returns (result: seq<ElementDecl>, ghost keys: seq<string>)
      ensures |keys| == |result| && forall i :: 0 <= i < |keys| ==> keys[i] in elementDeclMap && result[i] == elementDeclMap[keys[i]]
      ensures forall i, j :: 0 <= i < j < |keys| ==> keys[i] != keys[j]
      ensures forall k :: k in elementDeclMap <==> k in keys
    {
      result, keys := CollectValues(elementDeclMap, AnyElement);
    }

    /** `getRootElement()`: a count test, then the first key in iteration
        order that no model lists as a child, unless its model is EMPTY. */
    method GetRootElement() returns (r: string)
      ensures r == "" || (r in elementDeclMap && r !in AllChildren(elementDeclMap) && elementDeclMap[r].model.modelType != Empty)
      ensures r != "" ==> |elementDeclMap.Keys| - |AllChildren(elementDeclMap)| == 1
      ensures |elementDeclMap.Keys| - |AllChildren(elementDeclMap)| == 1
              && (forall k :: k in elementDeclMap && k !in AllChildren(elementDeclMap) ==> elementDeclMap[k].model.modelType != Empty)
              ==> r in elementDeclMap && r !in AllChildren(elementDeclMap)
      ensures AllChildren(elementDeclMap) <= elementDeclMap.Keys && |elementDeclMap.Keys| - |AllChildren(elementDeclMap)| == 1
              ==> forall k :: k in elementDeclMap && k !in AllChildren(elementDeclMap) ==>
                    r == if elementDeclMap[k].model.modelType == Empty then "" else k
    {
      var m := elementDeclMap;
      var discarded := Discarded(m);
      if |m.Keys| - |discarded| != 1 {
        return "";
      }
      Undiscarded(m.Keys, discarded);
      var remaining := m.Keys;
      while remaining != {}
        invariant remaining <= m.Keys
        invariant forall k :: k in m && k !in remaining ==> k in discarded
        decreases remaining
      {
        var key :| key in remaining;
        if key !in discarded {
          if discarded <= m.Keys {
            var k0 :| m.Keys - discarded == {k0};
            assert key in m.Keys - discarded;
            forall k | k in m && k !in discarded
              ensures k == key
            {
              assert k in m.Keys - discarded;
            }
          }
          if m[key].model.modelType == Empty {
            return "";
          }
          return key;
        }
        remaining := remaining - {key};
      }
      assert false;
    }
  }

  /** The first loop of `getRootElement`: the union of every model's
      children, over the keys in any order. */
  method Discarded(m: map<string, ElementDecl>) returns (discarded: set<string>)
    ensures discarded == AllChildren(m)
  {
    discarded := {};
    var remaining := m.Keys;
    while remaining != {}
      invariant remaining <= m.Keys
      invariant discarded == ChildrenOfKeys(m, m.Keys - remaining)
      decreases remaining
    {
      var key :| key in remaining;
      ChildrenOfOneMore(m, m.Keys - remaining, key);
      assert m.Keys - (remaining - {key}) == (m.Keys - remaining) + {key};
      discarded := discarded + m[key].model.children;
      remaining := remaining - {key};
    }
    assert m.Keys - remaining == m.Keys;
  }

  lemma ChildrenOfOneMore(m: map<string, ElementDecl>, ks: set<string>, key: string)
    requires key in m
    ensures ChildrenOfKeys(m, ks + {key}) == ChildrenOfKeys(m, ks) + m[key].model.children
  {
  }

  /** A key count one above the count of discarded names leaves a key
      undiscarded; when every discarded name is a key, exactly one. */
  lemma Undiscarded(keys: set<string>, discarded: set<string>)
    requires |keys| - |discarded| == 1
    ensures exists k :: k in keys && k !in discarded
    ensures discarded <= keys ==> exists k :: keys - discarded == {k}
  {
    if keys <= discarded {
      SubsetSize(keys, discarded);
    }
    if discarded <= keys {
      DifferenceSize(keys, discarded);
      var rest := keys - discarded;
      var k :| k in rest;
      assert |rest - {k}| == |rest| - 1 == 0;
      assert rest == {k};
    }
  }

  lemma {:induction false} SubsetSize(a: set<string>, b: set<string>)
    requires a <= b
    ensures |a| <= |b|
    decreases |a|
  {
    if a != {} {
      var x :| x in a;
      SubsetSize(a - {x}, b - {x});
    }
  }

  lemma {:induction false} DifferenceSize(a: set<string>, b: set<string>)
    requires b <= a
    ensures |a - b| == |a| - |b|
    decreases |b|
  {
    if b != {} {
      var x :| x in b;
      assert a - b == (a - {x}) - (b - {x});
      DifferenceSize(a - {x}, b - {x});
    }
  }
}
