/** The property stack: six levels of name/value maps, pushed and popped by the element walks. */
module PropertyList {
  import opened Wrappers
  import opened DocumentTree

  const LAST_PROP: nat := 6

  const NODE_PROPERTY: nat := 30
  const ATTRIBUTE_NAME: nat := 47
  const ATTRIBUTE_VALUE: nat := 61

  type Level = map<string, string>

  // ----- Meaning -----

  /** All levels overlaid, higher levels winning. */
  function Flatten(levels: seq<Level>): Level {
    if levels == [] then map[] else Flatten(levels[..|levels| - 1]) + levels[|levels| - 1]
  }

  /** The value at the highest level, at or below `top`, that has the key. */
  function Lookup(levels: seq<Level>, key: string): Option<string> {
    if levels == [] then None
    else if key in levels[|levels| - 1] then Some(levels[|levels| - 1][key])
    else Lookup(levels[..|levels| - 1], key)
  }

  predicate IsProperty(n: Node) {
    n.Element? && n.name == NODE_PROPERTY
  }

  predicate DeclaresAny(ns: seq<Node>) {
    exists n :: n in ns && IsProperty(n)
  }

  function AttributeText(n: Node, key: nat): string
    requires n.Element?
  {
    match FindAttribute(n.attributes, key)
    case Some(v) => v
    case None => ""
  }

  /** The properties these children declare; of duplicates the first counts. */
  function Declared(ns: seq<Node>): Level {
    if ns == [] then map[]
    else if IsProperty(ns[0]) then Declared(ns[1..]) + map[AttributeText(ns[0], ATTRIBUTE_NAME) := AttributeText(ns[0], ATTRIBUTE_VALUE)]
    else Declared(ns[1..])
  }

  // The highest level that is not empty, or the lowest level.
  function LastUsed(levels: seq<Level>): (i: nat)
    requires levels != []
    ensures i < |levels| && (i > 0 ==> levels[i] != map[])
    ensures forall j :: i < j < |levels| ==> levels[j] == map[]
  {
    if |levels| == 1 || levels[|levels| - 1] != map[] then |levels| - 1
    else LastUsed(levels[..|levels| - 1])
  }

  /** Where a push goes: the first free level, or the last level when none is free. */
  function PushTarget(levels: seq<Level>): (i: nat)
    requires levels != []
    ensures i < |levels|
  {
    if LastUsed(levels) == |levels| - 1 then |levels| - 1 else LastUsed(levels) + 1
  }

  /** std::map::insert keeps what is there. */
  function Pushed(levels: seq<Level>, ns: seq<Node>): (r: seq<Level>)
    requires levels != []
    ensures |r| == |levels|
  {
    var i := PushTarget(levels);
    levels[i := Declared(ns) + levels[i]]
  }

  function Popped(levels: seq<Level>): (r: seq<Level>)
    requires levels != []
    ensures |r| == |levels|
  {
    levels[LastUsed(levels) := map[]]
  }

  // ----- Laws -----

  /** Flattening the stack and looking a key up from the top are the same thing. */
  lemma {:induction false} FlattenIsLookup(levels: seq<Level>, key: string)
    ensures Lookup(levels, key) == if key in Flatten(levels) then Some(Flatten(levels)[key]) else None
  {
    if levels != [] {
      FlattenIsLookup(levels[..|levels| - 1], key);
    }
  }

  lemma {:induction false} DeclaredSome(ns: seq<Node>)
    ensures Declared(ns) != map[] <==> DeclaresAny(ns)
  {
    if ns != [] {
      DeclaredSome(ns[1..]);
      assert ns == [ns[0]] + ns[1..];
      if IsProperty(ns[0]) {
        assert AttributeText(ns[0], ATTRIBUTE_NAME) in Declared(ns);
      }
    }
  }

  /** A property element for this key: number 30, its first attribute 47 the key. */
  ghost predicate Names(n: Node, key: string) {
    n.Element? && n.name == 30 && (FirstIs(n.attributes, 47, key) || (key == "" && NoneHas(n.attributes, 47)))
  }

  /** Its value is the first attribute 61. */
  ghost predicate Gives(n: Node, value: string) {
    n.Element? && (FirstIs(n.attributes, 61, value) || (value == "" && NoneHas(n.attributes, 61)))
  }

  ghost predicate DeclaredAt(ns: seq<Node>, j: nat, key: string, value: string) {
    j < |ns| && Names(ns[j], key) && Gives(ns[j], value) && forall i :: 0 <= i < j ==> !Names(ns[i], key)
  }

  /** A key has the value of the first property element for it. */
  lemma {:induction false} FirstDeclaration(ns: seq<Node>, key: string, value: string)
    ensures key in Declared(ns) && Declared(ns)[key] == value <==> exists j: nat :: DeclaredAt(ns, j, key, value)
  {
    hide Names, Gives;
    if ns != [] {
      var rest := ns[1..];
      FirstDeclaration(rest, key, value);
      PropertyNames(ns[0], key, value);
      if Names(ns[0], key) {
        assert Gives(ns[0], value) ==> DeclaredAt(ns, 0, key, value);
      } else {
        if j: nat :| DeclaredAt(ns, j, key, value) {
          assert j > 0;
          assert DeclaredAt(rest, j - 1, key, value);
        }
        if j: nat :| DeclaredAt(rest, j, key, value) { DeclaredLater(ns, j, key, value); }
      }
    }
  }

  lemma DeclaredLater(ns: seq<Node>, j: nat, key: string, value: string)
    requires ns != [] && DeclaredAt(ns[1..], j, key, value) && !Names(ns[0], key)
    ensures DeclaredAt(ns, j + 1, key, value)
  {
    hide Names, Gives;
    forall i | 0 <= i < j + 1 ensures !Names(ns[i], key) {
      if i > 0 { assert ns[i] == ns[1..][i - 1]; }
    }
  }

  lemma PropertyNames(n: Node, key: string, value: string)
    ensures Names(n, key) <==> IsProperty(n) && AttributeText(n, ATTRIBUTE_NAME) == key
    ensures n.Element? ==> (Gives(n, value) <==> AttributeText(n, ATTRIBUTE_VALUE) == value)
  {
    hide FindAttribute, FirstIs, NoneHas;
    if n.Element? {
      FindsFirst(n.attributes, 47);
      FindsFirst(n.attributes, 61);
    }
  }

  lemma LastUsedIs(levels: seq<Level>, i: nat)
    requires i < |levels| && (i > 0 ==> levels[i] != map[])
    requires forall j :: i < j < |levels| ==> levels[j] == map[]
    ensures LastUsed(levels) == i
  {
  }

  /** A push that finds properties is undone by the next pop exactly when the last level is free. */
  lemma PushThenPop(levels: seq<Level>, ns: seq<Node>)
    requires |levels| > 1 && DeclaresAny(ns)
    ensures Popped(Pushed(levels, ns)) == levels <==> levels[|levels| - 1] == map[]
    ensures levels[|levels| - 1] == map[] ==> LastUsed(Pushed(levels, ns)) == LastUsed(levels) + 1
  {
    DeclaredSome(ns);
    var i := PushTarget(levels);
    assert levels[i] == map[] ==> Declared(ns) + levels[i] == Declared(ns);
    var k :| k in Declared(ns);
    assert k in Declared(ns) + levels[i];
    LastUsedIs(Pushed(levels, ns), i);
  }

  /** A push that finds nothing changes nothing. */
  lemma PushNothing(levels: seq<Level>, ns: seq<Node>)
    requires levels != [] && !DeclaresAny(ns)
    ensures Pushed(levels, ns) == levels
  {
    DeclaredSome(ns);
    var i := PushTarget(levels);
    assert map[] + levels[i] == levels[i];
  }

  lemma {:induction false} FlattenTail(levels: seq<Level>, n: nat)
    requires n <= |levels| && forall j :: n <= j < |levels| ==> levels[j] == map[]
    ensures Flatten(levels) == Flatten(levels[..n])
    decreases |levels|
  {
    if n < |levels| {
      var l := levels[..|levels| - 1];
      FlattenTail(l, n);
      assert l[..n] == levels[..n];
    } else {
      assert levels[..n] == levels;
    }
  }

  lemma FlattenStep(levels: seq<Level>, i: nat)
    requires i < |levels|
    ensures Flatten(levels[..i + 1]) == Flatten(levels[..i]) + levels[i]
  {
    assert levels[..i + 1][..i] == levels[..i];
  }

  /** While a level is free, properties in scope after a push are the old ones overlaid with the
      new; with the last level occupied, what it already holds wins over the new. */
  lemma PushOverlays(levels: seq<Level>, ns: seq<Node>)
    requires |levels| > 1
    ensures levels[|levels| - 1] == map[] ==> Flatten(Pushed(levels, ns)) == Flatten(levels) + Declared(ns)
    ensures levels[|levels| - 1] != map[] ==>
              Flatten(Pushed(levels, ns)) == Flatten(levels[..|levels| - 1]) + (Declared(ns) + levels[|levels| - 1])
  {
    hide Flatten, Declared;
    var i := PushTarget(levels);
    var p := Pushed(levels, ns);
    FlattenStep(p, i);
    FlattenTail(p, i + 1);
    assert p[..i + 1][..i] == levels[..i];
    if levels[|levels| - 1] == map[] {
      FlattenTail(levels, i);
      assert Declared(ns) + levels[i] == Declared(ns);
    }
  }

  // ----- The class -----

  class PropertyList {
    var properties: seq<Level>

    ghost predicate Valid()
      reads this
    {
      |properties| == LAST_PROP
    }

    constructor ()
      ensures Valid() && |properties| == 6 && forall i :: 0 <= i < 6 ==> properties[i] == map[]
    {
      var levels: seq<Level> := [];
      while |levels| < LAST_PROP
        invariant |levels| <= LAST_PROP && forall i :: 0 <= i < |levels| ==> levels[i] == map[]
      {
        levels := levels + [map[]];
      }
      properties := levels;
    }

    /** Scans down from level L, or from the last level when L is LAST_PROP. */
    method GetProperty(key: string, L: nat) returns (r: Option<string>)
      requires Valid() && L <= LAST_PROP
      ensures r == Lookup(properties[..if L == LAST_PROP then LAST_PROP else L + 1], key)
    {
      var pos: int := L;
      if pos == LAST_PROP { pos := pos - 1; }
      ghost var start := properties[..pos + 1];
      while pos >= 0
        invariant -1 <= pos < LAST_PROP
        invariant Lookup(start, key) == Lookup(properties[..pos + 1], key)
      {
        assert properties[..pos + 1][..pos] == properties[..pos];
        if key in properties[pos] { return Some(properties[pos][key]); }
        pos := pos - 1;
      }
      r := None;
    }

    method PushProperties(doc: seq<Node>) returns (foundSomething: bool)
      requires Valid()
      modifies this
      ensures Valid() && properties == Pushed(old(properties), doc)
      ensures foundSomething <==> DeclaresAny(doc)
    {
      hide Declared, DeclaresAny, LastUsed;
      // Down to the level in use; level 0 counts as in use.
      var i := LAST_PROP - 1;
      while i > 0 && properties[i] == map[]
        invariant 0 <= i < LAST_PROP
        invariant forall j :: i < j < LAST_PROP ==> properties[j] == map[]
      {
        i := i - 1;
      }
      LastUsedIs(properties, i);
      var target := if i == LAST_PROP - 1 then i else i + 1;

      // What is already there stays: of two declarations the earlier counts.
      foundSomething := false;
      ghost var start := properties[target];
      var k := 0;
      NothingDeclared(start);
      assert doc[..0] == [];
      while k < |doc|
        invariant 0 <= k <= |doc|
        invariant Valid() && properties == old(properties)[target := Declared(doc[..k]) + start]
        invariant foundSomething <==> DeclaresAny(doc[..k])
      {
        var elem := doc[k];
        DeclaredStep(doc, k);
        if IsProperty(elem) {
          var name := AttributeText(elem, ATTRIBUTE_NAME);
          if name !in properties[target] {
            properties := properties[target := properties[target][name := AttributeText(elem, ATTRIBUTE_VALUE)]];
          }
          OverStart(Declared(doc[..k]), start, name, AttributeText(elem, ATTRIBUTE_VALUE));
          foundSomething := true;
        }
        k := k + 1;
      }
      assert doc[..|doc|] == doc;
    }

    method PopProperties()
      requires Valid()
      modifies this
      ensures Valid() && properties == Popped(old(properties))
    {
      var i := LAST_PROP - 1;
      while i > 0 && properties[i] == map[]
        invariant 0 <= i < LAST_PROP
        invariant forall j :: i < j < LAST_PROP ==> properties[j] == map[]
      {
        i := i - 1;
      }
      LastUsedIs(properties, i);
      properties := properties[i := map[]];
    }

    method GetProperties() returns (collapsed: Level)
      requires Valid()
      ensures collapsed == Flatten(properties)
    {
      collapsed := map[];
      var i := 0;
      while i < |properties|
        invariant 0 <= i <= |properties|
        invariant collapsed == Flatten(properties[..i])
      {
        assert properties[..i + 1][..i] == properties[..i];
        collapsed := collapsed + properties[i];
        i := i + 1;
      }
      assert properties[..|properties|] == properties;
    }
  }

  lemma NothingDeclared(start: Level)
    ensures Declared([]) + start == start && !DeclaresAny([])
  {
  }

  // A new key goes in; a key that is there keeps its value.
  lemma OverStart(declared: Level, start: Level, key: string, value: string)
    ensures map[key := value] + declared + start
            == if key in declared + start then declared + start else (declared + start)[key := value]
  {
  }

  lemma {:induction false} DeclaredStep(ns: seq<Node>, k: nat)
    requires k < |ns|
    ensures DeclaresAny(ns[..k + 1]) <==> DeclaresAny(ns[..k]) || IsProperty(ns[k])
    ensures Declared(ns[..k + 1]) ==
            if IsProperty(ns[k])
            then map[AttributeText(ns[k], ATTRIBUTE_NAME) := AttributeText(ns[k], ATTRIBUTE_VALUE)] + Declared(ns[..k])
            else Declared(ns[..k])
  {
    assert ns[..k + 1] == ns[..k] + [ns[k]];
    DeclaredAppend(ns[..k], ns[k]);
  }

  lemma {:induction false} DeclaredAppend(ns: seq<Node>, n: Node)
    ensures Declared(ns + [n]) ==
            if IsProperty(n)
            then map[AttributeText(n, ATTRIBUTE_NAME) := AttributeText(n, ATTRIBUTE_VALUE)] + Declared(ns)
            else Declared(ns)
  {
    if ns == [] {
      assert ns + [n] == [n];
      assert [n][1..] == [];
    } else {
      assert (ns + [n])[1..] == ns[1..] + [n];
      DeclaredAppend(ns[1..], n);
    }
  }
}
