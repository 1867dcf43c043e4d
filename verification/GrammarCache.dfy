/** What the property cache of the grammar walk does: the coded walk loads what the plain walk loads,
    in the same order, but for modes that show through, and leaves the property stack as it found it. */
module GrammarCache {
  import opened Wrappers
  import opened DocumentTree
  import opened PropertyList
  import opened GrammarWalk

  lemma KeysDiffer()
    ensures REC_GRAMMAR_WEIGHT != REC_GRAMMAR_MODE && REC_GRAMMAR_WEIGHT != REC_LANGUAGE
    ensures REC_GRAMMAR_WEIGHT != REC_PREFETCH_REQUEST && REC_GRAMMAR_WEIGHT != REC_INPUT_MODES
    ensures REC_GRAMMAR_MODE != REC_LANGUAGE && REC_GRAMMAR_MODE != REC_PREFETCH_REQUEST && REC_GRAMMAR_MODE != REC_INPUT_MODES
    ensures REC_LANGUAGE != REC_PREFETCH_REQUEST && REC_LANGUAGE != REC_INPUT_MODES
    ensures REC_PREFETCH_REQUEST != REC_INPUT_MODES
    ensures PROP_FETCHHINT !in {REC_GRAMMAR_WEIGHT, REC_GRAMMAR_MODE, REC_LANGUAGE, REC_PREFETCH_REQUEST, REC_INPUT_MODES}
    ensures REC_GRAMMAR_ACCEPTANCE !in {REC_GRAMMAR_WEIGHT, REC_GRAMMAR_MODE, REC_LANGUAGE, REC_PREFETCH_REQUEST, REC_INPUT_MODES}
  {
    assert PROP_FETCHHINT[0] == 'g';
    assert REC_GRAMMAR_WEIGHT[0] == 'v' && REC_GRAMMAR_MODE[0] == 'v' && REC_LANGUAGE[0] == 'v'
        && REC_PREFETCH_REQUEST[0] == 'v' && REC_INPUT_MODES[0] == 'v';
    assert REC_GRAMMAR_WEIGHT[15] == 'W' && REC_GRAMMAR_MODE[15] == 'M' && REC_GRAMMAR_ACCEPTANCE[15] == 'A';
    assert REC_LANGUAGE[8] == 'l' && REC_PREFETCH_REQUEST[8] == 'p' && REC_INPUT_MODES[8] == 'i' && REC_GRAMMAR_WEIGHT[8] == 'g'
        && REC_GRAMMAR_MODE[8] == 'g' && REC_GRAMMAR_ACCEPTANCE[8] == 'g';
  }

  // What LoadProperties does at each key.
  lemma LoadAt(p: Platform, n: Node, f: Level, m: RecMap)
    requires n.Element?
    ensures var r := LoadProperties(p, n, f, m);
            && (forall k :: k !in LOADED && k != REC_GRAMMAR_MODE ==> (k in r <==> k in m) && (k in m ==> r[k] == m[k]))
            && (REC_GRAMMAR_MODE in r <==> HasMode(n) || REC_GRAMMAR_MODE in m)
            && (REC_GRAMMAR_MODE in r ==>
                  r[REC_GRAMMAR_MODE] == if HasMode(n) then VString(AttributeText(n, ATTRIBUTE_MODE)) else m[REC_GRAMMAR_MODE])
            && LOADED <= r.Keys
            && r[REC_GRAMMAR_WEIGHT] == VFloat(Weight(p, n)) && r[REC_LANGUAGE] == VString(AttributeText(n, ATTRIBUTE_XMLLANG))
            && r[REC_PREFETCH_REQUEST] == VInteger(Prefetch(n, m)) && r[REC_INPUT_MODES] == VInteger(InputModes(f))
  {
    hide REC_GRAMMAR_WEIGHT, REC_GRAMMAR_MODE, REC_LANGUAGE, REC_PREFETCH_REQUEST, REC_INPUT_MODES, PROP_FETCHHINT, Weight, InputModes;
    KeysDiffer();
  }

  const LOADED := {REC_GRAMMAR_WEIGHT, REC_LANGUAGE, REC_PREFETCH_REQUEST, REC_INPUT_MODES}

  /** Setting the load properties of one element over those of another equals setting them on a
      fresh map if and only if the other has no mode of its own, or this one has a mode, or the
      fresh map held that very mode already. */
  lemma LoadOverLoad(p: Platform, outer: Node, n: Node, f: Level, m: RecMap)
    requires outer.Element? && n.Element?
    ensures LoadProperties(p, n, f, LoadProperties(p, outer, f, m)) == LoadProperties(p, n, f, m)
            <==> !HasMode(outer) || HasMode(n)
                 || (REC_GRAMMAR_MODE in m && m[REC_GRAMMAR_MODE] == VString(AttributeText(outer, ATTRIBUTE_MODE)))
  {
    KeysDiffer();
    hide LoadProperties, HasMode, Weight, InputModes;
    hide REC_GRAMMAR_WEIGHT, REC_GRAMMAR_MODE, REC_LANGUAGE, REC_PREFETCH_REQUEST, REC_INPUT_MODES, PROP_FETCHHINT;
    var o := LoadProperties(p, outer, f, m);
    LoadAt(p, outer, f, m);
    LoadAt(p, n, f, o);
    LoadAt(p, n, f, m);
    var a := LoadProperties(p, n, f, o);
    var b := LoadProperties(p, n, f, m);
    if !HasMode(outer) || HasMode(n) || (REC_GRAMMAR_MODE in m && m[REC_GRAMMAR_MODE] == VString(AttributeText(outer, ATTRIBUTE_MODE))) {
      SameMaps(a, b);
    }
  }

  lemma SameMaps(a: RecMap, b: RecMap)
    requires forall k :: k in a <==> k in b
    requires forall k :: k in a && k in b ==> a[k] == b[k]
    ensures a == b
  {
    assert a.Keys == b.Keys;
  }

  // Of the map they are set in, load properties depend on the mode, where the element has none, and
  // on what they do not set themselves.
  lemma LoadDepends(p: Platform, n: Node, f: Level, a: RecMap, b: RecMap)
    requires n.Element? && Prefetch(n, a) == Prefetch(n, b)
    requires forall k :: k !in LOADED && k != REC_GRAMMAR_MODE ==> (k in a <==> k in b) && (k in a ==> a[k] == b[k])
    requires HasMode(n) || ((REC_GRAMMAR_MODE in a <==> REC_GRAMMAR_MODE in b)
                            && (REC_GRAMMAR_MODE in a ==> a[REC_GRAMMAR_MODE] == b[REC_GRAMMAR_MODE]))
    ensures LoadProperties(p, n, f, a) == LoadProperties(p, n, f, b)
  {
    hide LoadProperties, HasMode, Weight, InputModes, Prefetch;
    hide REC_GRAMMAR_WEIGHT, REC_GRAMMAR_MODE, REC_LANGUAGE, REC_PREFETCH_REQUEST, REC_INPUT_MODES, PROP_FETCHHINT;
    LoadAt(p, n, f, a);
    LoadAt(p, n, f, b);
    SameMaps(LoadProperties(p, n, f, a), LoadProperties(p, n, f, b));
  }

  /** Setting load properties over an element's is setting them on a fresh map with its mode. */
  lemma LoadOnLoad(p: Platform, outer: Node, n: Node, f: Level, m: RecMap, inherited: Option<string>)
    requires outer.Element? && n.Element?
    ensures LoadProperties(p, n, f, LoadProperties(p, outer, f, InMode(m, inherited)))
            == LoadProperties(p, n, f, InMode(m, Below(Some(outer), inherited)))
  {
    KeysDiffer();
    hide LoadProperties, HasMode, Weight, InputModes;
    hide REC_GRAMMAR_WEIGHT, REC_GRAMMAR_MODE, REC_LANGUAGE, REC_PREFETCH_REQUEST, REC_INPUT_MODES, PROP_FETCHHINT;
    var m1, m2 := InMode(m, inherited), InMode(m, Below(Some(outer), inherited));
    LoadAt(p, outer, f, m1);
    LoadDepends(p, n, f, LoadProperties(p, outer, f, m1), m2);
  }

  /** A mode makes a difference to an element exactly when the element has none of its own and the
      properties in scope do not name that very mode. */
  lemma ModeShows(p: Platform, n: Node, f: Level, m: RecMap, mode: Option<string>)
    requires n.Element?
    ensures LoadProperties(p, n, f, InMode(m, mode)) == LoadProperties(p, n, f, m)
            <==> HasMode(n) || mode.None? || (REC_GRAMMAR_MODE in m && m[REC_GRAMMAR_MODE] == VString(mode.value))
  {
    KeysDiffer();
    hide LoadProperties, HasMode, Weight, InputModes;
    hide REC_GRAMMAR_WEIGHT, REC_GRAMMAR_MODE, REC_LANGUAGE, REC_PREFETCH_REQUEST, REC_INPUT_MODES, PROP_FETCHHINT;
    LoadAt(p, n, f, InMode(m, mode));
    LoadAt(p, n, f, m);
    var a, b := LoadProperties(p, n, f, InMode(m, mode)), LoadProperties(p, n, f, m);
    if HasMode(n) || mode.None? || (REC_GRAMMAR_MODE in m && m[REC_GRAMMAR_MODE] == VString(mode.value)) {
      SameMaps(a, b);
    }
  }

  lemma LoadHasNoAcceptance(p: Platform, n: Node, f: Level, m: RecMap)
    requires n.Element? && REC_GRAMMAR_ACCEPTANCE !in m
    ensures REC_GRAMMAR_ACCEPTANCE !in LoadProperties(p, n, f, m)
  {
    KeysDiffer();
  }

  // ----- The coded walk is the walk that carries modes -----

  /** How many property levels the walk pushes at most at one time below this node. */
  function PushDepth(n: Node): nat
    decreases n, 1
  {
    if n.Content? || n.name == NODE_GRAMMAR then 0
    else PushDepthAll(n.children)
         + (if n.name != NODE_LINK && n.name != NODE_CHOICE && DeclaresAny(n.children) then 1 else 0)
  }

  function PushDepthAll(ns: seq<Node>): nat
    decreases ns, 0
  {
    if ns == [] then 0
    else
      var d := PushDepthAll(ns[1..]);
      if PushDepth(ns[0]) > d then PushDepth(ns[0]) else d
  }

  /** No property takes the name of the acceptance key. */
  predicate Tame(n: Node)
    decreases n, 1
  {
    n.Element? ==> REC_GRAMMAR_ACCEPTANCE !in Declared(n.children) && TameAll(n.children)
  }

  predicate TameAll(ns: seq<Node>)
    decreases ns, 0
  {
    ns == [] || (Tame(ns[0]) && TameAll(ns[1..]))
  }

  /** The recogniser properties name the acceptance key only if a property does. (GetRecProperties
      sets no such key.) */
  ghost predicate NoStrayAcceptance(p: Platform) {
    forall f :: p.recProperties(f).Some? && REC_GRAMMAR_ACCEPTANCE !in f ==> REC_GRAMMAR_ACCEPTANCE !in p.recProperties(f).value
  }

  ghost predicate Owned(owner: Option<Node>, inherited: Option<string>) {
    (owner.Some? ==> owner.value.Element?) && (owner.None? ==> inherited.None?)
  }

  ghost predicate Consistent(p: Platform, w: Walk, owner: Option<Node>, inherited: Option<string>) {
    Owned(owner, inherited) && (w.cache.Some? ==> w.cache == Base(p, Flatten(w.levels), owner, inherited))
  }

  /** The state of a walk that has thrown nothing, can still push d levels, and has no acceptance
      key in scope. */
  ghost predicate Ready(p: Platform, w: Walk, owner: Option<Node>, inherited: Option<string>, d: nat) {
    && |w.levels| > 1 && LastUsed(w.levels) + d <= |w.levels| - 1
    && w.ok && NoStrayAcceptance(p) && Consistent(p, w, owner, inherited) && (owner.Some? ==> w.cache.Some?)
    && REC_GRAMMAR_ACCEPTANCE !in Flatten(w.levels)
  }

  /** The coded walk r from w and the carrying walk q have the same loads and the same outcome; if
      nothing was thrown, the stack is back and the cache still stands for the properties. */
  ghost predicate Same(p: Platform, w: Walk, owner: Option<Node>, inherited: Option<string>, r: Walk, q: Plain) {
    && r.loads == q.loads && r.ok == q.ok
    && (r.ok ==> r.levels == w.levels && Consistent(p, r, owner, inherited) && (owner.Some? ==> r.cache.Some?))
  }

  lemma AcquireIsBase(p: Platform, w: Walk, owner: Option<Node>, inherited: Option<string>, d: nat)
    requires Ready(p, w, owner, inherited, d)
    ensures var w1 := Acquire(p, w);
            if w1.ok then w1.cache == Base(p, Flatten(w.levels), owner, inherited) && Ready(p, w1, owner, inherited, d)
            else Base(p, Flatten(w.levels), owner, inherited).None? && p.recProperties(Flatten(w.levels)).None?
  {
  }

  lemma BaseHasNoAcceptance(p: Platform, f: Level, owner: Option<Node>, inherited: Option<string>)
    requires NoStrayAcceptance(p) && REC_GRAMMAR_ACCEPTANCE !in f && Owned(owner, inherited)
    ensures Base(p, f, owner, inherited).Some? ==> REC_GRAMMAR_ACCEPTANCE !in Base(p, f, owner, inherited).value
  {
    if Base(p, f, owner, inherited).Some? && owner.Some? {
      KeysDiffer();
      assert REC_GRAMMAR_MODE != REC_GRAMMAR_ACCEPTANCE by {
        assert REC_GRAMMAR_MODE[15] == 'M' && REC_GRAMMAR_ACCEPTANCE[15] == 'A';
      }
      LoadHasNoAcceptance(p, owner.value, f, InMode(p.recProperties(f).value, inherited));
    }
  }

  lemma GrammarSame(p: Platform, w: Walk, owner: Option<Node>, inherited: Option<string>, n: Node)
    requires Ready(p, w, owner, inherited, 0) && n.Element?
    ensures Same(p, w, owner, inherited, BuildGrammar(p, w, n),
                 PlainGrammar(p, Flatten(w.levels), Below(owner, inherited), Plain(w.loads, true), n))
  {
    hide LoadProperties, HasMode, Flatten;
    AcquireIsBase(p, w, owner, inherited, 0);
    var f := Flatten(w.levels);
    if owner.Some? && p.recProperties(f).Some? {
      LoadOnLoad(p, owner.value, n, f, p.recProperties(f).value, inherited);
    }
  }

  lemma LinkSame(p: Platform, w: Walk, owner: Option<Node>, inherited: Option<string>, n: Node)
    requires Ready(p, w, owner, inherited, 0) && n.Element?
    ensures Same(p, w, owner, inherited, BuildLinkDtmf(p, w, n),
                 PlainLink(p, Base(p, Flatten(w.levels), owner, inherited), Plain(w.loads, true), n))
  {
    hide LoadProperties, HasMode, Flatten;
    AcquireIsBase(p, w, owner, inherited, 0);
  }

  lemma ChoiceSame(p: Platform, w: Walk, owner: Option<Node>, inherited: Option<string>, n: Node, accept: int)
    requires Ready(p, w, owner, inherited, 0) && n.Element?
    ensures Same(p, w, owner, inherited, BuildChoiceOwn(p, w, n, accept),
                 PlainChoice(p, Base(p, Flatten(w.levels), owner, inherited), Plain(w.loads, true), n, accept))
  {
    hide LoadProperties, HasMode, Flatten, AcceptLevel;
    AcquireIsBase(p, w, owner, inherited, 0);
    BaseHasNoAcceptance(p, Flatten(w.levels), owner, inherited);
    var w1 := Acquire(p, w);
    if w1.ok {
      var m := w1.cache.value;
      assert m[REC_GRAMMAR_ACCEPTANCE := VInteger(AcceptLevel(n, accept))] - {REC_GRAMMAR_ACCEPTANCE} == m;
    }
  }

  lemma PushReady(p: Platform, w: Walk, owner: Option<Node>, inherited: Option<string>, d: nat, ns: seq<Node>)
    requires Ready(p, w, owner, inherited, d + (if DeclaresAny(ns) then 1 else 0)) && REC_GRAMMAR_ACCEPTANCE !in Declared(ns)
    ensures var pushed := Pushed(w.levels, ns);
            && Flatten(pushed) == Flatten(w.levels) + Declared(ns)
            && LastUsed(pushed) + d <= |pushed| - 1
            && REC_GRAMMAR_ACCEPTANCE !in Flatten(pushed)
            && (DeclaresAny(ns) ==> Popped(pushed) == w.levels)
            && (!DeclaresAny(ns) ==> pushed == w.levels)
  {
    if DeclaresAny(ns) {
      PushThenPop(w.levels, ns);
      PushOverlays(w.levels, ns);
    } else {
      PushNothing(w.levels, ns);
      DeclaredSome(ns);
      assert Flatten(w.levels) + map[] == Flatten(w.levels);
    }
  }

  function Inner(n: Node, owner: Option<Node>, inherited: Option<string>): Option<string>
    requires n.Element? && (owner.Some? ==> owner.value.Element?)
  {
    if DeclaresAny(n.children) then None else Below(owner, inherited)
  }

  // The map a field or menu works with is the base for its children.
  lemma OwnIsBase(p: Platform, w: Walk, owner: Option<Node>, inherited: Option<string>, n: Node, d: nat)
    requires n.Element? && Ready(p, w, owner, inherited, d + (if DeclaresAny(n.children) then 1 else 0))
    requires REC_GRAMMAR_ACCEPTANCE !in Declared(n.children)
    ensures var doPop := DeclaresAny(n.children);
            var pushed := Pushed(w.levels, n.children);
            var own := if doPop || w.cache.None? then p.recProperties(Flatten(pushed)) else w.cache;
            var base := Base(p, Flatten(pushed), Some(n), Inner(n, owner, inherited));
            && (own.None? <==> base.None?)
            && (own.Some? ==> base == Some(LoadProperties(p, n, Flatten(pushed), own.value)))
  {
    hide LoadProperties, Flatten, HasMode;
    PushReady(p, w, owner, inherited, d, n.children);
    var f := Flatten(w.levels);
    if owner.Some? && p.recProperties(f).Some? {
      LoadOnLoad(p, owner.value, n, f, p.recProperties(f).value, inherited);
    }
  }

  lemma FieldSame(p: Platform, w: Walk, n: Node, m: RecMap)
    requires n.Element? && w.ok
    ensures var q := PlainField(p, m, Plain(w.loads, true), n);
            BuildFieldOwn(p, w, n, m) == w.(loads := q.loads, ok := q.ok)
  {
  }

  lemma {:induction false} WalkAllSame(p: Platform, w: Walk, owner: Option<Node>, inherited: Option<string>,
                                       ns: seq<Node>, accept: int)
    requires Ready(p, w, owner, inherited, PushDepthAll(ns)) && TameAll(ns)
    ensures Same(p, w, owner, inherited, BuildAll(p, w, ns, accept),
                 PlainAll(p, true, Flatten(w.levels), owner, inherited, Plain(w.loads, true), ns, accept))
    decreases ns, 0
  {
    hide BuildNode, PlainOne, Tame, PushDepth, Base, Flatten;
    if ns != [] {
      WalkSame(p, w, owner, inherited, ns[0], accept);
      var f := Flatten(w.levels);
      var w1 := BuildNode(p, w, ns[0], accept);
      if w1.ok {
        WalkAllSame(p, w1, owner, inherited, ns[1..], accept);
      } else {
        Stays(p, w1, ns[1..], accept);
        PlainStays(p, true, f, owner, inherited, PlainOne(p, true, f, owner, inherited, Plain(w.loads, true), ns[0], accept),
                   ns[1..], accept);
      }
    }
  }

  lemma PlainStays(p: Platform, carry: bool, f: Level, owner: Option<Node>, inherited: Option<string>, r: Plain,
                   ns: seq<Node>, accept: int)
    requires !r.ok && (owner.Some? ==> owner.value.Element?)
    ensures PlainAll(p, carry, f, owner, inherited, r, ns, accept) == r
  {
  }

  /** At every node the coded walk does what the walk that carries modes does. */
  lemma {:induction false} WalkSame(p: Platform, w: Walk, owner: Option<Node>, inherited: Option<string>, n: Node, accept: int)
    requires Ready(p, w, owner, inherited, PushDepth(n)) && Tame(n)
    ensures Same(p, w, owner, inherited, BuildNode(p, w, n, accept),
                 PlainOne(p, true, Flatten(w.levels), owner, inherited, Plain(w.loads, true), n, accept))
    decreases n, 1
  {
    if n.Element? {
      if n.name == NODE_GRAMMAR {
        hide BuildGrammar, PlainGrammar;
        GrammarSame(p, w, owner, inherited, n);
      } else if n.name == NODE_LINK {
        LinkNodeSame(p, w, owner, inherited, n, accept);
      } else if n.name == NODE_FIELD || n.name == NODE_MENU {
        OwnerNodeSame(p, w, owner, inherited, n, accept);
      } else if n.name == NODE_CHOICE {
        ChoiceNodeSame(p, w, owner, inherited, n, accept);
      } else {
        OtherNodeSame(p, w, owner, inherited, n, accept);
      }
    }
  }

  lemma {:induction false} LinkNodeSame(p: Platform, w: Walk, owner: Option<Node>, inherited: Option<string>, n: Node, accept: int)
    requires Ready(p, w, owner, inherited, PushDepth(n)) && Tame(n) && n.Element? && n.name == NODE_LINK
    ensures Same(p, w, owner, inherited, BuildNode(p, w, n, accept),
                 PlainOne(p, true, Flatten(w.levels), owner, inherited, Plain(w.loads, true), n, accept))
    decreases n, 0
  {
    hide BuildAll, PlainAll, BuildLinkDtmf, PlainLink, Base, Flatten, HasMode;
    LinkSame(p, w, owner, inherited, n);
    var w1 := BuildLinkDtmf(p, w, n);
    if w1.ok {
      WalkAllSame(p, w1, owner, inherited, n.children, 0);
    } else {
      Stays(p, w1, n.children, 0);
      PlainStays(p, true, Flatten(w.levels), owner, inherited, Plain(w1.loads, false), n.children, 0);
    }
  }

  lemma {:induction false} ChoiceNodeSame(p: Platform, w: Walk, owner: Option<Node>, inherited: Option<string>, n: Node, accept: int)
    requires Ready(p, w, owner, inherited, PushDepth(n)) && Tame(n) && n.Element? && n.name == NODE_CHOICE
    ensures Same(p, w, owner, inherited, BuildNode(p, w, n, accept),
                 PlainOne(p, true, Flatten(w.levels), owner, inherited, Plain(w.loads, true), n, accept))
    decreases n, 0
  {
    hide BuildAll, PlainAll, BuildChoiceOwn, PlainChoice, Base, Flatten, HasMode;
    var w1 := w;
    if HasChild(n.children, NODE_GRAMMAR) {
      WalkAllSame(p, w, owner, inherited, n.children, 0);
      w1 := BuildAll(p, w, n.children, 0);
    }
    if w1.ok {
      ChoiceSame(p, w1, owner, inherited, n, accept);
    }
  }

  lemma {:induction false} OwnerNodeSame(p: Platform, w: Walk, owner: Option<Node>, inherited: Option<string>, n: Node, accept: int)
    requires Ready(p, w, owner, inherited, PushDepth(n)) && Tame(n)
    requires n.Element? && (n.name == NODE_FIELD || n.name == NODE_MENU)
    ensures Same(p, w, owner, inherited, BuildNode(p, w, n, accept),
                 PlainOne(p, true, Flatten(w.levels), owner, inherited, Plain(w.loads, true), n, accept))
    decreases n, 0
  {
    hide BuildAll, PlainAll, BuildFieldOwn, PlainField, Base, Flatten, HasMode, LoadProperties, HasOption, Declared, DeclaresAny, Below;
    var d := PushDepthAll(n.children);
    PushReady(p, w, owner, inherited, d, n.children);
    OwnIsBase(p, w, owner, inherited, n, d);
    var inner := Inner(n, owner, inherited);
    var pushed := Pushed(w.levels, n.children);
    var own := if DeclaresAny(n.children) || w.cache.None? then p.recProperties(Flatten(pushed)) else w.cache;
    if own.Some? {
      var local := LoadProperties(p, n, Flatten(pushed), own.value);
      var w1 := w.(levels := pushed, cache := Some(local));
      if n.name == NODE_MENU {
        WalkAllSame(p, w1, Some(n), inner, n.children, MenuAccept(n));
      } else {
        FieldSame(p, w1, n, local);
        var w2 := BuildFieldOwn(p, w1, n, local);
        if w2.ok {
          WalkAllSame(p, w2, Some(n), inner, n.children, 0);
        } else {
          Stays(p, w2, n.children, 0);
          PlainStays(p, true, Flatten(pushed), Some(n), inner, Plain(w2.loads, false), n.children, 0);
        }
      }
    }
  }

  lemma {:induction false} OtherNodeSame(p: Platform, w: Walk, owner: Option<Node>, inherited: Option<string>, n: Node, accept: int)
    requires Ready(p, w, owner, inherited, PushDepth(n)) && Tame(n)
    requires n.Element? && n.name !in {NODE_GRAMMAR, NODE_LINK, NODE_FIELD, NODE_MENU, NODE_CHOICE}
    ensures Same(p, w, owner, inherited, BuildNode(p, w, n, accept),
                 PlainOne(p, true, Flatten(w.levels), owner, inherited, Plain(w.loads, true), n, accept))
    decreases n, 0
  {
    hide BuildAll, PlainAll, Base, Flatten, HasMode, Declared, DeclaresAny;
    var d := PushDepthAll(n.children);
    PushReady(p, w, owner, inherited, d, n.children);
    var w1 := w.(levels := Pushed(w.levels, n.children));
    if DeclaresAny(n.children) {
      WalkAllSame(p, w1.(cache := None), None, None, n.children, accept);
    } else {
      WalkAllSame(p, w1, owner, inherited, n.children, accept);
    }
  }

  /** The documents and stacks the walk can manage: the nesting of properties fits the free levels,
      and nothing is named like the acceptance key. */
  ghost predicate Walkable(p: Platform, levels: seq<Level>, doc: Node)
    requires doc.Element?
  {
    && |levels| == LAST_PROP && LastUsed(levels) + PushDepthAll(doc.children) < LAST_PROP
    && NoStrayAcceptance(p) && TameAll(doc.children) && REC_GRAMMAR_ACCEPTANCE !in Flatten(levels)
  }

  /** A whole document: the coded walk loads exactly what the carrying walk loads, in its order and
      with its outcome, and restores the stack. */
  lemma CacheCarriesModes(p: Platform, levels: seq<Level>, loads: seq<Load>, doc: Node)
    requires doc.Element? && Walkable(p, levels, doc)
    ensures var r := BuildAll(p, Walk(levels, None, loads, true), doc.children, 0);
            var q := PlainAll(p, true, Flatten(levels), None, None, Plain(loads, true), doc.children, 0);
            r.loads == q.loads && r.ok == q.ok && (r.ok ==> r.levels == levels)
  {
    WalkAllSame(p, Walk(levels, None, loads, true), None, None, doc.children, 0);
  }
}
