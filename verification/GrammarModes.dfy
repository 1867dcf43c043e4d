/** When the cache of the grammar walk can be seen: exactly where a mode attribute of a field or menu
    reaches a grammar that has none and is not in that mode already. */
module GrammarModes {
  import opened Wrappers
  import opened DocumentTree
  import opened PropertyList
  import opened GrammarWalk
  import opened GrammarCache

  // ----- Where a mode shows -----

  /** The properties in scope do not name this very mode. */
  predicate Differs(p: Platform, f: Level, mode: Option<string>) {
    && mode.Some? && p.recProperties(f).Some?
    && var m := p.recProperties(f).value;
       !(REC_GRAMMAR_MODE in m && m[REC_GRAMMAR_MODE] == VString(mode.value))
  }

  predicate GrammarShows(p: Platform, f: Level, mode: Option<string>, n: Node)
    requires n.Element?
  {
    var src := AttributeText(n, ATTRIBUTE_SRC);
    && AttributeText(n, ATTRIBUTE_SRCEXPR) == "" && !(src != "" && src[0] == '#')
    && !HasMode(n) && Differs(p, f, mode)
  }

  predicate BaseShows(p: Platform, f: Level, owner: Option<Node>, inherited: Option<string>)
    requires owner.Some? ==> owner.value.Element?
  {
    owner.Some? && !HasMode(owner.value) && Differs(p, f, inherited)
  }

  /** The field has options or a built-in type. */
  predicate OwnLoads(n: Node)
    requires n.Element?
  {
    HasOption(n.children, true) || HasOption(n.children, false) || AttributeText(n, ATTRIBUTE_TYPE) != ""
  }

  /** Some load of the plain walk, going on from q below this node, is one a mode shows through to. */
  predicate Shows(p: Platform, f: Level, owner: Option<Node>, inherited: Option<string>, q: Plain, n: Node, accept: int)
    requires owner.Some? ==> owner.value.Element?
    decreases n, 1
  {
    n.Element? && q.ok
    && var g := f + Declared(n.children);
    if n.name == NODE_GRAMMAR then GrammarShows(p, f, Below(owner, inherited), n)
    else if n.name == NODE_LINK then
      || (AttributeText(n, ATTRIBUTE_DTMF) != "" && BaseShows(p, f, owner, inherited))
      || ShowsAll(p, f, owner, inherited, PlainLink(p, Base(p, f, owner, None), q, n), n.children, 0)
    else if n.name == NODE_FIELD || n.name == NODE_MENU then
      var inner := Inner(n, owner, inherited);
      var base := Base(p, g, Some(n), None);
      && base.Some?
      && if n.name == NODE_MENU then ShowsAll(p, g, Some(n), inner, q, n.children, MenuAccept(n))
         else || (OwnLoads(n) && BaseShows(p, g, Some(n), inner))
              || ShowsAll(p, g, Some(n), inner, PlainField(p, base.value, q, n), n.children, 0)
    else if n.name == NODE_CHOICE then
      var inside := HasChild(n.children, NODE_GRAMMAR);
      var q1 := if inside then PlainAll(p, false, f, owner, None, q, n.children, 0) else q;
      || (inside && ShowsAll(p, f, owner, inherited, q, n.children, 0))
      || (q1.ok && (AttributeText(n, ATTRIBUTE_DTMF) != "" || ChoiceText(n) != "") && BaseShows(p, f, owner, inherited))
    else if DeclaresAny(n.children) then ShowsAll(p, g, None, None, q, n.children, accept)
    else ShowsAll(p, g, owner, inherited, q, n.children, accept)
  }

  predicate ShowsAll(p: Platform, f: Level, owner: Option<Node>, inherited: Option<string>, q: Plain, ns: seq<Node>, accept: int)
    requires owner.Some? ==> owner.value.Element?
    decreases ns, 0
  {
    ns != [] && q.ok
    && (Shows(p, f, owner, inherited, q, ns[0], accept)
        || ShowsAll(p, f, owner, inherited, PlainOne(p, false, f, owner, None, q, ns[0], accept), ns[1..], accept))
  }

  // ----- Comparing the two walks -----

  ghost predicate AllAccepted(p: Platform) {
    forall l :: p.accepts(l)
  }

  /** r' and q' continue r and q: alike as long as nothing shows, and, when every grammar is accepted,
      alike only then. */
  ghost predicate Compares(p: Platform, r: Plain, q: Plain, shows: bool, r': Plain, q': Plain) {
    && (r == q && !shows ==> r' == q')
    && (AllAccepted(p) && r.ok == q.ok && |r.loads| == |q.loads| ==>
          && r'.ok == q'.ok && |r'.loads| == |q'.loads|
          && (r'.loads == q'.loads <==> r.loads == q.loads && !shows))
  }

  lemma ComparesThen(p: Platform, r: Plain, q: Plain, a: bool, r1: Plain, q1: Plain, b: bool, r2: Plain, q2: Plain)
    requires Compares(p, r, q, a, r1, q1) && Compares(p, r1, q1, b, r2, q2)
    ensures Compares(p, r, q, a || b, r2, q2)
  {
  }

  lemma SayCompares(p: Platform, r: Plain, q: Plain, needed: bool, l: Load, k: Load)
    requires r.ok && q.ok && l.Static? && k.Static?
    ensures Compares(p, r, q, needed && l != k, SayIf(p, r, needed, l), SayIf(p, q, needed, k))
    ensures AllAccepted(p) ==> SayIf(p, r, needed, l).ok && SayIf(p, q, needed, k).ok
  {
    if needed && |r.loads| == |q.loads| {
      assert r.loads + [l] == q.loads + [k] <==> r.loads == q.loads && l == k by {
        assert (r.loads + [l])[|r.loads|] == l && (q.loads + [k])[|q.loads|] == k;
        assert (r.loads + [l])[..|r.loads|] == r.loads && (q.loads + [k])[..|q.loads|] == q.loads;
      }
    }
  }

  lemma Refl(p: Platform, r: Plain, q: Plain)
    ensures Compares(p, r, q, false, r, q)
    ensures r.ok && q.ok ==> Compares(p, r, q, false, r.(ok := false), q.(ok := false))
  {
  }

  /** With and without the inherited mode, the map in force is the same exactly when the mode does not
      show; otherwise the two differ at the mode. */
  lemma BaseCompares(p: Platform, f: Level, owner: Option<Node>, inherited: Option<string>)
    requires Owned(owner, inherited)
    ensures var a, b := Base(p, f, owner, inherited), Base(p, f, owner, None);
            && (a.None? <==> b.None?)
            && (!BaseShows(p, f, owner, inherited) ==> a == b)
            && (BaseShows(p, f, owner, inherited) ==>
                  a.Some? && REC_GRAMMAR_MODE in a.value && (REC_GRAMMAR_MODE in b.value ==> a.value[REC_GRAMMAR_MODE] != b.value[REC_GRAMMAR_MODE]))
  {
    hide LoadProperties;
    if owner.Some? && p.recProperties(f).Some? {
      var m := p.recProperties(f).value;
      ModeShows(p, owner.value, f, m, inherited);
      LoadAt(p, owner.value, f, InMode(m, inherited));
      LoadAt(p, owner.value, f, m);
    }
  }

  lemma GrammarCompares(p: Platform, f: Level, mode: Option<string>, r: Plain, q: Plain, n: Node)
    requires n.Element? && r.ok && q.ok
    ensures Compares(p, r, q, GrammarShows(p, f, mode, n), PlainGrammar(p, f, mode, r, n), PlainGrammar(p, f, None, q, n))
  {
    hide LoadProperties, HasMode, Compares;
    Refl(p, r, q);
    var src := AttributeText(n, ATTRIBUTE_SRC);
    if AttributeText(n, ATTRIBUTE_SRCEXPR) != "" {
      DynamicCompares(p, r, q, n);
    } else if p.recProperties(f).Some? && !(src != "" && src[0] == '#') {
      var m := p.recProperties(f).value;
      ModeShows(p, n, f, m, mode);
      var kind := if src == "" then InlineGrammar else UriGrammar;
      SayCompares(p, r, q, true, Static(kind, n, LoadProperties(p, n, f, InMode(m, mode))), Static(kind, n, LoadProperties(p, n, f, m)));
    }
  }

  lemma DynamicCompares(p: Platform, r: Plain, q: Plain, n: Node)
    requires r.ok && q.ok
    ensures Compares(p, r, q, false, Say(p, r, Dynamic(n)), Say(p, q, Dynamic(n)))
  {
    if |r.loads| == |q.loads| && r.loads != q.loads {
      assert (r.loads + [Dynamic(n)])[..|r.loads|] == r.loads && (q.loads + [Dynamic(n)])[..|q.loads|] == q.loads;
    }
  }

  lemma LinkCompares(p: Platform, a: Option<RecMap>, b: Option<RecMap>, r: Plain, q: Plain, n: Node)
    requires n.Element? && r.ok && q.ok && (a.None? <==> b.None?)
    ensures Compares(p, r, q, AttributeText(n, ATTRIBUTE_DTMF) != "" && a != b, PlainLink(p, a, r, n), PlainLink(p, b, q, n))
  {
    hide Compares;
    Refl(p, r, q);
    if AttributeText(n, ATTRIBUTE_DTMF) != "" && a.Some? {
      SayCompares(p, r, q, true, Static(LinkDtmf, n, a.value), Static(LinkDtmf, n, b.value));
    }
  }

  // One load of several, on states that may have stopped before.
  lemma SayOn(p: Platform, r: Plain, q: Plain, needed: bool, kind: LoadKind, n: Node, a: RecMap, b: RecMap)
    requires r.ok == q.ok || !AllAccepted(p)
    ensures q.ok && r.ok ==> Compares(p, r, q, needed && a != b, SayIf(p, r, needed, Static(kind, n, a)), SayIf(p, q, needed, Static(kind, n, b)))
    ensures !r.ok ==> SayIf(p, r, needed, Static(kind, n, a)) == r
    ensures !q.ok ==> SayIf(p, q, needed, Static(kind, n, b)) == q
    ensures AllAccepted(p) && r.ok ==> SayIf(p, r, needed, Static(kind, n, a)).ok && SayIf(p, q, needed, Static(kind, n, b)).ok
  {
    if r.ok && q.ok { SayCompares(p, r, q, needed, Static(kind, n, a), Static(kind, n, b)); }
  }

  lemma FieldCompares(p: Platform, a: RecMap, b: RecMap, r: Plain, q: Plain, n: Node)
    requires n.Element? && r.ok && q.ok
    ensures Compares(p, r, q, OwnLoads(n) && a != b, PlainField(p, a, r, n), PlainField(p, b, q, n))
  {
    if AllAccepted(p) {
      hide Compares, HasOption, SayIf;
      var speech, dtmf, typed := HasOption(n.children, true), HasOption(n.children, false), AttributeText(n, ATTRIBUTE_TYPE) != "";
      SayOn(p, r, q, speech, OptionSpeech, n, a, b);
      var r1, q1 := SayIf(p, r, speech, Static(OptionSpeech, n, a)), SayIf(p, q, speech, Static(OptionSpeech, n, b));
      SayOn(p, r1, q1, dtmf, OptionDtmf, n, a, b);
      var r2, q2 := SayIf(p, r1, dtmf, Static(OptionDtmf, n, a)), SayIf(p, q1, dtmf, Static(OptionDtmf, n, b));
      SayOn(p, r2, q2, typed, BuiltinSpeech, n, a, b);
      var r3, q3 := SayIf(p, r2, typed, Static(BuiltinSpeech, n, a)), SayIf(p, q2, typed, Static(BuiltinSpeech, n, b));
      SayOn(p, r3, q3, typed, BuiltinDtmf, n, a, b);
      var r4, q4 := SayIf(p, r3, typed, Static(BuiltinDtmf, n, a)), SayIf(p, q3, typed, Static(BuiltinDtmf, n, b));
      ComparesThen(p, r, q, speech && a != b, r1, q1, dtmf && a != b, r2, q2);
      ComparesThen(p, r, q, (speech && a != b) || (dtmf && a != b), r2, q2, typed && a != b, r3, q3);
      ComparesThen(p, r, q, (speech && a != b) || (dtmf && a != b) || (typed && a != b), r3, q3, typed && a != b, r4, q4);
    }
  }

  lemma ChoiceCompares(p: Platform, a: Option<RecMap>, b: Option<RecMap>, shows: bool, r: Plain, q: Plain, n: Node, accept: int)
    requires n.Element? && r.ok && q.ok && (a.None? <==> b.None?) && (!shows ==> a == b)
    requires shows ==> a.Some? && REC_GRAMMAR_MODE in a.value
                       && (REC_GRAMMAR_MODE in b.value ==> a.value[REC_GRAMMAR_MODE] != b.value[REC_GRAMMAR_MODE])
    ensures Compares(p, r, q, (AttributeText(n, ATTRIBUTE_DTMF) != "" || ChoiceText(n) != "") && shows,
                     PlainChoice(p, a, r, n, accept), PlainChoice(p, b, q, n, accept))
  {
    var dtmf, text := AttributeText(n, ATTRIBUTE_DTMF) != "", ChoiceText(n) != "";
    if AllAccepted(p) && a.Some? {
      hide Compares, ChoiceText, SayIf;
      var v := VInteger(AcceptLevel(n, accept));
      var c, d := a.value[REC_GRAMMAR_ACCEPTANCE := v], b.value[REC_GRAMMAR_ACCEPTANCE := v];
      assert REC_GRAMMAR_MODE[15] == 'M' && REC_GRAMMAR_ACCEPTANCE[15] == 'A';
      assert shows ==> c != d && a.value != b.value by {
        if shows { assert c[REC_GRAMMAR_MODE] == a.value[REC_GRAMMAR_MODE]; }
      }
      SayOn(p, r, q, dtmf, ChoiceDtmf, n, a.value, b.value);
      var r1, q1 := SayIf(p, r, dtmf, Static(ChoiceDtmf, n, a.value)), SayIf(p, q, dtmf, Static(ChoiceDtmf, n, b.value));
      SayOn(p, r1, q1, text, ChoiceSpeech, n, c, d);
      var r2, q2 := SayIf(p, r1, text, Static(ChoiceSpeech, n, c)), SayIf(p, q1, text, Static(ChoiceSpeech, n, d));
      ComparesThen(p, r, q, dtmf && a.value != b.value, r1, q1, text && c != d, r2, q2);
      Refl(p, r, q);
    }
  }

  // ----- Whole walks -----

  lemma {:induction false} CarryAllShows(p: Platform, f: Level, owner: Option<Node>, inherited: Option<string>, r: Plain, q: Plain,
                                         ns: seq<Node>, accept: int)
    requires Owned(owner, inherited)
    ensures Compares(p, r, q, ShowsAll(p, f, owner, inherited, q, ns, accept),
                     PlainAll(p, true, f, owner, inherited, r, ns, accept), PlainAll(p, false, f, owner, None, q, ns, accept))
    decreases ns, 0
  {
    hide PlainOne, Shows, Below;
    if ns != [] && r.ok && q.ok {
      CarryShows(p, f, owner, inherited, r, q, ns[0], accept);
      var r1 := PlainOne(p, true, f, owner, inherited, r, ns[0], accept);
      var q1 := PlainOne(p, false, f, owner, None, q, ns[0], accept);
      CarryAllShows(p, f, owner, inherited, r1, q1, ns[1..], accept);
      hide Compares;
      ComparesThen(p, r, q, Shows(p, f, owner, inherited, q, ns[0], accept), r1, q1,
                   ShowsAll(p, f, owner, inherited, q1, ns[1..], accept),
                   PlainAll(p, true, f, owner, inherited, r1, ns[1..], accept),
                   PlainAll(p, false, f, owner, None, q1, ns[1..], accept));
    }
  }

  /** Step for step, the carrying walk and the plain walk are alike where nothing shows, and differ
      where something does. */
  lemma {:induction false} CarryShows(p: Platform, f: Level, owner: Option<Node>, inherited: Option<string>, r: Plain, q: Plain,
                                      n: Node, accept: int)
    requires Owned(owner, inherited)
    ensures Compares(p, r, q, Shows(p, f, owner, inherited, q, n, accept),
                     PlainOne(p, true, f, owner, inherited, r, n, accept), PlainOne(p, false, f, owner, None, q, n, accept))
    decreases n, 1
  {
    if n.Element? && r.ok && q.ok {
      if n.name == NODE_GRAMMAR {
        hide PlainGrammar, GrammarShows, Compares;
        GrammarCompares(p, f, Below(owner, inherited), r, q, n);
      } else if n.name == NODE_LINK {
        LinkShows(p, f, owner, inherited, r, q, n, accept);
      } else if n.name == NODE_FIELD || n.name == NODE_MENU {
        OwnerShows(p, f, owner, inherited, r, q, n, accept);
      } else if n.name == NODE_CHOICE {
        ChoiceShows(p, f, owner, inherited, r, q, n, accept);
      } else {
        hide PlainAll, ShowsAll, Compares, Declared, DeclaresAny;
        var g := f + Declared(n.children);
        if DeclaresAny(n.children) {
          CarryAllShows(p, g, None, None, r, q, n.children, accept);
        } else {
          CarryAllShows(p, g, owner, inherited, r, q, n.children, accept);
        }
      }
    }
  }

  lemma {:induction false} LinkShows(p: Platform, f: Level, owner: Option<Node>, inherited: Option<string>, r: Plain, q: Plain,
                                     n: Node, accept: int)
    requires Owned(owner, inherited) && n.Element? && r.ok && q.ok && n.name == NODE_LINK
    ensures Compares(p, r, q, Shows(p, f, owner, inherited, q, n, accept),
                     PlainOne(p, true, f, owner, inherited, r, n, accept), PlainOne(p, false, f, owner, None, q, n, accept))
    decreases n, 0
  {
    hide PlainAll, ShowsAll, Compares, PlainLink, Base, BaseShows, Declared;
    var a, b := Base(p, f, owner, inherited), Base(p, f, owner, None);
    BaseCompares(p, f, owner, inherited);
    LinkCompares(p, a, b, r, q, n);
    var r1, q1 := PlainLink(p, a, r, n), PlainLink(p, b, q, n);
    CarryAllShows(p, f, owner, inherited, r1, q1, n.children, 0);
    ComparesThen(p, r, q, AttributeText(n, ATTRIBUTE_DTMF) != "" && a != b, r1, q1,
                 ShowsAll(p, f, owner, inherited, q1, n.children, 0),
                 PlainAll(p, true, f, owner, inherited, r1, n.children, 0), PlainAll(p, false, f, owner, None, q1, n.children, 0));
  }

  lemma {:induction false} ChoiceShows(p: Platform, f: Level, owner: Option<Node>, inherited: Option<string>, r: Plain, q: Plain,
                                       n: Node, accept: int)
    requires Owned(owner, inherited) && n.Element? && r.ok && q.ok && n.name == NODE_CHOICE
    ensures Compares(p, r, q, Shows(p, f, owner, inherited, q, n, accept),
                     PlainOne(p, true, f, owner, inherited, r, n, accept), PlainOne(p, false, f, owner, None, q, n, accept))
    decreases n, 0
  {
    hide PlainAll, ShowsAll, Compares, PlainChoice, Base, BaseShows, Declared, HasChild, ChoiceText;
    var inside := HasChild(n.children, NODE_GRAMMAR);
    var a, b := Base(p, f, owner, inherited), Base(p, f, owner, None);
    var shows := BaseShows(p, f, owner, inherited);
    var loads := AttributeText(n, ATTRIBUTE_DTMF) != "" || ChoiceText(n) != "";
    BaseCompares(p, f, owner, inherited);
    var r1, q1, before := r, q, false;
    Refl(p, r, q);
    if inside {
      CarryAllShows(p, f, owner, inherited, r, q, n.children, 0);
      before := ShowsAll(p, f, owner, inherited, q, n.children, 0);
      r1 := PlainAll(p, true, f, owner, inherited, r, n.children, 0);
      q1 := PlainAll(p, false, f, owner, None, q, n.children, 0);
    }
    if r1.ok && q1.ok {
      ChoiceCompares(p, a, b, shows, r1, q1, n, accept);
      ComparesThen(p, r, q, before, r1, q1, loads && shows, PlainChoice(p, a, r1, n, accept), PlainChoice(p, b, q1, n, accept));
    } else {
      Stopped(p, r, q, before, r1, q1);
      ChoiceStops(p, r, q, before, r1, q1, a, b, loads && shows, n, accept);
    }
  }

  // A walk that has stopped goes no further.
  lemma Stopped(p: Platform, r: Plain, q: Plain, before: bool, r1: Plain, q1: Plain)
    requires Compares(p, r, q, before, r1, q1) && r.ok && q.ok && (!r1.ok || !q1.ok)
    ensures r == q && !before ==> !r1.ok && !q1.ok
    ensures AllAccepted(p) && |r.loads| == |q.loads| ==> !r1.ok && !q1.ok
  {
  }

  lemma ChoiceStops(p: Platform, r: Plain, q: Plain, before: bool, r1: Plain, q1: Plain, a: Option<RecMap>, b: Option<RecMap>,
                    shows: bool, n: Node, accept: int)
    requires Compares(p, r, q, before, r1, q1) && r.ok && q.ok && n.Element? && (!r1.ok || !q1.ok)
    requires r == q && !before ==> !r1.ok && !q1.ok
    requires AllAccepted(p) && |r.loads| == |q.loads| ==> !r1.ok && !q1.ok
    ensures Compares(p, r, q, before || (q1.ok && shows),
                     if !r1.ok then r1 else PlainChoice(p, a, r1, n, accept), if !q1.ok then q1 else PlainChoice(p, b, q1, n, accept))
  {
    hide PlainChoice;
  }

  lemma {:induction false} OwnerShows(p: Platform, f: Level, owner: Option<Node>, inherited: Option<string>, r: Plain, q: Plain,
                                      n: Node, accept: int)
    requires Owned(owner, inherited) && n.Element? && r.ok && q.ok && (n.name == NODE_FIELD || n.name == NODE_MENU)
    ensures Compares(p, r, q, Shows(p, f, owner, inherited, q, n, accept),
                     PlainOne(p, true, f, owner, inherited, r, n, accept), PlainOne(p, false, f, owner, None, q, n, accept))
    decreases n, 0
  {
    hide PlainAll, ShowsAll, Compares, PlainField, Base, BaseShows, Declared, Below, DeclaresAny, OwnLoads;
    var g := f + Declared(n.children);
    var inner := Inner(n, owner, inherited);
    var a, b := Base(p, g, Some(n), inner), Base(p, g, Some(n), None);
    BaseCompares(p, g, Some(n), inner);
    Refl(p, r, q);
    if b.Some? {
      if n.name == NODE_MENU {
        CarryAllShows(p, g, Some(n), inner, r, q, n.children, MenuAccept(n));
      } else {
        FieldCompares(p, a.value, b.value, r, q, n);
        var r1, q1 := PlainField(p, a.value, r, n), PlainField(p, b.value, q, n);
        CarryAllShows(p, g, Some(n), inner, r1, q1, n.children, 0);
        ComparesThen(p, r, q, OwnLoads(n) && a.value != b.value, r1, q1, ShowsAll(p, g, Some(n), inner, q1, n.children, 0),
                     PlainAll(p, true, g, Some(n), inner, r1, n.children, 0), PlainAll(p, false, g, Some(n), None, q1, n.children, 0));
      }
    }
  }

  // ----- Documents -----

  /** Whether a mode shows somewhere in the document, walked plainly from these properties. */
  predicate ModeShowsIn(p: Platform, levels: seq<Level>, doc: Node)
    requires doc.Element?
  {
    ShowsAll(p, Flatten(levels), None, None, Plain([], true), doc.children, 0)
  }

  /** The cache cannot be seen where no mode shows; and where one does, with every grammar accepted,
      the coded walk loads something else than the plain walk. */
  lemma CacheIsInvisible(p: Platform, levels: seq<Level>, doc: Node)
    requires doc.Element? && Walkable(p, levels, doc)
    ensures var r := BuildAll(p, Walk(levels, None, [], true), doc.children, 0);
            var q := PlainAll(p, false, Flatten(levels), None, None, Plain([], true), doc.children, 0);
            && (!ModeShowsIn(p, levels, doc) ==> r.loads == q.loads && r.ok == q.ok)
            && (AllAccepted(p) ==> r.ok == q.ok && (r.loads == q.loads <==> !ModeShowsIn(p, levels, doc)))
            && (r.ok ==> r.levels == levels)
  {
    CacheCarriesModes(p, levels, [], doc);
    CarryAllShows(p, Flatten(levels), None, None, Plain([], true), Plain([], true), doc.children, 0);
  }

  // ----- Documents in which no mode shows -----

  /** No field or menu has a mode attribute. */
  predicate Modeless(n: Node)
    decreases n, 1
  {
    n.Element? ==> (n.name == NODE_FIELD || n.name == NODE_MENU ==> !HasMode(n)) && ModelessAll(n.children)
  }

  predicate ModelessAll(ns: seq<Node>)
    decreases ns, 0
  {
    ns == [] || (Modeless(ns[0]) && ModelessAll(ns[1..]))
  }

  lemma {:induction false} ModelessShowsNone(p: Platform, f: Level, owner: Option<Node>, q: Plain, n: Node, accept: int)
    requires Modeless(n) && (owner.Some? ==> owner.value.Element? && !HasMode(owner.value))
    ensures !Shows(p, f, owner, None, q, n, accept)
    decreases n, 1
  {
    if n.Element? && q.ok {
      hide PlainAll, PlainField, PlainLink, ShowsAll, HasMode, Base, Declared, DeclaresAny;
      var g := f + Declared(n.children);
      if n.name == NODE_LINK {
        ModelessAllShowsNone(p, f, owner, PlainLink(p, Base(p, f, owner, None), q, n), n.children, 0);
      } else if n.name == NODE_FIELD || n.name == NODE_MENU {
        var base := Base(p, g, Some(n), None);
        if base.Some? {
          ModelessAllShowsNone(p, g, Some(n), q, n.children, MenuAccept(n));
          ModelessAllShowsNone(p, g, Some(n), PlainField(p, base.value, q, n), n.children, 0);
        }
      } else if n.name == NODE_CHOICE {
        ModelessAllShowsNone(p, f, owner, q, n.children, 0);
      } else if n.name != NODE_GRAMMAR {
        ModelessAllShowsNone(p, g, None, q, n.children, accept);
        ModelessAllShowsNone(p, g, owner, q, n.children, accept);
      }
    }
  }

  lemma {:induction false} ModelessAllShowsNone(p: Platform, f: Level, owner: Option<Node>, q: Plain, ns: seq<Node>, accept: int)
    requires ModelessAll(ns) && (owner.Some? ==> owner.value.Element? && !HasMode(owner.value))
    ensures !ShowsAll(p, f, owner, None, q, ns, accept)
    decreases ns, 0
  {
    hide Modeless, Shows, PlainOne, HasMode;
    if ns != [] && q.ok {
      ModelessShowsNone(p, f, owner, q, ns[0], accept);
      ModelessAllShowsNone(p, f, owner, PlainOne(p, false, f, owner, None, q, ns[0], accept), ns[1..], accept);
    }
  }

  /** Without mode attributes on fields and menus the cache cannot be seen, whatever the recogniser
      accepts. */
  lemma NoModesNoDifference(p: Platform, levels: seq<Level>, doc: Node)
    requires doc.Element? && Walkable(p, levels, doc) && ModelessAll(doc.children)
    ensures var r := BuildAll(p, Walk(levels, None, [], true), doc.children, 0);
            var q := PlainAll(p, false, Flatten(levels), None, None, Plain([], true), doc.children, 0);
            r.loads == q.loads && r.ok == q.ok && (r.ok ==> r.levels == levels)
  {
    ModelessAllShowsNone(p, Flatten(levels), None, Plain([], true), doc.children, 0);
    CacheIsInvisible(p, levels, doc);
  }

  const FORM: nat := 16
  const FREE_LEVELS: seq<Level> := [map[], map[], map[], map[], map[], map[]]
  const PLATFORM: Platform := Platform(f => Some(map[]), w => None, l => true)

  /** A form with a field in DTMF mode that holds a grammar without a mode: the grammar is loaded in
      DTMF mode, although its own properties name none. */
  lemma FieldModeShows(level: DocumentLevel)
    ensures var g := Element(NODE_GRAMMAR, [], level, [Content("one", 0)]);
            var field := Element(NODE_FIELD, [Attribute(ATTRIBUTE_MODE, "dtmf")], level, [g]);
            var doc := Element(FORM, [], level, [field]);
            && Walkable(PLATFORM, FREE_LEVELS, doc) && ModeShowsIn(PLATFORM, FREE_LEVELS, doc)
            && BuildAll(PLATFORM, Walk(FREE_LEVELS, None, [], true), [field], 0).loads
               != PlainAll(PLATFORM, false, Flatten(FREE_LEVELS), None, None, Plain([], true), [field], 0).loads
  {
    var g := Element(NODE_GRAMMAR, [], level, [Content("one", 0)]);
    var field := Element(NODE_FIELD, [Attribute(ATTRIBUTE_MODE, "dtmf")], level, [g]);
    var doc := Element(FORM, [], level, [field]);
    FieldIsWalkable(level);
    var f := Flatten(FREE_LEVELS);
    var q := Plain([], true);
    var f1 := f + Declared([g]);
    FieldHasNoLoads(g, q, Base(PLATFORM, f1, Some(field), None).value, level);
    assert !DeclaresAny([g]) by { assert !IsProperty(g); }
    assert Below(Some(field), None) == Some("dtmf");
    assert GrammarShows(PLATFORM, f1, Some("dtmf"), g);
    assert ShowsAll(PLATFORM, f1, Some(field), None, q, [g], 0) by { assert Shows(PLATFORM, f1, Some(field), None, q, g, 0); }
    assert Shows(PLATFORM, f, None, None, q, field, 0);
    CacheIsInvisible(PLATFORM, FREE_LEVELS, doc);
  }

  lemma FieldHasNoLoads(g: Node, q: Plain, m: RecMap, level: DocumentLevel)
    requires g.Element? && g.name == NODE_GRAMMAR
    ensures var field := Element(NODE_FIELD, [Attribute(ATTRIBUTE_MODE, "dtmf")], level, [g]);
            PlainField(PLATFORM, m, q, field) == q && FindAttribute(field.attributes, ATTRIBUTE_MODE) == Some("dtmf")
  {
    var attributes := [Attribute(ATTRIBUTE_MODE, "dtmf")];
    assert attributes[1..] == [] && FindAttribute(attributes, ATTRIBUTE_TYPE) == None;
    assert !HasOption([g], true) && !HasOption([g], false);
  }

  lemma FieldIsWalkable(level: DocumentLevel)
    ensures var g := Element(NODE_GRAMMAR, [], level, [Content("one", 0)]);
            var field := Element(NODE_FIELD, [Attribute(ATTRIBUTE_MODE, "dtmf")], level, [g]);
            Walkable(PLATFORM, FREE_LEVELS, Element(FORM, [], level, [field]))
  {
    var g := Element(NODE_GRAMMAR, [], level, [Content("one", 0)]);
    var field := Element(NODE_FIELD, [Attribute(ATTRIBUTE_MODE, "dtmf")], level, [g]);
    LastUsedIs(FREE_LEVELS, 0);
    FlattenTail(FREE_LEVELS, 0);
    assert !IsProperty(g) && !IsProperty(field) && !IsProperty(Content("one", 0));
    DeclaredSome([g]);
    DeclaredSome(g.children);
    DeclaredSome([field]);
    assert Tame(g) && TameAll([g]) && Tame(field);
    assert [g][1..] == [] && g.children[1..] == [];
    assert PushDepthAll(g.children) == 0 && PushDepth(g) == 0 && PushDepthAll([g]) == 0;
  }
}
