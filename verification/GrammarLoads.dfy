/** What each element makes the recogniser load, said of its attributes and children, and how the
    whole walk shows it. */
module GrammarLoads {
  import opened Wrappers
  import opened DocumentTree
  import opened PropertyList
  import opened GrammarWalk
  import opened GrammarCache
  import opened GrammarModes

  // ----- Attributes and text -----

  ghost predicate Given(attributes: seq<Attribute>, key: nat) {
    exists v :: v != "" && FirstIs(attributes, key, v)
  }

  lemma TextIsGiven(n: Node, key: nat)
    requires n.Element?
    ensures AttributeText(n, key) != "" <==> Given(n.attributes, key)
    ensures AttributeText(n, key) != "" ==> FirstIs(n.attributes, key, AttributeText(n, key))
    ensures AttributeText(n, key) == "" <==> NoneHas(n.attributes, key) || FirstIs(n.attributes, key, "")
  {
    hide FirstIs, NoneHas;
    FindsFirst(n.attributes, key);
  }

  /** t is the text of the last text child. */
  ghost predicate LastTextIs(ns: seq<Node>, t: string) {
    exists j :: 0 <= j < |ns| && ns[j].Content? && ns[j].data == t && forall k :: j < k < |ns| ==> ns[k].Element?
  }

  lemma {:induction false} EnclosedIsLast(ns: seq<Node>)
    ensures forall t :: t != "" ==> (EnclosedText(ns) == t <==> LastTextIs(ns, t))
  {
    if ns != [] {
      var n := |ns| - 1;
      var front := ns[..n];
      EnclosedIsLast(front);
      forall t | t != "" ensures EnclosedText(ns) == t <==> LastTextIs(ns, t) {
        if ns[n].Element? { LastInFront(ns, t); } else { LastAtEnd(ns, t); }
      }
    }
  }

  lemma LastAtEnd(ns: seq<Node>, t: string)
    requires ns != [] && ns[|ns| - 1].Content?
    ensures LastTextIs(ns, t) <==> ns[|ns| - 1].data == t
  {
  }

  lemma LastInFront(ns: seq<Node>, t: string)
    requires ns != [] && ns[|ns| - 1].Element?
    ensures LastTextIs(ns, t) <==> LastTextIs(ns[..|ns| - 1], t)
  {
    if LastTextIs(ns, t) { StillLast(ns, t); }
    if LastTextIs(ns[..|ns| - 1], t) { LastOfMore(ns, t); }
  }

  lemma StillLast(ns: seq<Node>, t: string)
    requires ns != [] && ns[|ns| - 1].Element? && LastTextIs(ns, t)
    ensures LastTextIs(ns[..|ns| - 1], t)
  {
    var front := ns[..|ns| - 1];
    var j :| 0 <= j < |ns| && ns[j].Content? && ns[j].data == t && forall k :: j < k < |ns| ==> ns[k].Element?;
    assert front[j] == ns[j];
  }

  lemma LastOfMore(ns: seq<Node>, t: string)
    requires ns != [] && ns[|ns| - 1].Element? && LastTextIs(ns[..|ns| - 1], t)
    ensures LastTextIs(ns, t)
  {
    var front := ns[..|ns| - 1];
    var j :| 0 <= j < |front| && front[j].Content? && front[j].data == t && forall k :: j < k < |front| ==> front[k].Element?;
    assert ns[j] == front[j];
    forall k | j < k < |ns| ensures ns[k].Element? {
      if k < |front| { assert ns[k] == front[k]; }
    }
  }

  /** The last text child is there and not empty. */
  ghost predicate EndsInText(ns: seq<Node>) {
    exists t :: t != "" && LastTextIs(ns, t)
  }

  lemma EnclosedEnds(ns: seq<Node>)
    ensures EnclosedText(ns) != "" <==> EndsInText(ns)
  {
    hide LastTextIs;
    EnclosedIsLast(ns);
    if EnclosedText(ns) != "" { assert LastTextIs(ns, EnclosedText(ns)); }
  }

  // ----- Fields -----

  /** Some option of the field can be spoken. */
  ghost predicate Spoken(ns: seq<Node>) {
    exists c :: c in ns && c.Element? && c.name == 27 && EndsInText(c.children)
  }

  /** Some option of the field can be keyed. */
  ghost predicate Keyed(ns: seq<Node>) {
    exists c :: c in ns && c.Element? && c.name == 27 && Given(c.attributes, 24)
  }

  /** The grammars a field has of its own, with its map. */
  ghost function FieldOwn(n: Node, m: RecMap): seq<Load>
    requires n.Element?
  {
    (if Spoken(n.children) then [Static(OptionSpeech, n, m)] else [])
    + (if Keyed(n.children) then [Static(OptionDtmf, n, m)] else [])
    + (if Given(n.attributes, 60) then [Static(BuiltinSpeech, n, m), Static(BuiltinDtmf, n, m)] else [])
  }

  lemma OptionsAre(ns: seq<Node>)
    ensures HasOption(ns, true) <==> Spoken(ns)
    ensures HasOption(ns, false) <==> Keyed(ns)
  {
    hide EnclosedText, EndsInText, Given, AttributeText;
    forall c | c in ns && c.Element? ensures EnclosedText(c.children) != "" <==> EndsInText(c.children) {
      EnclosedEnds(c.children);
    }
    forall c | c in ns && c.Element? ensures AttributeText(c, ATTRIBUTE_DTMF) != "" <==> Given(c.attributes, 24) {
      TextIsGiven(c, ATTRIBUTE_DTMF);
    }
  }

  /** A field loads its options by speech exactly when one can be spoken, by keys exactly when one can
      be keyed, and its built-in type both ways; in both walks. */
  lemma FieldLoads(p: Platform, w: Walk, r: Plain, n: Node, m: RecMap)
    requires n.Element? && AllAccepted(p) && w.ok && r.ok
    ensures BuildFieldOwn(p, w, n, m) == w.(loads := w.loads + FieldOwn(n, m))
    ensures PlainField(p, m, r, n) == r.(loads := r.loads + FieldOwn(n, m))
  {
    hide HasOption, Spoken, Keyed, Given, AttributeText;
    OptionsAre(n.children);
    TextIsGiven(n, ATTRIBUTE_TYPE);
  }

  lemma FieldOwnHas(n: Node, m: RecMap)
    requires n.Element?
    ensures Static(OptionSpeech, n, m) in FieldOwn(n, m) <==> Spoken(n.children)
    ensures Static(OptionDtmf, n, m) in FieldOwn(n, m) <==> Keyed(n.children)
    ensures Static(BuiltinSpeech, n, m) in FieldOwn(n, m) <==> Given(n.attributes, 60)
  {
    hide Spoken, Keyed, Given;
  }

  // Loads are only ever added.
  lemma {:induction false} BuildAdds(p: Platform, w: Walk, ns: seq<Node>, accept: int)
    requires |w.levels| > 1
    ensures w.loads <= BuildAll(p, w, ns, accept).loads
    decreases ns, 0
  {
    if ns != [] && w.ok {
      BuildNodeAdds(p, w, ns[0], accept);
      BuildAdds(p, BuildNode(p, w, ns[0], accept), ns[1..], accept);
    }
  }

  lemma OwnAdds(p: Platform, w: Walk, n: Node, m: RecMap, accept: int)
    requires n.Element?
    ensures w.loads <= BuildGrammar(p, w, n).loads && w.loads <= BuildLinkDtmf(p, w, n).loads
    ensures w.loads <= BuildFieldOwn(p, w, n, m).loads && w.loads <= BuildChoiceOwn(p, w, n, accept).loads
  {
    hide LoadProperties, HasOption, ChoiceText, AttributeText, Flatten;
  }

  lemma {:induction false} BuildNodeAdds(p: Platform, w: Walk, n: Node, accept: int)
    requires |w.levels| > 1
    ensures w.loads <= BuildNode(p, w, n, accept).loads
    decreases n, 1
  {
    hide LoadProperties, Pushed, Popped, Flatten, DeclaresAny, HasChild;
    hide BuildAll, BuildGrammar, BuildLinkDtmf, BuildFieldOwn, BuildChoiceOwn, MenuAccept;
    if n.Element? && w.ok {
      if n.name == NODE_GRAMMAR {
        OwnAdds(p, w, n, map[], accept);
      } else if n.name == NODE_LINK {
        OwnAdds(p, w, n, map[], accept);
        BuildAdds(p, BuildLinkDtmf(p, w, n), n.children, 0);
      } else if n.name == NODE_FIELD || n.name == NODE_MENU {
        OwnerAdds(p, w, n, accept);
      } else if n.name == NODE_CHOICE {
        BuildAdds(p, w, n.children, 0);
        OwnAdds(p, if HasChild(n.children, NODE_GRAMMAR) then BuildAll(p, w, n.children, 0) else w, n, map[], accept);
      } else {
        var w1 := w.(levels := Pushed(w.levels, n.children));
        BuildAdds(p, w1.(cache := None), n.children, accept);
        BuildAdds(p, w1, n.children, accept);
      }
    }
  }

  lemma {:induction false} OwnerAdds(p: Platform, w: Walk, n: Node, accept: int)
    requires |w.levels| > 1 && w.ok && n.Element? && (n.name == NODE_FIELD || n.name == NODE_MENU)
    ensures w.loads <= BuildNode(p, w, n, accept).loads
    decreases n, 0
  {
    hide LoadProperties, Pushed, Popped, Flatten, DeclaresAny, BuildAll, BuildFieldOwn, MenuAccept;
    var pushed := Pushed(w.levels, n.children);
    var own := if DeclaresAny(n.children) || w.cache.None? then p.recProperties(Flatten(pushed)) else w.cache;
    if own.Some? {
      var local := LoadProperties(p, n, Flatten(pushed), own.value);
      var w1 := w.(levels := pushed, cache := Some(local));
      OwnAdds(p, w1, n, local, accept);
      BuildAdds(p, BuildFieldOwn(p, w1, n, local), n.children, 0);
      BuildAdds(p, w1, n.children, MenuAccept(n));
    }
  }

  /** In the walk as it is coded a field adds its own grammars first, with its load properties over what
      the recogniser makes of the properties in scope, or over the cache when it declares none itself;
      then come those of its children. */
  lemma FieldInTheWalk(p: Platform, w: Walk, n: Node, accept: int)
    requires |w.levels| > 1 && w.ok && AllAccepted(p) && n.Element? && n.name == 13
    requires forall f :: p.recProperties(f).Some?
    ensures var f := Flatten(Pushed(w.levels, n.children));
            var below := if DeclaresAny(n.children) || w.cache.None? then p.recProperties(f).value else w.cache.value;
            w.loads + FieldOwn(n, LoadProperties(p, n, f, below)) <= BuildNode(p, w, n, accept).loads
  {
    hide LoadProperties, Pushed, Popped, Flatten, DeclaresAny, FieldOwn, BuildFieldOwn, BuildAll;
    var pushed := Pushed(w.levels, n.children);
    var own := if DeclaresAny(n.children) || w.cache.None? then p.recProperties(Flatten(pushed)) else w.cache;
    var local := LoadProperties(p, n, Flatten(pushed), own.value);
    var w1 := w.(levels := pushed, cache := Some(local));
    FieldLoads(p, w1, Plain([], true), n, local);
    BuildAdds(p, BuildFieldOwn(p, w1, n, local), n.children, 0);
  }

  // ----- Choices and menus -----

  ghost predicate HasGrammar(ns: seq<Node>) {
    exists c :: c in ns && c.Element? && c.name == 18
  }

  /** Whether a choice is accepted approximately: it says so, or says nothing and its menu does. */
  ghost predicate Approximate(n: Node, accept: int)
    requires n.Element?
  {
    FirstIs(n.attributes, 3, "approximate") || (NoneHas(n.attributes, 3) && accept != 0)
  }

  /** The grammars a choice has of its own, with the map in force. */
  ghost function ChoiceOwn(n: Node, m: RecMap, accept: int): seq<Load>
    requires n.Element?
  {
    (if Given(n.attributes, 24) then [Static(ChoiceDtmf, n, m)] else [])
    + (if !HasGrammar(n.children) && EndsInText(n.children)
       then [Static(ChoiceSpeech, n, m["vxi.rec.grammarAcceptance" := VInteger(if Approximate(n, accept) then 1 else 0)])] else [])
  }

  /** A choice is loaded by its keys exactly when it has some, and by its text exactly when it ends in
      text and contains no grammar. */
  lemma ChoiceLoads(p: Platform, m: RecMap, r: Plain, n: Node, accept: int)
    requires n.Element? && AllAccepted(p) && r.ok
    ensures PlainChoice(p, Some(m), r, n, accept) == r.(loads := r.loads + ChoiceOwn(n, m, accept))
  {
    hide EnclosedText, EndsInText, Given, AttributeText, FirstIs, NoneHas, Approximate;
    TextIsGiven(n, ATTRIBUTE_DTMF);
    EnclosedEnds(n.children);
    AcceptIs(n, accept);
    assert HasChild(n.children, NODE_GRAMMAR) <==> HasGrammar(n.children);
  }

  lemma AcceptIs(n: Node, accept: int)
    requires n.Element?
    ensures AcceptLevel(n, accept) == if Approximate(n, accept) then 1 else 0
    ensures MenuAccept(n) == if FirstIs(n.attributes, 3, "approximate") then 1 else 0
  {
    hide FirstIs, NoneHas;
    FindsFirst(n.attributes, ATTRIBUTE_ACCEPT);
  }

  /** The choices of a menu inherit its acceptance: a menu of one choice loads just that choice. */
  lemma MenuOfOneChoice(p: Platform, f: Level, n: Node, c: Node, r: Plain)
    requires n.Element? && n.name == 23 && n.children == [c] && c.Element? && c.name == 5 && c.children == []
    requires AllAccepted(p) && r.ok && p.recProperties(f).Some?
    ensures var m := LoadProperties(p, n, f, p.recProperties(f).value);
            PlainOne(p, false, f, None, None, r, n, 0)
            == r.(loads := r.loads + ChoiceOwn(c, m, if FirstIs(n.attributes, 3, "approximate") then 1 else 0))
  {
    hide LoadProperties, ChoiceOwn, PlainChoice, FirstIs, MenuAccept, HasMode;
    DeclaredSome([c]);
    assert f + Declared([c]) == f;
    var m := LoadProperties(p, n, f, p.recProperties(f).value);
    AcceptIs(n, 0);
    ChoiceLoads(p, m, r, c, MenuAccept(n));
    assert [c][1..] == [];
    assert Base(p, f, Some(n), None) == Some(m);
    assert PlainOne(p, false, f, Some(n), None, r, c, MenuAccept(n)) == PlainChoice(p, Some(m), r, c, MenuAccept(n));
    assert PlainOne(p, false, f, None, None, r, n, 0) == PlainAll(p, false, f, Some(n), None, r, [c], MenuAccept(n));
  }

  // ----- Grammars and links -----

  /** A grammar element: computed source, inline, or by address; a fragment address is an error. */
  lemma GrammarLoads(p: Platform, f: Level, r: Plain, n: Node, m: RecMap)
    requires n.Element? && AllAccepted(p) && r.ok && p.recProperties(f) == Some(m)
    ensures var q := PlainGrammar(p, f, None, r, n);
            && (Given(n.attributes, 56) ==> q == r.(loads := r.loads + [Dynamic(n)]))
            && (!Given(n.attributes, 56) && !Given(n.attributes, 55) ==>
                  q == r.(loads := r.loads + [Static(InlineGrammar, n, LoadProperties(p, n, f, m))]))
            && (forall src :: !Given(n.attributes, 56) && src != "" && FirstIs(n.attributes, 55, src) ==>
                  q == if src[0] == '#' then r.(ok := false)
                       else r.(loads := r.loads + [Static(UriGrammar, n, LoadProperties(p, n, f, m))]))
  {
    hide LoadProperties, AttributeText, Given, FirstIs, NoneHas;
    TextIsGiven(n, ATTRIBUTE_SRC);
    TextIsGiven(n, ATTRIBUTE_SRCEXPR);
    FindsFirst(n.attributes, ATTRIBUTE_SRC);
    forall src | src != "" && FirstIs(n.attributes, 55, src) ensures AttributeText(n, ATTRIBUTE_SRC) == src {
      FirstIsText(n, ATTRIBUTE_SRC, src);
    }
  }

  lemma FirstIsText(n: Node, key: nat, v: string)
    requires n.Element? && FirstIs(n.attributes, key, v)
    ensures AttributeText(n, key) == v
  {
    hide FirstIs;
    FindsFirst(n.attributes, key);
  }

  lemma LinkLoads(p: Platform, r: Plain, n: Node, m: RecMap)
    requires n.Element? && AllAccepted(p) && r.ok
    ensures PlainLink(p, Some(m), r, n) == r.(loads := r.loads + if Given(n.attributes, 24) then [Static(LinkDtmf, n, m)] else [])
  {
    hide AttributeText, Given;
    TextIsGiven(n, ATTRIBUTE_DTMF);
  }

  // ----- Load properties -----

  /** What an element's load properties are, from its attributes, the properties in scope and the
      recogniser's. */
  lemma LoadPropertiesAre(p: Platform, n: Node, f: Level, m: RecMap)
    requires n.Element?
    ensures var r := LoadProperties(p, n, f, m);
            && REC_GRAMMAR_WEIGHT in r && REC_LANGUAGE in r && REC_PREFETCH_REQUEST in r && REC_INPUT_MODES in r
            && (forall w, x :: FirstIs(n.attributes, 64, w) && p.fraction(w) == Some(x) ==> r[REC_GRAMMAR_WEIGHT] == VFloat(x))
            && (forall w :: FirstIs(n.attributes, 64, w) && p.fraction(w) == None ==> r[REC_GRAMMAR_WEIGHT] == VFloat(1.0))
            && (NoneHas(n.attributes, 64) ==> r[REC_GRAMMAR_WEIGHT] == VFloat(1.0))
            && (forall v :: FirstIs(n.attributes, 65, v) ==> r[REC_LANGUAGE] == VString(v))
            && (NoneHas(n.attributes, 65) ==> r[REC_LANGUAGE] == VString(""))
            && (forall v :: FirstIs(n.attributes, 46, v) ==> REC_GRAMMAR_MODE in r && r[REC_GRAMMAR_MODE] == VString(v))
            && (NoneHas(n.attributes, 46) ==>
                  (REC_GRAMMAR_MODE in r <==> REC_GRAMMAR_MODE in m) && (REC_GRAMMAR_MODE in m ==> r[REC_GRAMMAR_MODE] == m[REC_GRAMMAR_MODE]))
            && r[REC_PREFETCH_REQUEST]
               == VInteger(if FirstIs(n.attributes, 32, "prefetch")
                              || (NoneHas(n.attributes, 32) && PROP_FETCHHINT in m && m[PROP_FETCHHINT] == VString("prefetch")) then 1 else 0)
            && r[REC_INPUT_MODES] == VInteger(if PROP_INPUTMODES in f && f[PROP_INPUTMODES] == "voice" then 4
                                              else if PROP_INPUTMODES in f && f[PROP_INPUTMODES] == "dtmf" then 2 else 6)
  {
    hide LoadProperties, FirstIs, NoneHas;
    hide REC_GRAMMAR_WEIGHT, REC_GRAMMAR_MODE, REC_LANGUAGE, REC_PREFETCH_REQUEST, REC_INPUT_MODES, PROP_FETCHHINT, PROP_INPUTMODES;
    LoadAt(p, n, f, m);
    FindsFirst(n.attributes, ATTRIBUTE_WEIGHT);
    FindsFirst(n.attributes, ATTRIBUTE_XMLLANG);
    FindsFirst(n.attributes, ATTRIBUTE_MODE);
    FindsFirst(n.attributes, ATTRIBUTE_FETCHHINT);
  }

  /** The properties it sets, by name; all others stay as they are in the map. */
  lemma LoadPropertyNames(p: Platform, n: Node, f: Level, m: RecMap, key: string)
    requires n.Element?
    ensures var r := LoadProperties(p, n, f, m);
            var always := {"vxi.rec.grammarWeight", "vxi.rec.language", "vxi.rec.prefetchLevel", "vxi.rec.inputModes"};
            && (key in always ==> key in r)
            && (key == "vxi.rec.grammarMode" && !NoneHas(n.attributes, 46) ==> key in r)
            && (key !in always && (key != "vxi.rec.grammarMode" || NoneHas(n.attributes, 46)) ==>
                  (key in r <==> key in m) && (key in r ==> r[key] == m[key]))
  {
    hide FindAttribute, Weight, Prefetch, InputModes, AttributeText, NoneHas;
    FindsFirst(n.attributes, ATTRIBUTE_MODE);
  }

  /** The properties in scope it looks at, by name. */
  lemma PropertiesLookedAt(n: Node, f: Level, m: RecMap)
    requires n.Element?
    ensures "inputmodes" !in f ==> InputModes(f) == 6
    ensures InputModes(f) == 4 <==> "inputmodes" in f && f["inputmodes"] == "voice"
    ensures InputModes(f) == 2 <==> "inputmodes" in f && f["inputmodes"] == "dtmf"
    ensures NoneHas(n.attributes, 32) ==>
              (Prefetch(n, m) == 1 <==> "grammarfetchhint" in m && m["grammarfetchhint"] == VString("prefetch"))
  {
    hide NoneHas;
    FindsFirst(n.attributes, ATTRIBUTE_FETCHHINT);
  }
}
