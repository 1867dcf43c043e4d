/** The grammar walk as GrammarManager performs it: one property stack object, map holders passed by
    reference, and a growing list of grammars. */
module GrammarBuilder {
  import opened Wrappers
  import opened DocumentTree
  import PL = PropertyList
  import opened GrammarWalk
  import opened GrammarCache
  import opened GrammarModes

  /** Owns one recogniser property map, or none. Assigning a holder copies the map. */
  class VXIMapHolder {
    var value: Option<RecMap>

    constructor (m: Option<RecMap>)
      ensures value == m
    {
      value := m;
    }
  }

  class GrammarManager {
    const platform: Platform
    var grammars: seq<Load>

    constructor (p: Platform)
      ensures platform == p && grammars == []
    {
      platform := p;
      grammars := [];
    }

    ghost function State(properties: PL.PropertyList, holder: VXIMapHolder, ok: bool): Walk
      reads this, properties, holder
    {
      Walk(properties.properties, holder.value, grammars, ok)
    }

    /** CreateGrammarFromString or CreateGrammarFromURI, then AddGrammar. */
    method AddGrammar(l: Load) returns (ok: bool)
      modifies this
      ensures forall levels, cache ::
                Walk(levels, cache, grammars, ok) == Emit(platform, Walk(levels, cache, old(grammars), true), l)
    {
      if l.Static? && !platform.accepts(l) { return false; }
      grammars := grammars + [l];
      ok := true;
    }

    /** Collects the text children; each assignment replaces what was there. */
    method GetEnclosedText(doc: Node) returns (found: bool, str: string)
      requires doc.Element?
      ensures str == EnclosedText(doc.children) && (found <==> str != "")
    {
      str := "";
      var i := 0;
      while i < |doc.children|
        invariant 0 <= i <= |doc.children| && str == EnclosedText(doc.children[..i])
      {
        assert doc.children[..i + 1][..i] == doc.children[..i];
        if doc.children[i].Content? {
          if str != "" { str := str + " "; }
          str := doc.children[i].data;
        }
        i := i + 1;
      }
      assert doc.children[..i] == doc.children;
      found := str != "";
    }

    /** Fills the holder from the property stack unless it is filled. */
    method AcquireProperties(properties: PL.PropertyList, holder: VXIMapHolder) returns (ok: bool)
      requires properties.Valid()
      modifies holder
      ensures State(properties, holder, ok) == Acquire(platform, old(State(properties, holder, true)))
    {
      ok := true;
      if holder.value.None? {
        var flat := properties.GetProperties();
        var m := platform.recProperties(flat);
        if m.None? { return false; }
        holder.value := m;
      }
    }

    method SetGrammarLoadProperties(n: Node, properties: PL.PropertyList, holder: VXIMapHolder)
      requires properties.Valid() && n.Element? && holder.value.Some?
      modifies holder
      ensures holder.value == Some(LoadProperties(platform, n, PL.Flatten(properties.properties), old(holder.value.value)))
    {
      var m := holder.value.value;
      m := m[REC_GRAMMAR_WEIGHT := VFloat(Weight(platform, n))];
      var mode := FindAttribute(n.attributes, ATTRIBUTE_MODE);
      if mode.Some? { m := m[REC_GRAMMAR_MODE := VString(mode.value)]; }
      m := m[REC_LANGUAGE := VString(PL.AttributeText(n, ATTRIBUTE_XMLLANG))];
      m := m[REC_PREFETCH_REQUEST := VInteger(Prefetch(n, m))];
      var v := properties.GetProperty(PROP_INPUTMODES, PL.LAST_PROP);
      assert properties.properties[..PL.LAST_PROP] == properties.properties;
      PL.FlattenIsLookup(properties.properties, PROP_INPUTMODES);
      var input := if v == Some("voice") then REC_INPUT_MODE_SPEECH
                   else if v == Some("dtmf") then REC_INPUT_MODE_DTMF
                   else REC_INPUT_MODE_DTMF_SPEECH;
      holder.value := Some(m[REC_INPUT_MODES := VInteger(input)]);
    }

    /** (2) grammar elements. */
    method BuildGrammarElement(n: Node, properties: PL.PropertyList, levelProperties: VXIMapHolder) returns (ok: bool)
      requires n.Element? && properties.Valid()
      modifies this, levelProperties
      ensures State(properties, levelProperties, ok)
              == BuildGrammar(platform, old(State(properties, levelProperties, true)), n)
    {
      if PL.AttributeText(n, ATTRIBUTE_SRCEXPR) != "" {
        ok := AddGrammar(Dynamic(n));
        return;
      }
      var src := PL.AttributeText(n, ATTRIBUTE_SRC);
      ok := AcquireProperties(properties, levelProperties);
      if !ok { return; }
      var localProps := new VXIMapHolder(levelProperties.value);
      SetGrammarLoadProperties(n, properties, localProps);
      if src != "" {
        if src[0] == '#' { return false; }
        ok := AddGrammar(Static(UriGrammar, n, localProps.value.value));
      } else {
        ok := AddGrammar(Static(InlineGrammar, n, localProps.value.value));
      }
    }

    /** (3.1) the key sequence of a link. */
    method BuildLinkKeys(n: Node, properties: PL.PropertyList, levelProperties: VXIMapHolder) returns (ok: bool)
      requires n.Element? && properties.Valid()
      modifies this, levelProperties
      ensures State(properties, levelProperties, ok)
              == BuildLinkDtmf(platform, old(State(properties, levelProperties, true)), n)
    {
      ok := true;
      if PL.AttributeText(n, ATTRIBUTE_DTMF) != "" {
        ok := AcquireProperties(properties, levelProperties);
        if !ok { return; }
        ok := AddGrammar(Static(LinkDtmf, n, levelProperties.value.value));
      }
    }

    // Whether any option of the field has text, and whether any has a key sequence.
    method ScanOptions(n: Node) returns (speech: bool, dtmf: bool)
      requires n.Element?
      ensures (speech <==> HasOption(n.children, true)) && (dtmf <==> HasOption(n.children, false))
    {
      speech, dtmf := false, false;
      var i := 0;
      while i < |n.children|
        invariant 0 <= i <= |n.children|
        invariant speech <==> HasOption(n.children[..i], true)
        invariant dtmf <==> HasOption(n.children[..i], false)
      {
        var c := n.children[i];
        OneMoreOption(n.children, i);
        if c.Element? && c.name == NODE_OPTION {
          var found, text := GetEnclosedText(c);
          if found { speech := true; }
          if PL.AttributeText(c, ATTRIBUTE_DTMF) != "" { dtmf := true; }
        }
        i := i + 1;
      }
      assert n.children[..i] == n.children;
    }

    static lemma OneMoreOption(ns: seq<Node>, i: nat)
      requires i < |ns|
      ensures forall b :: HasOption(ns[..i + 1], b) <==>
                HasOption(ns[..i], b)
                || (ns[i].Element? && ns[i].name == NODE_OPTION
                    && (if b then EnclosedText(ns[i].children) != "" else PL.AttributeText(ns[i], ATTRIBUTE_DTMF) != ""))
    {
      assert ns[..i + 1] == ns[..i] + [ns[i]];
    }

    /** (4.2) and (4.3) the grammars a field has of its own. */
    method BuildFieldGrammars(n: Node, properties: PL.PropertyList, localProps: VXIMapHolder) returns (ok: bool)
      requires n.Element? && properties.Valid() && localProps.value.Some?
      modifies this
      ensures State(properties, localProps, ok)
              == BuildFieldOwn(platform, old(State(properties, localProps, true)), n, localProps.value.value)
    {
      var m := localProps.value.value;
      ok := true;
      var speech, dtmf := ScanOptions(n);
      if speech { ok := AddGrammar(Static(OptionSpeech, n, m)); }
      if ok && dtmf { ok := AddGrammar(Static(OptionDtmf, n, m)); }
      if ok && PL.AttributeText(n, ATTRIBUTE_TYPE) != "" {
        ok := AddGrammar(Static(BuiltinSpeech, n, m));
        if ok { ok := AddGrammar(Static(BuiltinDtmf, n, m)); }
      }
    }

    /** (6.2) the key sequence and the text of a choice, with the acceptance key put into the shared
        map and taken out again. */
    method BuildChoiceGrammars(n: Node, properties: PL.PropertyList, levelProperties: VXIMapHolder, menuAcceptLevel: int)
      returns (ok: bool)
      requires n.Element? && properties.Valid()
      modifies this, levelProperties
      ensures State(properties, levelProperties, ok)
              == BuildChoiceOwn(platform, old(State(properties, levelProperties, true)), n, menuAcceptLevel)
    {
      ok := true;
      var dtmf := PL.AttributeText(n, ATTRIBUTE_DTMF);
      var text := "";
      if !HasChild(n.children, NODE_GRAMMAR) {
        var found;
        found, text := GetEnclosedText(n);
      }
      if dtmf == "" && text == "" { return; }
      ok := AcquireProperties(properties, levelProperties);
      if !ok { return; }
      if dtmf != "" {
        ok := AddGrammar(Static(ChoiceDtmf, n, levelProperties.value.value));
        if !ok { return; }
      }
      if text != "" {
        var m := levelProperties.value.value[REC_GRAMMAR_ACCEPTANCE := VInteger(AcceptLevel(n, menuAcceptLevel))];
        levelProperties.value := Some(m);
        ok := AddGrammar(Static(ChoiceSpeech, n, m));
        if !ok { return; }
        levelProperties.value := Some(levelProperties.value.value - {REC_GRAMMAR_ACCEPTANCE});
      }
    }

    /** (4) and (5): a field or menu works on its own copy of the properties. */
    method BuildOwner(n: Node, properties: PL.PropertyList, levelProperties: VXIMapHolder) returns (ok: bool)
      requires n.Element? && (n.name == NODE_FIELD || n.name == NODE_MENU) && properties.Valid()
      modifies this, properties, levelProperties
      ensures properties.Valid()
      ensures State(properties, levelProperties, ok)
              == GrammarWalk.BuildNode(platform, old(State(properties, levelProperties, true)), n, 0)
      decreases n, 0
    {
      hide LoadProperties, BuildFieldOwn, BuildAll, PL.Pushed, PL.Popped, PL.DeclaresAny, PL.Flatten;
      var doPop := properties.PushProperties(n.children);
      var localProps := new VXIMapHolder(None);
      if doPop || levelProperties.value.None? {
        ok := AcquireProperties(properties, localProps);
        if !ok { return; }
      } else {
        localProps.value := levelProperties.value;
      }
      SetGrammarLoadProperties(n, properties, localProps);
      if n.name == NODE_FIELD {
        ok := BuildFieldGrammars(n, properties, localProps);
        if !ok {
          Stays(platform, State(properties, localProps, false), n.children, 0);
          return;
        }
        ok := BuildGrammars(n, properties, localProps, 0);
      } else {
        ok := BuildGrammars(n, properties, localProps, MenuAccept(n));
      }
      if ok && doPop { properties.PopProperties(); }
    }

    /** (7) any other element. */
    method BuildOther(n: Node, properties: PL.PropertyList, levelProperties: VXIMapHolder, menuAcceptLevel: int)
      returns (ok: bool)
      requires n.Element? && n.name !in {NODE_GRAMMAR, NODE_LINK, NODE_FIELD, NODE_MENU, NODE_CHOICE} && properties.Valid()
      modifies this, properties, levelProperties
      ensures properties.Valid()
      ensures State(properties, levelProperties, ok)
              == GrammarWalk.BuildNode(platform, old(State(properties, levelProperties, true)), n, menuAcceptLevel)
      decreases n, 0
    {
      hide BuildAll, PL.Pushed, PL.Popped, PL.DeclaresAny;
      var doPop := properties.PushProperties(n.children);
      if doPop {
        var temp := new VXIMapHolder(None);
        ok := BuildGrammars(n, properties, temp, menuAcceptLevel);
      } else {
        ok := BuildGrammars(n, properties, levelProperties, menuAcceptLevel);
      }
      if ok && doPop { properties.PopProperties(); }
    }

    method BuildElement(n: Node, properties: PL.PropertyList, levelProperties: VXIMapHolder, menuAcceptLevel: int)
      returns (ok: bool)
      requires n.Element? && properties.Valid()
      modifies this, properties, levelProperties
      ensures properties.Valid()
      ensures State(properties, levelProperties, ok)
              == GrammarWalk.BuildNode(platform, old(State(properties, levelProperties, true)), n, menuAcceptLevel)
      decreases n, 1
    {
      hide BuildAll, BuildGrammar, BuildLinkDtmf, BuildChoiceOwn, BuildFieldOwn, LoadProperties, PL.Pushed, PL.Popped, PL.Declared;
      if n.name == NODE_GRAMMAR {
        ok := BuildGrammarElement(n, properties, levelProperties);
      } else if n.name == NODE_LINK {
        ok := BuildLinkKeys(n, properties, levelProperties);
        if ok {
          ok := BuildGrammars(n, properties, levelProperties, 0);
        } else {
          Stays(platform, State(properties, levelProperties, false), n.children, 0);
        }
      } else if n.name == NODE_FIELD || n.name == NODE_MENU {
        ok := BuildOwner(n, properties, levelProperties);
      } else if n.name == NODE_CHOICE {
        ok := true;
        if HasChild(n.children, NODE_GRAMMAR) {
          ok := BuildGrammars(n, properties, levelProperties, 0);
          if !ok { return; }
        }
        ok := BuildChoiceGrammars(n, properties, levelProperties, menuAcceptLevel);
      } else {
        ok := BuildOther(n, properties, levelProperties, menuAcceptLevel);
      }
    }

    /** Loads the grammars below an element, child by child; false when an event is thrown. */
    method BuildGrammars(doc: Node, properties: PL.PropertyList, levelProperties: VXIMapHolder, menuAcceptLevel: int)
      returns (ok: bool)
      requires doc.Element? && properties.Valid()
      modifies this, properties, levelProperties
      ensures properties.Valid()
      ensures State(properties, levelProperties, ok)
              == BuildAll(platform, old(State(properties, levelProperties, true)), doc.children, menuAcceptLevel)
      decreases doc.children
    {
      hide GrammarWalk.BuildNode;
      ok := true;
      var i := 0;
      while i < |doc.children|
        invariant 0 <= i <= |doc.children| && properties.Valid() && ok
        invariant BuildAll(platform, State(properties, levelProperties, true), doc.children[i..], menuAcceptLevel)
                  == BuildAll(platform, old(State(properties, levelProperties, true)), doc.children, menuAcceptLevel)
      {
        var child := doc.children[i];
        assert doc.children[i..][0] == child && doc.children[i..][1..] == doc.children[i + 1..];
        i := i + 1;
        if child.Element? {
          ok := BuildElement(child, properties, levelProperties, menuAcceptLevel);
          if !ok {
            Stays(platform, State(properties, levelProperties, false), doc.children[i..], menuAcceptLevel);
            return;
          }
        } else {
          SkipsContent(platform, State(properties, levelProperties, true), child, menuAcceptLevel);
        }
      }
    }

    /** Loads the grammars of a document, with no properties flattened yet. On a walkable document
        this is the walk that carries modes, and it restores the stack. Started on no grammars, it is
        the plain walk, each static grammar with the properties in scope at its place, where no mode
        shows; and where one does and all is accepted, it is not. */
    method LoadGrammars(doc: Node, properties: PL.PropertyList) returns (ok: bool)
      requires doc.Element? && properties.Valid()
      modifies this, properties
      ensures properties.Valid()
      ensures var levels := old(properties.properties);
              Walkable(platform, levels, doc) ==>
                && Plain(grammars, ok) == PlainAll(platform, true, PL.Flatten(levels), None, None,
                                                   Plain(old(grammars), true), doc.children, 0)
                && (ok ==> properties.properties == levels)
      ensures var levels := old(properties.properties);
              var plain := PlainAll(platform, false, PL.Flatten(levels), None, None, Plain([], true), doc.children, 0);
              Walkable(platform, levels, doc) && old(grammars) == [] ==>
                && (!ModeShowsIn(platform, levels, doc) ==> Plain(grammars, ok) == plain)
                && (AllAccepted(platform) ==> ok == plain.ok && (grammars == plain.loads <==> !ModeShowsIn(platform, levels, doc)))
    {
      hide Walkable, BuildAll, PlainAll, PL.Flatten, AllAccepted, ModeShowsIn;
      if Walkable(platform, properties.properties, doc) {
        CacheCarriesModes(platform, properties.properties, grammars, doc);
        CacheIsInvisible(platform, properties.properties, doc);
      }
      var temp := new VXIMapHolder(None);
      ok := BuildGrammars(doc, properties, temp, 0);
    }
  }
}
