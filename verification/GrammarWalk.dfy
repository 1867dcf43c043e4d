/** The recursive grammar walk: the code with its property cache and property stack, as a function,
    and the plain walk that flattens properties afresh at every grammar. */
module GrammarWalk {
  import opened Wrappers
  import opened DocumentTree
  import opened PropertyList

  const NODE_CHOICE: nat := 5
  const NODE_FIELD: nat := 13
  const NODE_GRAMMAR: nat := 18
  const NODE_LINK: nat := 21
  const NODE_MENU: nat := 23
  const NODE_OPTION: nat := 27

  const ATTRIBUTE_ACCEPT: nat := 3
  const ATTRIBUTE_DTMF: nat := 24
  const ATTRIBUTE_FETCHHINT: nat := 32
  const ATTRIBUTE_MODE: nat := 46
  const ATTRIBUTE_SRC: nat := 55
  const ATTRIBUTE_SRCEXPR: nat := 56
  const ATTRIBUTE_TYPE: nat := 60
  const ATTRIBUTE_WEIGHT: nat := 64
  const ATTRIBUTE_XMLLANG: nat := 65

  const REC_GRAMMAR_ACCEPTANCE := "vxi.rec.grammarAcceptance"
  const REC_GRAMMAR_MODE := "vxi.rec.grammarMode"
  const REC_GRAMMAR_WEIGHT := "vxi.rec.grammarWeight"
  const REC_LANGUAGE := "vxi.rec.language"
  const REC_PREFETCH_REQUEST := "vxi.rec.prefetchLevel"
  const REC_INPUT_MODES := "vxi.rec.inputModes"
  const PROP_INPUTMODES := "inputmodes"
  const PROP_FETCHHINT := "grammarfetchhint"

  const REC_INPUT_MODE_DTMF: int := 2
  const REC_INPUT_MODE_SPEECH: int := 4
  const REC_INPUT_MODE_DTMF_SPEECH: int := 6

  datatype Val = VString(s: string) | VInteger(n: int) | VFloat(r: real)

  type RecMap = map<string, Val>

  /** What the walk takes from elsewhere: the recogniser properties of a flattened property list
      (none when a time in it is malformed), the reading of a weight, and whether the recogniser
      accepts a grammar. */
  datatype Platform = Platform(
    recProperties: Level -> Option<RecMap>,
    fraction: string -> Option<real>,
    accepts: Load -> bool)

  datatype LoadKind =
    | InlineGrammar | UriGrammar | LinkDtmf | OptionSpeech | OptionDtmf | BuiltinSpeech | BuiltinDtmf
    | ChoiceDtmf | ChoiceSpeech

  /** A call on the recogniser to load a grammar, or a grammar left to be loaded on activation. */
  datatype Load = Static(kind: LoadKind, element: Node, props: RecMap) | Dynamic(element: Node)

  function InputModes(f: Level): int {
    if PROP_INPUTMODES !in f then REC_INPUT_MODE_DTMF_SPEECH
    else if f[PROP_INPUTMODES] == "voice" then REC_INPUT_MODE_SPEECH
    else if f[PROP_INPUTMODES] == "dtmf" then REC_INPUT_MODE_DTMF
    else REC_INPUT_MODE_DTMF_SPEECH
  }

  function Weight(p: Platform, n: Node): real
    requires n.Element?
  {
    match FindAttribute(n.attributes, ATTRIBUTE_WEIGHT)
    case None => 1.0
    case Some(w) => match p.fraction(w) case Some(r) => r case None => 1.0
  }

  function Prefetch(n: Node, m: RecMap): int
    requires n.Element?
  {
    var hint := match FindAttribute(n.attributes, ATTRIBUTE_FETCHHINT)
                case Some(h) => h
                case None => if PROP_FETCHHINT in m && m[PROP_FETCHHINT].VString? then m[PROP_FETCHHINT].s else "";
    if hint == "prefetch" then 1 else 0
  }

  /** SetGrammarLoadProperties: weight, mode, language, prefetch and input modes of an element,
      with f the properties in scope and m the map they are set in. */
  function LoadProperties(p: Platform, n: Node, f: Level, m: RecMap): RecMap
    requires n.Element?
  {
    var m1 := m[REC_GRAMMAR_WEIGHT := VFloat(Weight(p, n))];
    var m2 := match FindAttribute(n.attributes, ATTRIBUTE_MODE)
              case Some(mode) => m1[REC_GRAMMAR_MODE := VString(mode)]
              case None => m1;
    var m3 := m2[REC_LANGUAGE := VString(AttributeText(n, ATTRIBUTE_XMLLANG))];
    var m4 := m3[REC_PREFETCH_REQUEST := VInteger(Prefetch(n, m3))];
    m4[REC_INPUT_MODES := VInteger(InputModes(f))]
  }

  function HasMode(n: Node): bool
    requires n.Element?
  {
    FindAttribute(n.attributes, ATTRIBUTE_MODE).Some?
  }

  /** The text of the last content child: each one found replaces the one before. */
  function EnclosedText(ns: seq<Node>): string {
    if ns == [] then ""
    else if ns[|ns| - 1].Content? then ns[|ns| - 1].data
    else EnclosedText(ns[..|ns| - 1])
  }

  /** The text children joined by spaces: what the loop that collects them sets out to make. */
  function JoinedText(ns: seq<Node>): string {
    if ns == [] then ""
    else
      var before, last := JoinedText(ns[..|ns| - 1]), ns[|ns| - 1];
      if last.Element? then before
      else if before == "" then last.data
      else before + " " + last.data
  }

  /** No text that is not empty comes before another text child. */
  predicate OneText(ns: seq<Node>) {
    forall i, j :: 0 <= i < j < |ns| && ns[i].Content? && ns[j].Content? ==> ns[i].data == ""
  }

  lemma {:induction false} NoTextJoined(ns: seq<Node>)
    ensures JoinedText(ns) == "" <==> forall i :: 0 <= i < |ns| && ns[i].Content? ==> ns[i].data == ""
  {
    if ns != [] {
      NoTextJoined(ns[..|ns| - 1]);
    }
  }

  /** The enclosed text is all of the text exactly when no text is overwritten by a later one. */
  lemma {:induction false} EnclosedIsJoined(ns: seq<Node>)
    ensures EnclosedText(ns) == JoinedText(ns) <==> OneText(ns)
  {
    if ns != [] {
      var n := |ns| - 1;
      var front := ns[..n];
      NoTextJoined(front);
      if ns[n].Content? {
        assert OneText(ns) <==> forall i :: 0 <= i < n && ns[i].Content? ==> ns[i].data == "";
        if JoinedText(front) != "" { assert |JoinedText(ns)| > |ns[n].data|; }
      } else {
        EnclosedIsJoined(front);
        assert OneText(ns) <==> OneText(front) by {
          assert forall i :: 0 <= i < n ==> front[i] == ns[i];
        }
      }
    }
  }

  /** A choice that says "press", then an element, then "one", is recognised as "one" alone. */
  lemma ChoiceLosesText(n: Node)
    requires n.Element?
    ensures var ns := [Content("press", 0), n, Content("one", 0)];
            EnclosedText(ns) == "one" && JoinedText(ns) == "press one"
  {
    var ns := [Content("press", 0), n, Content("one", 0)];
    assert ns[..2][..1] == [Content("press", 0)];
    assert [Content("press", 0)][..0] == [];
    assert JoinedText([Content("press", 0)]) == "press";
    assert JoinedText(ns[..2]) == "press";
    assert "press" + " " + "one" == "press one";
  }

  predicate HasChild(ns: seq<Node>, name: nat) {
    exists n :: n in ns && n.Element? && n.name == name
  }

  predicate HasOption(ns: seq<Node>, speech: bool) {
    exists n :: n in ns && n.Element? && n.name == NODE_OPTION
                && (if speech then EnclosedText(n.children) != "" else AttributeText(n, ATTRIBUTE_DTMF) != "")
  }

  function AcceptLevel(n: Node, menuAcceptLevel: int): int
    requires n.Element?
  {
    match FindAttribute(n.attributes, ATTRIBUTE_ACCEPT)
    case Some(a) => if a == "approximate" then 1 else 0
    case None => if menuAcceptLevel != 0 then 1 else 0
  }

  function MenuAccept(n: Node): int
    requires n.Element?
  {
    if FindAttribute(n.attributes, ATTRIBUTE_ACCEPT) == Some("approximate") then 1 else 0
  }

  // ----- The walk as it is coded -----

  /** The property stack, the cache handed down by reference, the loads so far, and whether an
      event has been thrown. */
  datatype Walk = Walk(levels: seq<Level>, cache: Option<RecMap>, loads: seq<Load>, ok: bool)

  function Emit(p: Platform, w: Walk, l: Load): Walk {
    if !w.ok then w
    else if l.Static? && !p.accepts(l) then w.(ok := false)
    else w.(loads := w.loads + [l])
  }

  function EmitIf(p: Platform, w: Walk, needed: bool, l: Load): Walk {
    if needed then Emit(p, w, l) else w
  }

  /** Flattens the properties into the cache unless it is filled already. */
  function Acquire(p: Platform, w: Walk): (r: Walk)
    ensures r.levels == w.levels && r.loads == w.loads && (r.ok && w.ok ==> r.cache.Some?)
    ensures w.cache.Some? ==> r == w
  {
    if w.cache.Some? then w
    else
      match p.recProperties(Flatten(w.levels))
      case Some(m) => w.(cache := Some(m))
      case None => w.(ok := false)
  }

  function BuildAll(p: Platform, w: Walk, ns: seq<Node>, accept: int): (r: Walk)
    requires |w.levels| > 1
    ensures |r.levels| == |w.levels|
    decreases ns, 0
  {
    if ns == [] || !w.ok then w
    else BuildAll(p, BuildNode(p, w, ns[0], accept), ns[1..], accept)
  }

  /** (2) a grammar element. */
  function BuildGrammar(p: Platform, w: Walk, n: Node): (r: Walk)
    requires n.Element?
    ensures r.levels == w.levels
  {
    if AttributeText(n, ATTRIBUTE_SRCEXPR) != "" then Emit(p, w, Dynamic(n))
    else
      var w1 := Acquire(p, w);
      if !w1.ok || w1.cache.None? then w1
      else
        var src := AttributeText(n, ATTRIBUTE_SRC);
        var props := LoadProperties(p, n, Flatten(w1.levels), w1.cache.value);
        if src == "" then Emit(p, w1, Static(InlineGrammar, n, props))
        else if src[0] == '#' then w1.(ok := false)
        else Emit(p, w1, Static(UriGrammar, n, props))
  }

  /** (3.1) the key sequence of a link. */
  function BuildLinkDtmf(p: Platform, w: Walk, n: Node): (r: Walk)
    requires n.Element?
    ensures r.levels == w.levels
  {
    if AttributeText(n, ATTRIBUTE_DTMF) == "" then w
    else
      var w1 := Acquire(p, w);
      if !w1.ok || w1.cache.None? then w1 else Emit(p, w1, Static(LinkDtmf, n, w1.cache.value))
  }

  /** (4.2) and (4.3): options and built-in types of a field, with the field's own map. */
  function BuildFieldOwn(p: Platform, w: Walk, n: Node, m: RecMap): (r: Walk)
    requires n.Element?
    ensures r.levels == w.levels && r.cache == w.cache
  {
    var w1 := EmitIf(p, w, HasOption(n.children, true), Static(OptionSpeech, n, m));
    var w2 := EmitIf(p, w1, HasOption(n.children, false), Static(OptionDtmf, n, m));
    var typed := AttributeText(n, ATTRIBUTE_TYPE) != "";
    var w3 := EmitIf(p, w2, typed, Static(BuiltinSpeech, n, m));
    EmitIf(p, w3, typed, Static(BuiltinDtmf, n, m))
  }

  /** (6.2) the key sequence and text of a choice. The acceptance key is set in the cache for one
      load and deleted again. */
  function BuildChoiceOwn(p: Platform, w: Walk, n: Node, accept: int): (r: Walk)
    requires n.Element?
    ensures r.levels == w.levels
  {
    var dtmf := AttributeText(n, ATTRIBUTE_DTMF);
    var text := ChoiceText(n);
    if dtmf == "" && text == "" then w
    else
      var w1 := Acquire(p, w);
      if !w1.ok || w1.cache.None? then w1
      else
        var w2 := EmitIf(p, w1, dtmf != "", Static(ChoiceDtmf, n, w1.cache.value));
        if text == "" || !w2.ok then w2
        else
          var m := w2.cache.value[REC_GRAMMAR_ACCEPTANCE := VInteger(AcceptLevel(n, accept))];
          var w3 := Emit(p, w2.(cache := Some(m)), Static(ChoiceSpeech, n, m));
          if w3.ok then w3.(cache := Some(m - {REC_GRAMMAR_ACCEPTANCE})) else w3
  }

  function BuildNode(p: Platform, w: Walk, n: Node, accept: int): (r: Walk)
    requires |w.levels| > 1
    ensures |r.levels| == |w.levels|
    decreases n, 1
  {
    if n.Content? || !w.ok then w
    else if n.name == NODE_GRAMMAR then BuildGrammar(p, w, n)
    else if n.name == NODE_LINK then BuildAll(p, BuildLinkDtmf(p, w, n), n.children, 0)
    else if n.name == NODE_FIELD || n.name == NODE_MENU then
      var doPop := DeclaresAny(n.children);
      var pushed := Pushed(w.levels, n.children);
      var own := if doPop || w.cache.None? then p.recProperties(Flatten(pushed)) else w.cache;
      if own.None? then w.(levels := pushed, ok := false)
      else
        var local := LoadProperties(p, n, Flatten(pushed), own.value);
        var w1 := w.(levels := pushed, cache := Some(local));
        var w2 := if n.name == NODE_FIELD
                  then BuildAll(p, BuildFieldOwn(p, w1, n, local), n.children, 0)
                  else BuildAll(p, w1, n.children, MenuAccept(n));
        Walk(if doPop && w2.ok then Popped(w2.levels) else w2.levels, w.cache, w2.loads, w2.ok)
    else if n.name == NODE_CHOICE then
      var w1 := if HasChild(n.children, NODE_GRAMMAR) then BuildAll(p, w, n.children, 0) else w;
      if !w1.ok then w1 else BuildChoiceOwn(p, w1, n, accept)
    else
      var doPop := DeclaresAny(n.children);
      var w1 := w.(levels := Pushed(w.levels, n.children));
      if doPop then
        var w2 := BuildAll(p, w1.(cache := None), n.children, accept);
        Walk(if w2.ok then Popped(w2.levels) else w2.levels, w.cache, w2.loads, w2.ok)
      else BuildAll(p, w1, n.children, accept)
  }

  lemma Stays(p: Platform, w: Walk, ns: seq<Node>, accept: int)
    requires |w.levels| > 1 && !w.ok
    ensures BuildAll(p, w, ns, accept) == w
  {
  }

  lemma SkipsContent(p: Platform, w: Walk, n: Node, accept: int)
    requires |w.levels| > 1 && n.Content?
    ensures BuildNode(p, w, n, accept) == w
  {
  }

  // ----- The plain walk -----

  datatype Plain = Plain(loads: seq<Load>, ok: bool)

  function InMode(m: RecMap, mode: Option<string>): RecMap {
    if mode.Some? then m[REC_GRAMMAR_MODE := VString(mode.value)] else m
  }

  /** The recogniser map in force: the properties in scope converted afresh, overlaid with the load
      properties of the nearest field or menu above which no other element declares properties.
      `inherited` is a mode that shows through from further out. */
  function Base(p: Platform, f: Level, owner: Option<Node>, inherited: Option<string>): Option<RecMap>
    requires owner.Some? ==> owner.value.Element?
  {
    match p.recProperties(f)
    case None => None
    case Some(m) =>
      if owner.None? then Some(m) else Some(LoadProperties(p, owner.value, f, InMode(m, inherited)))
  }

  /** The mode that elements below the owner find in its map. */
  function Below(owner: Option<Node>, inherited: Option<string>): Option<string>
    requires owner.Some? ==> owner.value.Element?
  {
    if owner.None? then None
    else if HasMode(owner.value) then Some(AttributeText(owner.value, ATTRIBUTE_MODE))
    else inherited
  }

  function Say(p: Platform, r: Plain, l: Load): Plain {
    if !r.ok then r
    else if l.Static? && !p.accepts(l) then r.(ok := false)
    else r.(loads := r.loads + [l])
  }

  function SayIf(p: Platform, r: Plain, needed: bool, l: Load): Plain {
    if needed then Say(p, r, l) else r
  }

  function PlainAll(p: Platform, carry: bool, f: Level, owner: Option<Node>, inherited: Option<string>, r: Plain,
                    ns: seq<Node>, accept: int): Plain
    requires owner.Some? ==> owner.value.Element?
    decreases ns, 0
  {
    if ns == [] || !r.ok then r
    else PlainAll(p, carry, f, owner, inherited, PlainOne(p, carry, f, owner, inherited, r, ns[0], accept), ns[1..], accept)
  }

  /** A grammar: with the properties in scope and, when modes are carried, the mode found there. */
  function PlainGrammar(p: Platform, f: Level, mode: Option<string>, r: Plain, n: Node): Plain
    requires n.Element?
  {
    var src := AttributeText(n, ATTRIBUTE_SRC);
    if AttributeText(n, ATTRIBUTE_SRCEXPR) != "" then Say(p, r, Dynamic(n))
    else
      match p.recProperties(f)
      case None => r.(ok := false)
      case Some(m) =>
        if src != "" && src[0] == '#' then r.(ok := false)
        else
          Say(p, r, Static(if src == "" then InlineGrammar else UriGrammar, n, LoadProperties(p, n, f, InMode(m, mode))))
  }

  function PlainLink(p: Platform, base: Option<RecMap>, r: Plain, n: Node): Plain
    requires n.Element?
  {
    if AttributeText(n, ATTRIBUTE_DTMF) == "" then r
    else if base.None? then r.(ok := false)
    else Say(p, r, Static(LinkDtmf, n, base.value))
  }

  function PlainField(p: Platform, m: RecMap, r: Plain, n: Node): Plain
    requires n.Element?
  {
    var r1 := SayIf(p, r, HasOption(n.children, true), Static(OptionSpeech, n, m));
    var r2 := SayIf(p, r1, HasOption(n.children, false), Static(OptionDtmf, n, m));
    var typed := AttributeText(n, ATTRIBUTE_TYPE) != "";
    SayIf(p, SayIf(p, r2, typed, Static(BuiltinSpeech, n, m)), typed, Static(BuiltinDtmf, n, m))
  }

  function ChoiceText(n: Node): string
    requires n.Element?
  {
    if HasChild(n.children, NODE_GRAMMAR) then "" else EnclosedText(n.children)
  }

  function PlainChoice(p: Platform, base: Option<RecMap>, r: Plain, n: Node, accept: int): Plain
    requires n.Element?
  {
    var dtmf, text := AttributeText(n, ATTRIBUTE_DTMF), ChoiceText(n);
    if dtmf == "" && text == "" then r
    else if base.None? then r.(ok := false)
    else
      var r1 := SayIf(p, r, dtmf != "", Static(ChoiceDtmf, n, base.value));
      SayIf(p, r1, text != "",
            Static(ChoiceSpeech, n, base.value[REC_GRAMMAR_ACCEPTANCE := VInteger(AcceptLevel(n, accept))]))
  }

  /** The walk that flattens properties afresh at every load. Plain means without `carry`; with it,
      a mode attribute of a field or menu stays in force until properties are declared again. */
  function PlainOne(p: Platform, carry: bool, f: Level, owner: Option<Node>, inherited: Option<string>, r: Plain,
                    n: Node, accept: int): Plain
    requires owner.Some? ==> owner.value.Element?
    decreases n, 1
  {
    if n.Content? || !r.ok then r
    else
      var g := f + Declared(n.children);
      var mode := if carry then Below(owner, inherited) else None;
      if n.name == NODE_GRAMMAR then PlainGrammar(p, f, mode, r, n)
      else if n.name == NODE_LINK then
        PlainAll(p, carry, f, owner, inherited, PlainLink(p, Base(p, f, owner, inherited), r, n), n.children, 0)
      else if n.name == NODE_FIELD || n.name == NODE_MENU then
        var inner := if DeclaresAny(n.children) then None else mode;
        (match Base(p, g, Some(n), inner)
         case None => r.(ok := false)
         case Some(m) =>
           if n.name == NODE_MENU then PlainAll(p, carry, g, Some(n), inner, r, n.children, MenuAccept(n))
           else PlainAll(p, carry, g, Some(n), inner, PlainField(p, m, r, n), n.children, 0))
      else if n.name == NODE_CHOICE then
        var r1 := if HasChild(n.children, NODE_GRAMMAR) then PlainAll(p, carry, f, owner, inherited, r, n.children, 0) else r;
        if !r1.ok then r1 else PlainChoice(p, Base(p, f, owner, inherited), r1, n, accept)
      else if DeclaresAny(n.children) then PlainAll(p, carry, g, None, None, r, n.children, accept)
      else PlainAll(p, carry, g, owner, inherited, r, n.children, accept)
  }
}
