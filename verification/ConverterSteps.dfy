/** The document converter as a state machine over SAX events: its mode fields, its effect on the
    document builder, and the invariant that every event sequence keeps. */
module ConverterSteps {
  import opened Wrappers
  import opened Markup
  import opened Whitespace
  import DT = DocumentTree

  /** Values in force throughout the document. */
  datatype Environment = Environment(baseUri: string, documentLang: string, level: DT.DocumentLevel)

  datatype Modes = Modes(
    ignoreDepth: int,
    inGrammar: bool,
    copyDepth: int,
    explicitPrompt: int,
    implicitPrompt: bool,
    foreachImplicit: bool,
    pcdataImpliesPrompt: bool,
    hasContent: bool,
    contentForbidden: bool)

  const FRESH := Modes(0, false, 0, 0, false, false, true, true, false)

  /** Why an event ends the parse: the document is refused, or the builder was misused. */
  datatype Why = Refused | Corrupted

  datatype Result = Next(m: Modes, b: DT.Build) | Throw(why: Why)

  const SPEAK_OPEN :=
    "<?xml version='1.0'?><speak version='1.0' xmlns='http://www.w3.org/2001/10/synthesis' xml:base='"
  const SPEAK_LANG := "' xml:lang='"
  const SPEAK_END := "'>"
  const SPEAK_CLOSE := "</speak>"

  /** The part of a URI before its last question mark. */
  function TrimUriBase(uri: string): string {
    var at := LastIndex(uri, '?');
    if at < 0 then uri else uri[..at]
  }

  function LastIndex(s: string, c: char): (r: int)
    ensures -1 <= r < |s|
  {
    if s == "" then -1
    else if s[|s| - 1] == c then |s| - 1
    else LastIndex(s[..|s| - 1], c)
  }

  function SpeakHeader(base: string, lang: string): string {
    SPEAK_OPEN + TrimUriBase(base) + SPEAK_LANG + lang + SPEAK_END
  }

  function AttributeOr(attributes: seq<DT.Attribute>, key: nat): string {
    if attributes == [] then ""
    else if attributes[0].key == key then attributes[0].value
    else AttributeOr(attributes[1..], key)
  }

  /** An explicit prompt writes its own base and language into its header. */
  function PromptHeader(attributes: seq<DT.Attribute>): string {
    SpeakHeader(AttributeOr(attributes, ATTRIBUTE_BASE), AttributeOr(attributes, ATTRIBUTE_XMLLANG))
  }

  predicate HasSource(attributes: seq<DT.Attribute>) {
    exists a :: a in attributes && (a.key == ATTRIBUTE_SRC || a.key == ATTRIBUTE_SRCEXPR)
  }

  /** Inside an explicit prompt only these become elements of their own. */
  predicate EmittedInPrompt(k: Kind) {
    k.Audio? || k.Value? || k.Enumerate? || k.Foreach? || k.Mark? || k.Executable?
  }

  predicate HoldsPlainText(k: Kind) {
    k == Executable(SCRIPT) || k == Executable(LOG) || k.Choice? || k.Option?
  }

  predicate IsScript(k: Kind) { k == Executable(SCRIPT) }

  // ----- Builder steps -----

  function AddAttributes(b: DT.Build, attributes: seq<DT.Attribute>): (r: Option<DT.Build>)
    requires b.Ok()
    ensures r.Some? && b.Open? ==> r.value.Open? && r.value.Ok()
    ensures r.Some? ==> r.value.Ok() && (b.Open? <==> r.value.Open?)
    decreases attributes
  {
    if attributes == [] then Some(b)
    else
      match DT.AddAttr(b, attributes[0])
      case None => None
      case Some(b1) => AddAttributes(b1, attributes[1..])
  }

  function ImplicitStart(env: Environment, b: DT.Build): (r: Option<DT.Build>)
    requires b.Ok() && !b.Lone?
    ensures r.Some? ==> r.value.Open? && r.value.Ok()
  {
    match DT.Start(b, NODE_PROMPT, env.level)
    case None => None
    case Some(b1) =>
      match DT.Text(b1, SpeakHeader(env.baseUri, env.documentLang))
      case None => None
      case Some(b2) => Some(DT.Mark(b2, -1))
  }

  function ImplicitEnd(b: DT.Build): (r: Option<DT.Build>)
    requires b.Ok() && !b.Lone? && !b.Empty?
    ensures r.Some? ==> r.value.Ok() && (r.value.Open? || r.value.Closed?)
  {
    match DT.Text(b, SPEAK_CLOSE)
    case None => None
    case Some(b1) => DT.End(b1)
  }

  // ----- The invariant of every run -----

  /** An implicit and an explicit prompt are never open together, an implicit foreach lies in an
      implicit prompt, and until the builder has an element the modes are those of a new parse. */
  ghost predicate Inv(m: Modes, b: DT.Build) {
    && b.Ok() && !b.Lone?
    && m.ignoreDepth >= 0 && m.explicitPrompt >= 0
    && !(m.implicitPrompt && m.explicitPrompt > 0)
    && (m.foreachImplicit ==> m.implicitPrompt)
    && (b.Empty? ==> m.pcdataImpliesPrompt && m.explicitPrompt == 0 && !m.implicitPrompt && !m.inGrammar)
  }

  // ----- Copying -----

  function CopyStart(m: Modes, b: DT.Build, name: string, attrs: seq<XmlAttr>): (r: Result)
    requires b.Ok() && !b.Empty? && !b.Lone?
    ensures r.Next? ==> r.b.Ok() && !r.b.Empty? && !r.b.Lone? && r.m == m.(copyDepth := r.m.copyDepth)
  {
    match DT.Text(b, OpenTag(name, attrs))
    case None => Throw(Corrupted)
    case Some(b1) => Next(m.(copyDepth := m.copyDepth + 1), b1)
  }

  function CopyClose(m: Modes, b: DT.Build, name: string): (r: Result)
    requires b.Ok() && !b.Empty? && !b.Lone?
    ensures r.Next? ==> r.b.Ok() && !r.b.Empty? && !r.b.Lone? && r.m == m.(copyDepth := r.m.copyDepth)
  {
    match DT.Text(b, CloseTag(name))
    case None => Throw(Corrupted)
    case Some(b1) => Next(m.(copyDepth := m.copyDepth - 1), b1)
  }

  // ----- startElement -----

  // (2.1) The modes the element itself sets.
  function ModesAtStart(m: Modes, k: Kind): (r: Modes)
    ensures r == m.(inGrammar := r.inGrammar, copyDepth := r.copyDepth, explicitPrompt := r.explicitPrompt,
                    pcdataImpliesPrompt := r.pcdataImpliesPrompt)
    ensures r.explicitPrompt == if k.Prompt? then m.explicitPrompt + 1 else m.explicitPrompt
  {
    if k.Grammar? then m.(inGrammar := true, copyDepth := 0)
    else if k.Prompt? then
      m.(explicitPrompt := m.explicitPrompt + 1, copyDepth := if m.explicitPrompt == 0 then 0 else m.copyDepth)
    else if HoldsPlainText(k) then m.(pcdataImpliesPrompt := false)
    else m
  }

  /** Whether starting this element ends the implicit prompt. */
  predicate StartEndsPrompt(m: Modes, k: Kind) {
    && m.implicitPrompt
    && !(k.Audio? || k.Value? || k.Enumerate? || k.Mark? || k.Foreach? || k.Speech?)
    && !(k.Executable? && m.foreachImplicit)
  }

  // (2.2) The beginning or end of an implicit prompt.
  function PromptBoundary(env: Environment, m: Modes, b: DT.Build, k: Kind): (r: Result)
    requires b.Ok() && !b.Lone? && (m.implicitPrompt ==> !b.Empty?)
    requires m.explicitPrompt > 0 ==> EmittedInPrompt(k) || k.Prompt?
    ensures r.Next? ==> r.b.Ok() && !r.b.Lone? && (!b.Empty? || r.m.implicitPrompt ==> !r.b.Empty?)
    ensures r.Next? ==> r.m == m.(implicitPrompt := r.m.implicitPrompt, foreachImplicit := r.m.foreachImplicit, copyDepth := r.m.copyDepth)
    ensures r.Next? && r.m.implicitPrompt && m.explicitPrompt > 0 ==> m.implicitPrompt && !StartEndsPrompt(m, k)
    ensures r.Next? && (m.foreachImplicit ==> m.implicitPrompt) ==> (r.m.foreachImplicit ==> r.m.implicitPrompt)
    ensures r.Next? && k.Speech? ==> r.m.implicitPrompt
  {
    if k.Audio? || k.Value? || k.Enumerate? || k.Mark? then
      if m.pcdataImpliesPrompt && !m.implicitPrompt && m.explicitPrompt == 0 then
        match ImplicitStart(env, b)
        case None => Throw(Corrupted)
        case Some(b1) => Next(m.(implicitPrompt := true, copyDepth := 0), b1)
      else Next(m, b)
    else if k.Foreach? then
      if m.implicitPrompt then Next(m.(foreachImplicit := true), b)
      else if m.explicitPrompt == 0 then
        match ImplicitStart(env, b)
        case None => Throw(Corrupted)
        case Some(b1) => Next(m.(foreachImplicit := true, implicitPrompt := true, copyDepth := 0), b1)
      else Next(m, b)
    else if k.Speech? then
      if !m.implicitPrompt then
        match ImplicitStart(env, b)
        case None => Throw(Corrupted)
        case Some(b1) => Next(m.(implicitPrompt := true, copyDepth := 0), b1)
      else Next(m, b)
    else if StartEndsPrompt(m, k) then
      if m.copyDepth != 0 then Throw(Refused)
      else
        match ImplicitEnd(b)
        case None => Throw(Corrupted)
        case Some(b1) => Next(m.(implicitPrompt := false, foreachImplicit := false), b1)
    else Next(m, b)
  }

  // (3)-(6) The element is built.
  function BuildElement(env: Environment, m: Modes, b: DT.Build, k: Kind, outcome: Attributes): (r: Result)
    requires b.Ok() && !b.Lone?
    ensures r.Next? ==> r.b.Open? && r.b.Ok()
    ensures r.Next? ==> r.m == m.(hasContent := r.m.hasContent, contentForbidden := r.m.contentForbidden)
  {
    match DT.Start(b, Code(k), env.level)
    case None => Throw(Corrupted)
    case Some(b1) =>
      if outcome.Rejected? then Throw(Refused)
      else
        match AddAttributes(b1, outcome.attributes)
        case None => Throw(Corrupted)
        case Some(b2) =>
          var m1 := m.(hasContent := !IsScript(k) && !k.Grammar?,
                       contentForbidden := m.contentForbidden
                                           || ((IsScript(k) || k.Grammar?) && HasSource(outcome.attributes)));
          if k.Prompt? then
            match DT.Text(b2, PromptHeader(outcome.attributes))
            case None => Throw(Corrupted)
            case Some(b3) => Next(m1, DT.Mark(b3, -1))
          else Next(m1, b2)
  }

  function StartMarkup(env: Environment, m: Modes, b: DT.Build, k: Kind, name: string, attrs: seq<XmlAttr>,
                       outcome: Attributes): (r: Result)
    requires Inv(m, b)
    requires m.explicitPrompt > 0 ==> EmittedInPrompt(k)
    ensures r.Next? ==> Inv(r.m, r.b)
  {
    if k.Unknown? then Throw(Refused)
    else if k.Metadata? then Next(m.(ignoreDepth := 1), b)
    else if k.Prompt? && m.foreachImplicit then Next(m, b)
    else
      hide PromptBoundary, BuildElement, ModesAtStart, Code, DT.Text, SpeakHeader;
      match PromptBoundary(env, ModesAtStart(m, k), b, k)
      case Throw(w) => Throw(w)
      case Next(m1, b1) =>
        if k.Speech? then CopyStart(m1, b1, name, attrs)
        else if k.Description? || k.Substitute? then Throw(Refused)
        else BuildElement(env, m1, b1, k, outcome)
  }

  function Start(env: Environment, m: Modes, b: DT.Build, k: Kind, name: string, attrs: seq<XmlAttr>,
                 outcome: Attributes): (r: Result)
    requires Inv(m, b)
    ensures r.Next? ==> Inv(r.m, r.b)
  {
    if m.ignoreDepth > 0 then Next(m.(ignoreDepth := m.ignoreDepth + 1), b)
    else if m.inGrammar then CopyStart(m, b, name, attrs)
    else if m.explicitPrompt > 0 && !EmittedInPrompt(k) then
      if k.Prompt? then Next(m.(explicitPrompt := m.explicitPrompt + 1), b)
      else CopyStart(m, b, name, attrs)
    else StartMarkup(env, m, b, k, name, attrs, outcome)
  }

  // ----- endElement -----

  /** Whether ending this element ends the implicit prompt. */
  predicate EndEndsPrompt(m: Modes, k: Kind) {
    && m.implicitPrompt
    && !(k.Audio? || k.Value? || k.Enumerate? || k.Foreach? || k.Speech? || k.Prompt?)
    && !((k.Executable? || k.Mark?) && m.foreachImplicit)
  }

  // (3)-(4) The element is complete.
  function CompleteElement(m: Modes, b: DT.Build, k: Kind): (r: Result)
    requires b.Ok() && !b.Lone?
    ensures r.Next? ==> (r.b.Open? && r.b.Ok()) || r.b.Closed?
    ensures r.Next? ==> r.m == m.(pcdataImpliesPrompt := r.m.pcdataImpliesPrompt, contentForbidden := r.m.contentForbidden)
  {
    if (IsScript(k) || k.Grammar?) && m.contentForbidden == m.hasContent then Throw(Refused)
    else if !b.Open? then Throw(Corrupted)
    else
      var m1 := if HoldsPlainText(k) then m.(pcdataImpliesPrompt := true) else m;
      var m2 := if IsScript(k) || k.Grammar? then m1.(contentForbidden := false) else m1;
      var b1 := if k.Choice? || k.Option? then DT.PruneTop(b) else b;
      match DT.End(b1)
      case None => Throw(Corrupted)
      case Some(b2) => Next(m2, b2)
  }

  function EndMarkup(m: Modes, b: DT.Build, k: Kind, name: string): (r: Result)
    requires Inv(m, b)
    ensures r.Next? ==> Inv(r.m, r.b)
  {
    if k.Unknown? then Throw(Refused)
    else if m.implicitPrompt && k.Speech? then CopyClose(m, b, name)
    else if m.implicitPrompt && k.Prompt? then Next(m, b)
    else if EndEndsPrompt(m, k) then
      match ImplicitEnd(b)
      case None => Throw(Corrupted)
      case Some(b1) => CompleteElement(m.(implicitPrompt := false, foreachImplicit := false), b1, k)
    else if m.implicitPrompt && k.Foreach? then CompleteElement(m.(foreachImplicit := false), b, k)
    else CompleteElement(m, b, k)
  }

  // An end tag outside grammars and metadata.
  function EndOutside(m: Modes, b: DT.Build, k: Kind, name: string): (r: Result)
    requires Inv(m, b)
    ensures r.Next? ==> Inv(r.m, r.b)
  {
    if m.explicitPrompt > 0 && k.Prompt? then
      if m.foreachImplicit then Next(m, b)
      else if m.explicitPrompt > 1 then Next(m.(explicitPrompt := m.explicitPrompt - 1), b)
      else
        match DT.Text(b, SPEAK_CLOSE)
        case None => Throw(Corrupted)
        case Some(b1) => EndMarkup(m.(explicitPrompt := 0), b1, k, name)
    else if m.explicitPrompt > 0 && !EmittedInPrompt(k) then CopyClose(m, b, name)
    else EndMarkup(m, b, k, name)
  }

  function End(m: Modes, b: DT.Build, k: Kind, name: string): (r: Result)
    requires Inv(m, b)
    ensures r.Next? ==> Inv(r.m, r.b)
  {
    if m.ignoreDepth > 0 then Next(m.(ignoreDepth := m.ignoreDepth - 1), b)
    else if m.inGrammar && m.copyDepth != 0 then CopyClose(m, b, name)
    else EndOutside(m.(inGrammar := false), b, k, name)
  }

  // ----- characters -----

  function Chars(env: Environment, m: Modes, b: DT.Build, s: string): (r: Result)
    requires Inv(m, b)
    ensures r.Next? ==> Inv(r.m, r.b)
  {
    if s == "" || m.ignoreDepth > 0 || AllBlank(s) then Next(m, b)
    else
      var opens := m.pcdataImpliesPrompt && m.explicitPrompt == 0 && !m.implicitPrompt && !m.inGrammar;
      match (if opens then ImplicitStart(env, b) else Some(b))
      case None => Throw(Corrupted)
      case Some(b1) =>
        match DT.Text(b1, s)
        case None => Throw(Corrupted)
        case Some(b2) =>
          var m1 := if opens then m.(implicitPrompt := true, copyDepth := 0) else m;
          Next(m1.(hasContent := true), b2)
  }

  function Step(env: Environment, m: Modes, b: DT.Build, e: Event): (r: Result)
    requires Inv(m, b)
    ensures r.Next? ==> Inv(r.m, r.b)
  {
    match e
    case StartElement(k, n, a, o) => Start(env, m, b, k, n, a, o)
    case Characters(s) => Chars(env, m, b, s)
    case EndElement(k, n) => End(m, b, k, n)
  }

  function Run(env: Environment, m: Modes, b: DT.Build, es: seq<Event>): (r: Result)
    requires Inv(m, b)
    ensures r.Next? ==> Inv(r.m, r.b)
    decreases es
  {
    if es == [] then Next(m, b)
    else
      match Step(env, m, b, es[0])
      case Throw(w) => Throw(w)
      case Next(m1, b1) => Run(env, m1, b1, es[1..])
  }
}
