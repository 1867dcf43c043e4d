/** Documents on which the converter closes an element that is not its own: two of them, in full,
    with what the run leaves behind, and the markup that is never converted cleanly. */
module ConverterMisplaced {
  import opened Wrappers
  import opened Markup
  import opened Whitespace
  import opened ConverterSteps
  import opened ConverterReference
  import opened ConverterCorrectness
  import opened ConverterTheorem
  import opened ConverterDocuments
  import DT = DocumentTree

  // ----- What is never converted -----

  /** A mark that begins or joins an implicit prompt is never converted: whatever it contains, its
      end would close something else, unless the document is refused before. */
  lemma MarkIsNeverConverted(env: Environment, st: Sofar, x: Xml)
    requires x.Elem? && x.kind.Mark? && x.outcome.Accepted?
    requires !st.flags.foreachImplicit && (st.flags.pcdataImpliesPrompt || st.pending.OpenPrompt?)
    ensures !Convert(env, Ordinary, st, x).Converted?
    ensures x.children == [] ==> Convert(env, Ordinary, st, x).Unclean?
  {
    hide SpeakHeader, HasSource, ConvertAll;
    var e := Enters(env, Ordinary, st, x.kind);
    var start := Sofar([], NoPrompt, InnerFlags(e.st.flags, x.kind, x.outcome.attributes));
    NoNewForeachAll(env, e.inner, start, x.children);
    NoChildren(env, e.inner, start);
  }

  lemma NoChildren(env: Environment, ctx: Context, st: Sofar)
    ensures ConvertAll(env, ctx, st, []) == Converted(st)
  {
  }

  lemma OnlyChild(env: Environment, ctx: Context, st: Sofar, x: Xml)
    ensures ConvertAll(env, ctx, st, [x]) == Convert(env, ctx, st, x)
    ensures EventsAll([x]) == Events(x)
  {
    assert [x][1..] == [];
    assert EventsAll([x]) == Events(x) + EventsAll([x][1..]);
    assert ConvertAll(env, ctx, st, [x])
        == if Convert(env, ctx, st, x).Converted? then ConvertAll(env, ctx, Convert(env, ctx, st, x).st, [x][1..])
           else Convert(env, ctx, st, x);
  }

  /** Plain markup around one child that is unclean where it stands. */
  lemma UncleanInside(env: Environment, vxml: Xml, block: Xml, x: Xml)
    requires vxml.Elem? && vxml.kind.Plain? && vxml.outcome.Accepted? && vxml.children == [block]
    requires block.Elem? && block.kind.Plain? && block.outcome.Accepted? && block.children == [x]
    requires Convert(env, Ordinary, Sofar([], NoPrompt, START_FLAGS), x).Unclean?
    ensures ConvertDocument(env, vxml) == NotClean
  {
    hide Convert, ConvertAll, HasSource;
    var st := Sofar([], NoPrompt, START_FLAGS);
    assert InnerFlags(START_FLAGS, vxml.kind, vxml.outcome.attributes) == START_FLAGS;
    assert InnerFlags(START_FLAGS, block.kind, block.outcome.attributes) == START_FLAGS;
    OnlyChild(env, Ordinary, st, x);
    OnlyChild(env, Ordinary, st, block);
    PlainConverts(env, st, block);
  }

  lemma PlainConverts(env: Environment, st: Sofar, x: Xml)
    requires x.Elem? && x.kind.Plain? && x.outcome.Accepted? && st.pending.NoPrompt?
    ensures var c := ConvertAll(env, Ordinary, Sofar([], NoPrompt, InnerFlags(st.flags, x.kind, x.outcome.attributes)), x.children);
            c.Unclean? ==> Convert(env, Ordinary, st, x).Unclean?
  {
    hide ConvertAll, HasSource;
  }

  // ----- Runs, one element at a time -----

  lemma {:induction false} RunAppend(env: Environment, m: Modes, b: DT.Build, es: seq<Event>, fs: seq<Event>)
    requires Inv(m, b)
    ensures var r := Run(env, m, b, es);
            && (r.Next? ==> Inv(r.m, r.b))
            && Run(env, m, b, es + fs) == if r.Next? then Run(env, r.m, r.b, fs) else r
    decreases es
  {
    hide Step;
    if es == [] {
      assert es + fs == fs;
    } else {
      assert (es + fs)[1..] == es[1..] + fs && (es + fs)[0] == es[0];
      match Step(env, m, b, es[0])
      case Throw(_) =>
      case Next(m1, b1) => RunAppend(env, m1, b1, es[1..], fs);
    }
  }

  lemma RunBracket(env: Environment, m: Modes, b: DT.Build, start: Event, body: seq<Event>, end: Event)
    requires Inv(m, b) && Step(env, m, b, start).Next?
    ensures var s := Step(env, m, b, start);
            && Inv(s.m, s.b)
            && var r := Run(env, s.m, s.b, body);
            r.Next? ==> Inv(r.m, r.b) && Run(env, m, b, [start] + body + [end]) == Step(env, r.m, r.b, end)
  {
    hide Step, Run, Inv;
    var s := Step(env, m, b, start);
    StepInv(env, m, b, start);
    var es := body + [end];
    assert [start] + body + [end] == [start] + es;
    RunFirst(env, m, b, start, es);
    RunAppend(env, s.m, s.b, body, [end]);
    var r := Run(env, s.m, s.b, body);
    if r.Next? {
      RunLast(env, r.m, r.b, end);
    }
  }

  lemma RunFirst(env: Environment, m: Modes, b: DT.Build, e: Event, es: seq<Event>)
    requires Inv(m, b) && Step(env, m, b, e).Next?
    ensures var s := Step(env, m, b, e); Inv(s.m, s.b) && Run(env, m, b, [e] + es) == Run(env, s.m, s.b, es)
  {
    hide Step;
    StepInv(env, m, b, e);
    assert ([e] + es)[1..] == es;
  }

  lemma RunLast(env: Environment, m: Modes, b: DT.Build, e: Event)
    requires Inv(m, b)
    ensures Run(env, m, b, [e]) == Step(env, m, b, e)
  {
    hide Step;
    assert [e][1..] == [];
    if Step(env, m, b, e).Next? { StepInv(env, m, b, e); }
  }

  /** The modes between elements when no prompt, grammar or ignored element is open. */
  predicate AtRest(m: Modes) {
    m.ignoreDepth == 0 && !m.inGrammar && m.explicitPrompt == 0 && !m.implicitPrompt && !m.foreachImplicit
  }

  lemma PlainStarts(env: Environment, b: DT.Build, x: Xml)
    requires b.Open? && b.Ok() && x.Elem? && x.kind.Plain? && x.outcome.Accepted?
    ensures Inv(FRESH, b)
    ensures Step(env, FRESH, b, StartElement(x.kind, x.name, x.attrs, x.outcome))
            == Next(FRESH, Nest(b, Code(x.kind), x.outcome.attributes, env.level))
  {
    hide Code, HasSource, PromptHeader;
    var a := x.outcome.attributes;
    NestAttributes(b, Code(x.kind), [], a, env.level);
    assert [] + a == a;
  }

  lemma ClosesInnermost(env: Environment, m: Modes, b: DT.Build, k: Kind, name: string)
    requires Inv(m, b) && AtRest(m) && (k.Plain? || k.Speech?)
    ensures Step(env, m, b, EndElement(k, name)) == if b.Open? then Next(m, DT.End(b).value) else Throw(Corrupted)
  {
  }

  lemma NestEnds(b: DT.Build, code: nat, attributes: seq<DT.Attribute>, n: DT.Node, level: DT.DocumentLevel)
    requires b.Open? && b.Ok()
    ensures DT.End(Nest(b, code, attributes, level)) == Some(DT.Push(b, DT.Element(code, attributes, level, [])))
    ensures DT.End(DT.Push(Nest(b, code, attributes, level), n)) == Some(DT.Push(b, DT.Element(code, attributes, level, [n])))
  {
    assert Nest(b, code, attributes, level).frames[..|b.frames|] == b.frames;
    assert DT.Push(Nest(b, code, attributes, level), n).frames[..|b.frames|] == b.frames;
    assert [] + [n] == [n];
  }

  /** Plain elements vxml and block around one node: if the run over the node from the open block
      adds one finished child and is at rest, the document ends closed around it. */
  lemma AroundNode(env: Environment, vxml: Xml, block: Xml, x: Xml, m: Modes, n: DT.Node)
    requires vxml.Elem? && vxml.kind.Plain? && vxml.outcome.Accepted? && vxml.children == [block]
    requires block.Elem? && block.kind.Plain? && block.outcome.Accepted? && block.children == [x]
    requires var b := InBlock(env, vxml, block);
             Inv(FRESH, b) && Run(env, FRESH, b, Events(x)) == Next(m, DT.Push(b, n)) && AtRest(m)
    ensures Inv(FRESH, DT.Empty)
    ensures Run(env, FRESH, DT.Empty, Events(vxml))
            == Next(m, DT.Closed(DT.Element(Code(vxml.kind), vxml.outcome.attributes, env.level,
                                            [DT.Element(Code(block.kind), block.outcome.attributes, env.level, [n])])))
  {
    hide Run, Step, Code, Inv, DT.Push, DT.End, RootBase, Nest, Events, AtRest;
    var root := RootBase(env, vxml.kind, vxml.outcome.attributes);
    var inner := DT.Element(Code(block.kind), block.outcome.attributes, env.level, [n]);
    BlockAround(env, root, block, x, m, n);
    RootAround(env, vxml, block, m, inner);
  }

  lemma BlockAround(env: Environment, b: DT.Build, block: Xml, x: Xml, m: Modes, n: DT.Node)
    requires b.Open? && b.Ok()
    requires block.Elem? && block.kind.Plain? && block.outcome.Accepted? && block.children == [x]
    requires var inner := Nest(b, Code(block.kind), block.outcome.attributes, env.level);
             Inv(FRESH, inner) && Run(env, FRESH, inner, Events(x)) == Next(m, DT.Push(inner, n)) && AtRest(m)
    ensures Inv(FRESH, b)
    ensures Run(env, FRESH, b, Events(block))
            == Next(m, DT.Push(b, DT.Element(Code(block.kind), block.outcome.attributes, env.level, [n])))
  {
    hide Run, Step, Code, Nest, Inv, DT.Push, DT.End, AtRest, Convert, ConvertAll;
    var inner := Nest(b, Code(block.kind), block.outcome.attributes, env.level);
    OnlyChild(env, Ordinary, Sofar([], NoPrompt, START_FLAGS), x);
    PlainStarts(env, b, block);
    RunBracket(env, FRESH, b, StartElement(block.kind, block.name, block.attrs, block.outcome), Events(x), EndElement(block.kind, block.name));
    ClosesInnermost(env, m, DT.Push(inner, n), block.kind, block.name);
    NestEnds(b, Code(block.kind), block.outcome.attributes, n, env.level);
  }

  lemma RootAround(env: Environment, vxml: Xml, x: Xml, m: Modes, n: DT.Node)
    requires vxml.Elem? && vxml.kind.Plain? && vxml.outcome.Accepted? && vxml.children == [x]
    requires var b := RootBase(env, vxml.kind, vxml.outcome.attributes);
             Inv(FRESH, b) && Run(env, FRESH, b, Events(x)) == Next(m, DT.Push(b, n)) && AtRest(m)
    ensures Inv(FRESH, DT.Empty)
    ensures Run(env, FRESH, DT.Empty, Events(vxml))
            == Next(m, DT.Closed(DT.Element(Code(vxml.kind), vxml.outcome.attributes, env.level, [n])))
  {
    hide Run, Step, Code, Inv, DT.Push, DT.End, RootBase;
    var b := RootBase(env, vxml.kind, vxml.outcome.attributes);
    OnlyChild(env, Ordinary, Sofar([], NoPrompt, START_FLAGS), x);
    VxmlStarts(env, vxml);
    RunBracket(env, FRESH, DT.Empty, StartElement(vxml.kind, vxml.name, vxml.attrs, vxml.outcome), Events(x), EndElement(vxml.kind, vxml.name));
    ClosesInnermost(env, m, DT.Push(b, n), vxml.kind, vxml.name);
    RootEnds(env, vxml, n);
  }

  lemma RootEnds(env: Environment, vxml: Xml, n: DT.Node)
    requires vxml.Elem? && vxml.outcome.Accepted?
    ensures DT.End(DT.Push(RootBase(env, vxml.kind, vxml.outcome.attributes), n))
            == Some(DT.Closed(DT.Element(Code(vxml.kind), vxml.outcome.attributes, env.level, [n])))
  {
    hide Code;
    assert [] + [n] == [n];
  }

  lemma VxmlStarts(env: Environment, x: Xml)
    requires x.Elem? && x.kind.Plain? && x.outcome.Accepted?
    ensures Inv(FRESH, DT.Empty)
    ensures Step(env, FRESH, DT.Empty, StartElement(x.kind, x.name, x.attrs, x.outcome))
            == Next(FRESH, RootBase(env, x.kind, x.outcome.attributes))
  {
    hide Step, HasSource, RootBase;
    RootStart(env, x);
    assert InnerFlags(START_FLAGS, x.kind, x.outcome.attributes) == START_FLAGS;
  }

  /** The builder when the block has just begun. */
  function InBlock(env: Environment, vxml: Xml, block: Xml): (r: DT.Build)
    requires vxml.Elem? && vxml.outcome.Accepted? && block.Elem? && block.outcome.Accepted?
    ensures r.Open? && r.Ok()
  {
    Nest(RootBase(env, vxml.kind, vxml.outcome.attributes), Code(block.kind), block.outcome.attributes, env.level)
  }

  // ----- A mark outside every prompt element -----

  const IN_PROMPT := FRESH.(implicitPrompt := true)

  /** The implicit prompt that such a mark leaves: its header, and the mark, which has swallowed the
      prompt's closing tag. */
  function SwallowingPrompt(env: Environment, attributes: seq<DT.Attribute>): DT.Node {
    var header := SpeakHeader(env.baseUri, env.documentLang);
    DT.Element(NODE_PROMPT, [], env.level,
               [DT.Content(header, |header|),
                DT.Element(Code(Mark), attributes, env.level, [DT.Content(SPEAK_CLOSE, 0)])])
  }

  function MarkPieces(env: Environment, attributes: seq<DT.Attribute>): seq<Piece> {
    [Header(SpeakHeader(env.baseUri, env.documentLang)), Built(Code(Mark), attributes, false, [Chunk(SPEAK_CLOSE)])]
  }

  lemma MarkPiecesAre(env: Environment, attributes: seq<DT.Attribute>)
    ensures NodeOf(Built(NODE_PROMPT, [], false, MarkPieces(env, attributes)), env.level) == SwallowingPrompt(env, attributes)
  {
    hide SpeakHeader, Code, SPEAK_CLOSE;
    var header := SpeakHeader(env.baseUri, env.documentLang);
    HeaderIsLong(env.baseUri, env.documentLang);
    var mark := Built(Code(Mark), attributes, false, [Chunk(SPEAK_CLOSE)]);
    AssembleMore([], [], Chunk(SPEAK_CLOSE), env.level);
    assert [] + [Chunk(SPEAK_CLOSE)] == [Chunk(SPEAK_CLOSE)];
    AssembleMore([], [], Header(header), env.level);
    assert [] + [Header(header)] == [Header(header)];
    AssembleMore([], [Header(header)], mark, env.level);
    assert [Header(header)] + [mark] == MarkPieces(env, attributes);
    assert DT.AppendText([], SPEAK_CLOSE) == [DT.Content(SPEAK_CLOSE, 0)];
    assert DT.AppendText([], header) == [DT.Content(header, 0)];
    assert Assemble([], [Header(header)], env.level) == [DT.Content(header, |header|)];
    assert NodeOf(mark, env.level) == DT.Element(Code(Mark), attributes, env.level, [DT.Content(SPEAK_CLOSE, 0)]);
  }

  lemma HeaderIsLong(base: string, lang: string)
    ensures SpeakHeader(base, lang) != "" && SPEAK_CLOSE != ""
  {
    hide TrimUriBase;
  }

  lemma MarkStarts(env: Environment, b: DT.Build, x: Xml)
    requires b.Open? && b.Ok() && x.Elem? && x.kind.Mark? && x.outcome.Accepted?
    ensures var st1 := Opened(env, Ordinary, Sofar([], NoPrompt, START_FLAGS));
            && Inv(FRESH, b)
            && Step(env, FRESH, b, StartElement(x.kind, x.name, x.attrs, x.outcome))
               == Next(IN_PROMPT, Nest(BuildOf(b, st1, env.level), Code(Mark), x.outcome.attributes, env.level))
  {
    hide SpeakHeader, Code, HasSource, ImplicitStart, BuildOf, Nest, PromptHeader;
    var st := Sofar([], NoPrompt, START_FLAGS);
    FreshBuild(b, START_FLAGS, env.level);
    OpenedBuild(env, b, st);
    ElementBuilt(env, IN_PROMPT, b, Opened(env, Ordinary, st), Mark, x.outcome, START_FLAGS);
    var inner := InnerBase(b, Opened(env, Ordinary, st), Mark, x.outcome.attributes, env.level);
    FreshBuild(inner, START_FLAGS, env.level);
    InnerBaseIs(b, Opened(env, Ordinary, st), Mark, x.outcome.attributes, env.level);
  }

  lemma MarkEnds(env: Environment, b: DT.Build, x: Xml)
    requires b.Open? && b.Ok() && x.Elem? && x.kind.Mark? && x.outcome.Accepted?
    ensures var st1 := Opened(env, Ordinary, Sofar([], NoPrompt, START_FLAGS));
            var inner := Nest(BuildOf(b, st1, env.level), Code(Mark), x.outcome.attributes, env.level);
            && Inv(IN_PROMPT, inner)
            && Step(env, IN_PROMPT, inner, EndElement(x.kind, x.name))
               == Next(FRESH, DT.Push(b, SwallowingPrompt(env, x.outcome.attributes)))
  {
    hide SpeakHeader, Code, DT.Text, DT.End, Nest, Grow, SwallowingPrompt, Assemble, SPEAK_CLOSE, DT.Push;
    var a := x.outcome.attributes;
    var st1 := Opened(env, Ordinary, Sofar([], NoPrompt, START_FLAGS));
    var inner := Nest(BuildOf(b, st1, env.level), Code(Mark), a, env.level);
    GrowNothing(inner, env.level);
    GrowChunk(inner, [], SPEAK_CLOSE, env.level);
    assert [] + [Chunk(SPEAK_CLOSE)] == [Chunk(SPEAK_CLOSE)];
    PutBuilt(b, st1, Code(Mark), a, false, [Chunk(SPEAK_CLOSE)], env.level);
    var ps := MarkPieces(env, a);
    assert Put(st1, Built(Code(Mark), a, false, [Chunk(SPEAK_CLOSE)])).pending.pieces == ps;
    GrowBuilt(b, [], NODE_PROMPT, [], false, ps, env.level);
    GrowNothing(b, env.level);
    PushedNode(b, Built(NODE_PROMPT, [], false, ps), env.level);
    MarkPiecesAre(env, a);
    assert [] + [Built(NODE_PROMPT, [], false, ps)] == [Built(NODE_PROMPT, [], false, ps)];
  }

  lemma PushedNode(b: DT.Build, p: Piece, level: DT.DocumentLevel)
    requires b.Open? && b.Ok() && p.Built?
    ensures Grow(b, [p], level) == DT.Push(b, NodeOf(p, level))
  {
    hide NodeOf;
    AssembleMore(DT.Top(b.frames).children, [], p, level);
    assert [] + [p] == [p];
  }

  /** A mark in a block, outside every prompt element: the end of the mark puts the closing tag of the
      implicit prompt into the mark, closes the mark as if it were the prompt and the prompt as if it
      were the mark. No conversion is clean, yet nothing fails: the parse ends with a finished tree
      whose prompt has no closing tag. */
  lemma MarkDocument(env: Environment, vxml: Xml, block: Xml, mark: Xml)
    requires vxml.Elem? && vxml.kind.Plain? && vxml.outcome.Accepted? && vxml.children == [block]
    requires block.Elem? && block.kind.Plain? && block.outcome.Accepted? && block.children == [mark]
    requires mark.Elem? && mark.kind.Mark? && mark.outcome.Accepted? && mark.children == []
    ensures ConvertDocument(env, vxml) == NotClean
    ensures Inv(FRESH, DT.Empty)
    ensures Run(env, FRESH, DT.Empty, Events(vxml))
            == Next(FRESH, DT.Closed(
                 DT.Element(Code(vxml.kind), vxml.outcome.attributes, env.level,
                   [DT.Element(Code(block.kind), block.outcome.attributes, env.level,
                      [SwallowingPrompt(env, mark.outcome.attributes)])])))
  {
    hide Run, Step, Inv, BuildOf, Nest, Code, SwallowingPrompt, Convert, ConvertDocument, DT.Push;
    MarkIsNeverConverted(env, Sofar([], NoPrompt, START_FLAGS), mark);
    UncleanInside(env, vxml, block, mark);
    var b := InBlock(env, vxml, block);
    MarkStarts(env, b, mark);
    MarkEnds(env, b, mark);
    EmptyBody(env, IN_PROMPT, Step(env, FRESH, b, StartElement(mark.kind, mark.name, mark.attrs, mark.outcome)).b);
    RunBracket(env, FRESH, b, StartElement(mark.kind, mark.name, mark.attrs, mark.outcome), [], EndElement(mark.kind, mark.name));
    AroundNode(env, vxml, block, mark, FRESH, SwallowingPrompt(env, mark.outcome.attributes));
  }

  lemma EmptyBody(env: Environment, m: Modes, b: DT.Build)
    requires Inv(m, b)
    ensures EventsAll([]) == [] && Run(env, m, b, []) == Next(m, b)
  {
  }

  // ----- A grammar inside copied SSML -----

  lemma GrammarInSpeechIsUnclean(env: Environment, x: Xml, g: Xml)
    requires x.Elem? && x.kind.Speech? && x.children == [g] && g.Elem? && g.kind.Grammar?
    ensures Convert(env, Ordinary, Sofar([], NoPrompt, START_FLAGS), x).Unclean?
  {
    hide SpeakHeader, OpenTag, ConvertAll;
    var st2 := Put(Focus(Opened(env, Ordinary, Sofar([], NoPrompt, START_FLAGS))), Chunk(OpenTag(x.name, x.attrs)));
    OnlyChild(env, InImplicit(1), st2, g);
  }

  /** What a block holds when the tag of the SSML element is copied, and when the grammar has then
      ended the prompt. */
  function Copied(env: Environment, x: Xml): (st: Sofar)
    requires x.Elem?
    ensures st.pending.OpenPrompt? && st.flags == START_FLAGS
  {
    Put(Opened(env, Ordinary, Sofar([], NoPrompt, START_FLAGS)), Chunk(OpenTag(x.name, x.attrs)))
  }

  lemma SpeechCopied(env: Environment, b: DT.Build, x: Xml)
    requires b.Open? && b.Ok() && x.Elem? && x.kind.Speech?
    ensures Inv(FRESH, b)
    ensures Step(env, FRESH, b, StartElement(x.kind, x.name, x.attrs, x.outcome))
            == Next(IN_PROMPT.(copyDepth := 1), BuildOf(b, Copied(env, x), env.level))
  {
    hide BuildOf, Step, ClosesItsOwn, FocusBase, OpenTag, SpeakHeader;
    var st := Sofar([], NoPrompt, START_FLAGS);
    FreshBuild(b, START_FLAGS, env.level);
    SpeechStart(env, Ordinary, st, x, b, 1, 0);
    var st1 := Opened(env, Ordinary, st);
    var st2 := Put(Focus(st1), Chunk(OpenTag(x.name, x.attrs)));
    UnfocusBuild(b, st1, st2, env.level);
    assert Unfocus(st1, st2) == Copied(env, x);
  }

  /** The grammar resets the copy depth before it is compared, so it ends the prompt in the middle of
      the copied element, and its own body and end then work as they would in the block. */
  lemma GrammarPasses(env: Environment, b: DT.Build, st: Sofar, g: Xml)
    requires b.Open? && b.Ok() && st.pending.OpenPrompt? && st.flags == START_FLAGS
    requires g.Elem? && g.kind.Grammar? && g.outcome.Accepted? && HasSource(g.outcome.attributes) != HasTextAll(g.children)
    ensures var m := IN_PROMPT.(copyDepth := 1);
            && Inv(m, BuildOf(b, st, env.level))
            && Run(env, m, BuildOf(b, st, env.level), Events(g))
               == Next(FRESH.(hasContent := HasTextAll(g.children)),
                       BuildOf(b, Put(Closed(st), Built(Code(Grammar), g.outcome.attributes, false, [Chunk(PrettyAll(g.children))])), env.level))
  {
    hide Step, Run, BuildOf, Inv, WatchedRun, HasTextAll, PrettyAll, HasSource, Grow, InnerBase, Code, Closed;
    var m := IN_PROMPT.(copyDepth := 1);
    var a := g.outcome.attributes;
    var inner := InnerBase(b, Closed(st), Grammar, a, env.level);
    var m1 := FRESH.(inGrammar := true, hasContent := false, contentForbidden := HasSource(a));
    var m2 := m1.(hasContent := HasTextAll(g.children));
    GrammarStarts(env, b, st, g);
    EmptyChunk(inner, env.level);
    GrammarRuns(env, m1, g.children, "", inner);
    assert "" + PrettyAll(g.children) == PrettyAll(g.children);
    WatchedIsRun(env, m1, inner, EventsAll(g.children));
    RunBracket(env, m, BuildOf(b, st, env.level), StartElement(g.kind, g.name, g.attrs, g.outcome), EventsAll(g.children), EndElement(g.kind, g.name));
    GrammarEnds(env, m2, Grow(inner, [Chunk(PrettyAll(g.children))], env.level), g.name);
    CompleteRuns(m2.(inGrammar := false), b, Closed(st), Grammar, a, [Chunk(PrettyAll(g.children))], env.level);
  }

  lemma GrammarStarts(env: Environment, b: DT.Build, st: Sofar, g: Xml)
    requires b.Open? && b.Ok() && st.pending.OpenPrompt? && st.flags == START_FLAGS
    requires g.Elem? && g.kind.Grammar? && g.outcome.Accepted?
    ensures var m := IN_PROMPT.(copyDepth := 1);
            var m1 := FRESH.(inGrammar := true, hasContent := false, contentForbidden := HasSource(g.outcome.attributes));
            var inner := InnerBase(b, Closed(st), Grammar, g.outcome.attributes, env.level);
            && Inv(m, BuildOf(b, st, env.level)) && Inv(m1, inner)
            && Step(env, m, BuildOf(b, st, env.level), StartElement(g.kind, g.name, g.attrs, g.outcome)) == Next(m1, inner)
  {
    hide BuildOf, Grow, ImplicitEnd, Code, HasSource, InnerBase, PromptHeader, SpeakHeader, Closed;
    var m0 := FRESH.(inGrammar := true);
    ClosedBuild(b, st, env.level);
    ElementBuilt(env, m0, b, Closed(st), Grammar, g.outcome, START_FLAGS);
    var inner := InnerBase(b, Closed(st), Grammar, g.outcome.attributes, env.level);
    FreshBuild(inner, START_FLAGS, env.level);
  }

  lemma GrammarEnds(env: Environment, m: Modes, b: DT.Build, name: string)
    requires Inv(m, b) && m.ignoreDepth == 0 && m.inGrammar && m.copyDepth == 0 && m.explicitPrompt == 0 && !m.implicitPrompt
    ensures Step(env, m, b, EndElement(Grammar, name)) == CompleteElement(m.(inGrammar := false), b, Grammar)
  {
    hide CompleteElement;
  }

  /** The end of the SSML element then closes the block, the end of the block closes vxml, and the
      end of vxml finds no element open: the document is not refused, it raises the internal error. */
  lemma GrammarInSpeechDocument(env: Environment, vxml: Xml, block: Xml, x: Xml, g: Xml)
    requires vxml.Elem? && vxml.kind.Plain? && vxml.outcome.Accepted? && vxml.children == [block]
    requires block.Elem? && block.kind.Plain? && block.outcome.Accepted? && block.children == [x]
    requires x.Elem? && x.kind.Speech? && x.children == [g]
    requires g.Elem? && g.kind.Grammar? && g.outcome.Accepted? && HasSource(g.outcome.attributes) != HasTextAll(g.children)
    ensures ConvertDocument(env, vxml) == NotClean
    ensures Inv(FRESH, DT.Empty)
    ensures Run(env, FRESH, DT.Empty, Events(vxml)) == Throw(Corrupted)
  {
    hide Run, Step, Inv, BuildOf, Nest, Code, Convert, ConvertDocument, HasTextAll, HasSource, PrettyAll, RootBase;
    GrammarInSpeechIsUnclean(env, x, g);
    UncleanInside(env, vxml, block, x);
    var root := RootBase(env, vxml.kind, vxml.outcome.attributes);
    var m := FRESH.(hasContent := HasTextAll(g.children));
    SpeechClosesBlock(env, root, block, x, g);
    OnlyChild(env, Ordinary, Sofar([], NoPrompt, START_FLAGS), block);
    VxmlStarts(env, vxml);
    RunBracket(env, FRESH, DT.Empty, StartElement(vxml.kind, vxml.name, vxml.attrs, vxml.outcome), Events(block), EndElement(vxml.kind, vxml.name));
    ClosesInnermost(env, m, Run(env, FRESH, root, Events(block)).b, vxml.kind, vxml.name);
  }

  lemma SpeechClosesBlock(env: Environment, b: DT.Build, block: Xml, x: Xml, g: Xml)
    requires b.Open? && |b.frames| == 1
    requires block.Elem? && block.kind.Plain? && block.outcome.Accepted? && block.children == [x]
    requires x.Elem? && x.kind.Speech? && x.children == [g]
    requires g.Elem? && g.kind.Grammar? && g.outcome.Accepted? && HasSource(g.outcome.attributes) != HasTextAll(g.children)
    ensures Inv(FRESH, b)
    ensures var r := Run(env, FRESH, b, Events(block));
            r.Next? && r.m == FRESH.(hasContent := HasTextAll(g.children)) && r.b.Closed?
  {
    hide Run, Step, Inv, BuildOf, Nest, Code, HasTextAll, HasSource, PrettyAll, Closed, Put, Copied;
    var b2 := Nest(b, Code(block.kind), block.outcome.attributes, env.level);
    var m := FRESH.(hasContent := HasTextAll(g.children));
    var st := Sofar([], NoPrompt, START_FLAGS);
    PlainStarts(env, b, block);
    SpeechCopied(env, b2, x);
    GrammarPasses(env, b2, Copied(env, x), g);
    OnlyChild(env, Ordinary, st, g);
    OnlyChild(env, Ordinary, st, x);
    RunBracket(env, FRESH, b2, StartElement(x.kind, x.name, x.attrs, x.outcome), Events(g), EndElement(x.kind, x.name));
    var r := Run(env, IN_PROMPT.(copyDepth := 1), BuildOf(b2, Copied(env, x), env.level), Events(g));
    ClosesInnermost(env, m, r.b, x.kind, x.name);
    GrammarDepth(b2, Copied(env, x), g, env.level);
    NestDepth(b, Code(block.kind), block.outcome.attributes, env.level);
    RunBracket(env, FRESH, b, StartElement(block.kind, block.name, block.attrs, block.outcome), Events(x), EndElement(block.kind, block.name));
    var r1 := Run(env, FRESH, b2, Events(x));
    ClosesInnermost(env, m, r1.b, block.kind, block.name);
  }

  lemma NestDepth(b: DT.Build, code: nat, attributes: seq<DT.Attribute>, level: DT.DocumentLevel)
    requires b.Open? && b.Ok()
    ensures |Nest(b, code, attributes, level).frames| == |b.frames| + 1
  {
  }

  lemma GrammarDepth(b: DT.Build, st: Sofar, g: Xml, level: DT.DocumentLevel)
    requires b.Open? && b.Ok() && g.Elem? && g.outcome.Accepted?
    ensures var st1 := Put(Closed(st), Built(Code(Grammar), g.outcome.attributes, false, [Chunk(PrettyAll(g.children))]));
            |BuildOf(b, st1, level).frames| == |b.frames|
  {
    BuildDepth(b, Put(Closed(st), Built(Code(Grammar), g.outcome.attributes, false, [Chunk(PrettyAll(g.children))])), level);
  }

  /** The guard the grammar passes does work for ordinary elements: the same document with one of
      those in the grammar's place is refused. */
  lemma PlainInSpeechDocument(env: Environment, vxml: Xml, block: Xml, x: Xml, y: Xml)
    requires vxml.Elem? && vxml.kind.Plain? && vxml.outcome.Accepted? && vxml.children == [block]
    requires block.Elem? && block.kind.Plain? && block.outcome.Accepted? && block.children == [x]
    requires x.Elem? && x.kind.Speech? && x.children == [y] && y.Elem? && y.kind.Plain?
    ensures ConvertDocument(env, vxml) == NotAccepted
    ensures Inv(FRESH, DT.Empty)
    ensures Run(env, FRESH, DT.Empty, Events(vxml)) == Throw(Refused)
  {
    hide Run, WatchedRun, ConvertAll, HasSource, SpeakHeader, OpenTag, Events;
    var st := Sofar([], NoPrompt, START_FLAGS);
    var st2 := Put(Focus(Opened(env, Ordinary, st)), Chunk(OpenTag(x.name, x.attrs)));
    OnlyChild(env, InImplicit(1), st2, y);
    assert Convert(env, Ordinary, st, x).Refusal?;
    assert InnerFlags(START_FLAGS, vxml.kind, vxml.outcome.attributes) == START_FLAGS;
    assert InnerFlags(START_FLAGS, block.kind, block.outcome.attributes) == START_FLAGS;
    OnlyChild(env, Ordinary, st, x);
    OnlyChild(env, Ordinary, st, block);
    assert Convert(env, Ordinary, st, block).Refusal?;
    DocumentRuns(env, vxml);
    WatchedIsRun(env, FRESH, DT.Empty, Events(vxml));
  }
}
