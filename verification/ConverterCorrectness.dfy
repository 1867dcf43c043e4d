/** The event machine computes the recursive conversion: for every document tree the run over its
    events ends as the conversion says, and the builder then holds the converted pieces. */
module ConverterCorrectness {
  import opened Wrappers
  import opened Markup
  import opened Whitespace
  import opened ConverterSteps
  import opened ConverterReference
  import DT = DocumentTree

  // ----- Runs that watch what each step closes -----

  predicate TopIs(b: DT.Build, name: nat) {
    b.Open? && b.Ok() && DT.Top(b.frames).name == name
  }

  predicate SecondIs(b: DT.Build, name: nat) {
    b.Open? && |b.frames| > 1 && b.frames[|b.frames| - 2].name == name
  }

  /** The element to be closed by ending the implicit prompt is a prompt with no copied tag open. */
  predicate PromptOnTop(m: Modes, b: DT.Build) {
    TopIs(b, NODE_PROMPT) && m.copyDepth == 0
  }

  /** Every builder element this event closes is the one it means to close. Decided by the modes
      and the builder before the event. */
  predicate ClosesItsOwn(m: Modes, b: DT.Build, e: Event) {
    match e
    case Characters(_) => true
    case StartElement(k, _, _, _) =>
      if m.ignoreDepth > 0 || m.inGrammar || (m.explicitPrompt > 0 && !EmittedInPrompt(k)) || k.Unknown? || k.Metadata?
         || (k.Prompt? && m.foreachImplicit)
      then true
      else StartEndsPrompt(m, k) && ModesAtStart(m, k).copyDepth == 0 ==> PromptOnTop(m, b)
    case EndElement(k, _) =>
      if m.ignoreDepth > 0 || (m.inGrammar && m.copyDepth != 0) || k.Unknown?
         || (m.explicitPrompt > 0 && k.Prompt? && (m.foreachImplicit || m.explicitPrompt > 1))
         || (m.explicitPrompt > 0 && !k.Prompt? && !EmittedInPrompt(k))
         || (m.implicitPrompt && (k.Speech? || k.Prompt?))
      then true
      else if EndEndsPrompt(m, k) then PromptOnTop(m, b) && SecondIs(b, Code(k))
      else TopIs(b, Code(k))
  }

  datatype Outcome = Finished(m: Modes, b: DT.Build) | Stopped(why: Why) | Misplaced

  /** A run that stops at the first event that would close something else than its own. */
  function WatchedRun(env: Environment, m: Modes, b: DT.Build, es: seq<Event>): Outcome
    requires Inv(m, b)
    decreases es
  {
    if es == [] then Finished(m, b)
    else if !ClosesItsOwn(m, b, es[0]) then Misplaced
    else
      match Step(env, m, b, es[0])
      case Throw(w) => Stopped(w)
      case Next(m1, b1) => WatchedRun(env, m1, b1, es[1..])
  }

  lemma {:induction false} WatchedIsRun(env: Environment, m: Modes, b: DT.Build, es: seq<Event>)
    requires Inv(m, b)
    ensures WatchedRun(env, m, b, es).Finished? ==>
              Run(env, m, b, es) == Next(WatchedRun(env, m, b, es).m, WatchedRun(env, m, b, es).b)
    ensures WatchedRun(env, m, b, es).Stopped? ==> Run(env, m, b, es) == Throw(WatchedRun(env, m, b, es).why)
    decreases es
  {
    hide Step, ClosesItsOwn;
    if es != [] && ClosesItsOwn(m, b, es[0]) {
      match Step(env, m, b, es[0])
      case Throw(_) =>
      case Next(m1, b1) => WatchedIsRun(env, m1, b1, es[1..]);
    }
  }

  lemma {:induction false} WatchedAppend(env: Environment, m: Modes, b: DT.Build, es: seq<Event>, fs: seq<Event>)
    requires Inv(m, b)
    ensures var r := WatchedRun(env, m, b, es);
            && (r.Finished? ==> Inv(r.m, r.b))
            && WatchedRun(env, m, b, es + fs) == if r.Finished? then WatchedRun(env, r.m, r.b, fs) else r
    decreases es
  {
    hide Step, ClosesItsOwn;
    if es == [] {
      assert es + fs == fs;
    } else {
      assert (es + fs)[1..] == es[1..] + fs && (es + fs)[0] == es[0];
      if ClosesItsOwn(m, b, es[0]) {
        match Step(env, m, b, es[0])
        case Throw(_) =>
        case Next(m1, b1) => WatchedAppend(env, m1, b1, es[1..], fs);
      }
    }
  }

  // ----- The builder holding pieces -----

  /** Base builder b0 with the pieces added to its innermost element. */
  function Grow(b0: DT.Build, ps: seq<Piece>, level: DT.DocumentLevel): (r: DT.Build)
    requires b0.Open? && b0.Ok()
    ensures r.Open? && r.Ok() && |r.frames| == |b0.frames|
    ensures DT.Top(r.frames).name == DT.Top(b0.frames).name
    ensures |r.frames| > 1 ==> r.frames[|r.frames| - 2] == b0.frames[|b0.frames| - 2]
  {
    var f := DT.Top(b0.frames);
    DT.Open(DT.SetTop(b0.frames, f.(children := Assemble(f.children, ps, level))))
  }

  function Nest(b: DT.Build, code: nat, attributes: seq<DT.Attribute>, level: DT.DocumentLevel): (r: DT.Build)
    requires b.Open? && b.Ok()
    ensures r.Open? && r.Ok() && DT.Top(r.frames).name == code && SecondIs(r, DT.Top(b.frames).name)
  {
    DT.Open(b.frames + [DT.Frame(code, attributes, level, [])])
  }

  lemma GrowNothing(b0: DT.Build, level: DT.DocumentLevel)
    requires b0.Open? && b0.Ok()
    ensures Grow(b0, [], level) == b0
  {
  }

  lemma AssembleMore(children: seq<DT.Node>, ps: seq<Piece>, p: Piece, level: DT.DocumentLevel)
    ensures Assemble(children, ps + [p], level) ==
            var before := Assemble(children, ps, level);
            if p.Built? then before + [NodeOf(p, level)]
            else if p.Chunk? then DT.AppendText(before, p.s)
            else DT.MarkHeader(DT.AppendText(before, p.s), -1)
  {
    assert (ps + [p])[..|ps|] == ps;
  }

  lemma GrowChunk(b0: DT.Build, ps: seq<Piece>, s: string, level: DT.DocumentLevel)
    requires b0.Open? && b0.Ok()
    ensures DT.Text(Grow(b0, ps, level), s) == Some(Grow(b0, ps + [Chunk(s)], level))
  {
    hide Assemble, DT.AppendText;
    AssembleMore(DT.Top(b0.frames).children, ps, Chunk(s), level);
    AppendNothing(Assemble(DT.Top(b0.frames).children, ps, level));
    SetTopAgain(b0.frames, Grow(b0, ps, level).frames, Grow(b0, ps + [Chunk(s)], level).frames);
  }

  lemma AppendNothing(cs: seq<DT.Node>)
    ensures DT.AppendText(cs, "") == cs
  {
  }

  lemma SetTopAgain(fs: seq<DT.Frame>, gs: seq<DT.Frame>, hs: seq<DT.Frame>)
    requires fs != [] && gs != [] && hs != []
    requires gs == DT.SetTop(fs, DT.Top(gs)) && hs == DT.SetTop(fs, DT.Top(hs))
    ensures DT.SetTop(gs, DT.Top(hs)) == hs
  {
  }

  lemma GrowHeader(b0: DT.Build, ps: seq<Piece>, s: string, level: DT.DocumentLevel)
    requires b0.Open? && b0.Ok()
    ensures DT.Text(Grow(b0, ps, level), s).Some?
    ensures DT.Mark(DT.Text(Grow(b0, ps, level), s).value, -1) == Grow(b0, ps + [Header(s)], level)
  {
    hide Assemble, DT.AppendText, DT.MarkHeader;
    GrowChunk(b0, ps, s, level);
    AssembleMore(DT.Top(b0.frames).children, ps, Chunk(s), level);
    AssembleMore(DT.Top(b0.frames).children, ps, Header(s), level);
    SetTopAgain(b0.frames, Grow(b0, ps + [Chunk(s)], level).frames, Grow(b0, ps + [Header(s)], level).frames);
  }

  lemma GrowBuilt(b0: DT.Build, ps: seq<Piece>, code: nat, attributes: seq<DT.Attribute>, pruned: bool,
                  inner: seq<Piece>, level: DT.DocumentLevel)
    requires b0.Open? && b0.Ok()
    ensures var b := Grow(Nest(Grow(b0, ps, level), code, attributes, level), inner, level);
            DT.End(if pruned then DT.PruneTop(b) else b)
            == Some(Grow(b0, ps + [Built(code, attributes, pruned, inner)], level))
  {
    hide Assemble, DT.Prune;
    var outer := Grow(b0, ps, level);
    var b := Grow(Nest(outer, code, attributes, level), inner, level);
    var p := Built(code, attributes, pruned, inner);
    var b1 := if pruned then DT.PruneTop(b) else b;
    assert DT.CloseFrame(DT.Top(b1.frames)) == NodeOf(p, level);
    assert b1.frames[..|b1.frames| - 1] == outer.frames;
    AssembleMore(DT.Top(b0.frames).children, ps, p, level);
    SetTopAgain(b0.frames, outer.frames, Grow(b0, ps + [p], level).frames);
  }

  lemma {:induction false} NestAttributes(b: DT.Build, code: nat, a0: seq<DT.Attribute>, attributes: seq<DT.Attribute>,
                                          level: DT.DocumentLevel)
    requires b.Open? && b.Ok()
    ensures AddAttributes(Nest(b, code, a0, level), attributes) == Some(Nest(b, code, a0 + attributes, level))
    decreases attributes
  {
    if attributes == [] {
      assert a0 + attributes == a0;
    } else {
      var b1 := DT.AddAttr(Nest(b, code, a0, level), attributes[0]).value;
      assert b1 == Nest(b, code, a0 + [attributes[0]], level);
      NestAttributes(b, code, a0 + [attributes[0]], attributes[1..], level);
      assert a0 + [attributes[0]] + attributes[1..] == a0 + attributes;
    }
  }

  // ----- Machine states that stand for conversion states -----

  function ModesOf(ctx: Context, st: Sofar, prompts: int, copies: int): Modes {
    var f := st.flags;
    match ctx
    case Ordinary =>
      Modes(0, false, 0, 0, st.pending.OpenPrompt?, f.foreachImplicit, f.pcdataImpliesPrompt, f.hasContent, f.contentForbidden)
    case InPrompt =>
      Modes(0, false, copies, prompts, false, f.foreachImplicit, f.pcdataImpliesPrompt, f.hasContent, f.contentForbidden)
    case InImplicit(c) =>
      Modes(0, false, c, 0, true, f.foreachImplicit, f.pcdataImpliesPrompt, f.hasContent, f.contentForbidden)
  }

  function BuildOf(b0: DT.Build, st: Sofar, level: DT.DocumentLevel): (r: DT.Build)
    requires b0.Open? && b0.Ok()
    ensures r.Open? && r.Ok()
  {
    var b := Grow(b0, st.done, level);
    match st.pending
    case NoPrompt => b
    case OpenPrompt(ps) => Grow(Nest(b, NODE_PROMPT, [], level), ps, level)
  }

  /** What holds of a conversion state in its context. */
  ghost predicate Fits(ctx: Context, st: Sofar, b0: DT.Build) {
    && b0.Open? && b0.Ok()
    && (!ctx.InImplicit? ==> !st.flags.foreachImplicit)
    && (!ctx.Ordinary? ==> st.pending.NoPrompt?)
    && (ctx.InImplicit? && ctx.copies == 0 ==> DT.Top(b0.frames).name != NODE_PROMPT)
  }

  lemma FitsInv(ctx: Context, st: Sofar, b0: DT.Build, prompts: int, copies: int, level: DT.DocumentLevel)
    requires Fits(ctx, st, b0) && prompts > 0
    ensures Inv(ModesOf(ctx, st, prompts, copies), BuildOf(b0, st, level))
  {
    hide Grow, Nest;
  }

  /** The builder whose innermost element collects the pieces st puts next. */
  function FocusBase(b0: DT.Build, st: Sofar, level: DT.DocumentLevel): (r: DT.Build)
    requires b0.Open? && b0.Ok()
    ensures r.Open? && r.Ok()
    ensures DT.Top(r.frames).name == if st.pending.OpenPrompt? then NODE_PROMPT else DT.Top(b0.frames).name
    ensures st.pending.OpenPrompt? ==> SecondIs(r, DT.Top(b0.frames).name)
    ensures st.pending.NoPrompt? ==> r == b0
  {
    if st.pending.OpenPrompt? then Nest(Grow(b0, st.done, level), NODE_PROMPT, [], level) else b0
  }

  lemma FocusBuild(b0: DT.Build, st: Sofar, level: DT.DocumentLevel)
    requires b0.Open? && b0.Ok()
    ensures BuildOf(b0, st, level) == Grow(FocusBase(b0, st, level), Focus(st).done, level)
    ensures DT.Top(BuildOf(b0, st, level).frames).name == DT.Top(FocusBase(b0, st, level).frames).name
    ensures st.pending.OpenPrompt? ==> SecondIs(BuildOf(b0, st, level), DT.Top(b0.frames).name)
  {
    hide Assemble;
  }

  lemma UnfocusBuild(b0: DT.Build, st: Sofar, r: Sofar, level: DT.DocumentLevel)
    requires b0.Open? && b0.Ok() && r.pending.NoPrompt?
    ensures BuildOf(b0, Unfocus(st, r), level) == BuildOf(FocusBase(b0, st, level), r, level)
  {
    hide Assemble;
  }

  lemma BuildDepth(b: DT.Build, st: Sofar, level: DT.DocumentLevel)
    requires b.Open? && b.Ok()
    ensures |BuildOf(b, st, level).frames| == |b.frames| + if st.pending.OpenPrompt? then 1 else 0
  {
    hide Assemble;
  }

  // ----- What the builder steps do to conversion states -----

  lemma PutChunk(b0: DT.Build, st: Sofar, s: string, level: DT.DocumentLevel)
    requires b0.Open? && b0.Ok()
    ensures DT.Text(BuildOf(b0, st, level), s) == Some(BuildOf(b0, Put(st, Chunk(s)), level))
  {
    hide Grow, Nest, DT.Text;
    FocusBuild(b0, st, level);
    FocusBuild(b0, Put(st, Chunk(s)), level);
    GrowChunk(FocusBase(b0, st, level), Focus(st).done, s, level);
  }

  lemma PutBuilt(b0: DT.Build, st: Sofar, code: nat, attributes: seq<DT.Attribute>, pruned: bool,
                 inner: seq<Piece>, level: DT.DocumentLevel)
    requires b0.Open? && b0.Ok()
    ensures var b := Grow(Nest(BuildOf(b0, st, level), code, attributes, level), inner, level);
            DT.End(if pruned then DT.PruneTop(b) else b)
            == Some(BuildOf(b0, Put(st, Built(code, attributes, pruned, inner)), level))
  {
    hide Grow, Nest, DT.End, DT.PruneTop;
    FocusBuild(b0, st, level);
    FocusBuild(b0, Put(st, Built(code, attributes, pruned, inner)), level);
    GrowBuilt(FocusBase(b0, st, level), Focus(st).done, code, attributes, pruned, inner, level);
  }

  lemma OpenedBuild(env: Environment, b0: DT.Build, st: Sofar)
    requires b0.Open? && b0.Ok() && st.pending.NoPrompt?
    ensures ImplicitStart(env, BuildOf(b0, st, env.level)) == Some(BuildOf(b0, Opened(env, Ordinary, st), env.level))
  {
    hide Assemble, SpeakHeader;
    var b := BuildOf(b0, st, env.level);
    var header := SpeakHeader(env.baseUri, env.documentLang);
    var nest := Nest(b, NODE_PROMPT, [], env.level);
    assert DT.Start(b, NODE_PROMPT, env.level) == Some(nest);
    GrowNothing(nest, env.level);
    GrowHeader(nest, [], header, env.level);
    assert [] + [Header(header)] == [Header(header)];
  }

  lemma ClosedBuild(b0: DT.Build, st: Sofar, level: DT.DocumentLevel)
    requires b0.Open? && b0.Ok() && st.pending.OpenPrompt?
    ensures ImplicitEnd(BuildOf(b0, st, level)) == Some(BuildOf(b0, Closed(st), level))
  {
    hide Assemble, DT.Text;
    PutChunk(b0, st, SPEAK_CLOSE, level);
    var ps := st.pending.pieces + [Chunk(SPEAK_CLOSE)];
    GrowBuilt(b0, st.done, NODE_PROMPT, [], false, ps, level);
  }

  // ----- Agreement of a run with a conversion -----

  ghost predicate Agrees(ctx: Context, run: Outcome, c: Conversion, b0: DT.Build, prompts: int, copies: int, level: DT.DocumentLevel)
    requires b0.Open? && b0.Ok()
  {
    match c
    case Converted(st) => run == Finished(ModesOf(ctx, st, prompts, copies), BuildOf(b0, st, level)) && Fits(ctx, st, b0)
    case Refusal => run == Stopped(Refused)
    case Unclean => run == Misplaced
  }

  lemma OneEvent(env: Environment, m: Modes, b: DT.Build, e: Event, es: seq<Event>)
    requires Inv(m, b)
    ensures WatchedRun(env, m, b, [e] + es) ==
            if !ClosesItsOwn(m, b, e) then Misplaced
            else if Step(env, m, b, e).Throw? then Stopped(Step(env, m, b, e).why)
            else WatchedRun(env, Step(env, m, b, e).m, Step(env, m, b, e).b, es)
  {
    hide Step, ClosesItsOwn;
    assert ([e] + es)[1..] == es;
  }

  lemma LastEvent(env: Environment, m: Modes, b: DT.Build, e: Event)
    requires Inv(m, b)
    ensures WatchedRun(env, m, b, [e]) ==
            if !ClosesItsOwn(m, b, e) then Misplaced
            else if Step(env, m, b, e).Throw? then Stopped(Step(env, m, b, e).why)
            else Finished(Step(env, m, b, e).m, Step(env, m, b, e).b)
  {
    OneEvent(env, m, b, e, []);
    assert [e] + [] == [e];
  }

  lemma TextRuns(env: Environment, ctx: Context, st: Sofar, s: string, b0: DT.Build, prompts: int, copies: int)
    requires Fits(ctx, st, b0) && prompts > 0
    ensures Inv(ModesOf(ctx, st, prompts, copies), BuildOf(b0, st, env.level))
    ensures var m, b := ModesOf(ctx, st, prompts, copies), BuildOf(b0, st, env.level);
            Agrees(ctx, WatchedRun(env, m, b, Events(Text(s))), Convert(env, ctx, st, Text(s)), b0, prompts, copies, env.level)
  {
    hide BuildOf, ImplicitStart, DT.Text;
    FitsInv(ctx, st, b0, prompts, copies, env.level);
    var m, b := ModesOf(ctx, st, prompts, copies), BuildOf(b0, st, env.level);
    LastEvent(env, m, b, Characters(s));
    if !AllBlank(s) {
      var st1 := if st.flags.pcdataImpliesPrompt then Opened(env, ctx, st) else st;
      if st1 != st { OpenedBuild(env, b0, st); }
      PutChunk(b0, st1, s, env.level);
      BuildIgnoresFlags(b0, Put(st1, Chunk(s)), st1.flags.(hasContent := true), env.level);
    }
  }

  lemma BuildIgnoresFlags(b0: DT.Build, st: Sofar, f: Flags, level: DT.DocumentLevel)
    requires b0.Open? && b0.Ok()
    ensures BuildOf(b0, st.(flags := f), level) == BuildOf(b0, st, level)
  {
  }

  // Inside ignored metadata nothing changes.
  lemma {:induction false} IgnoredRuns(env: Environment, m: Modes, b: DT.Build, xs: seq<Xml>)
    requires Inv(m, b) && m.ignoreDepth > 0
    ensures WatchedRun(env, m, b, EventsAll(xs)) == Finished(m, b)
    decreases xs, 0
  {
    if xs != [] {
      IgnoredRun(env, m, b, xs[0]);
      WatchedAppend(env, m, b, Events(xs[0]), EventsAll(xs[1..]));
      IgnoredRuns(env, m, b, xs[1..]);
    }
  }

  lemma {:induction false} IgnoredRun(env: Environment, m: Modes, b: DT.Build, x: Xml)
    requires Inv(m, b) && m.ignoreDepth > 0
    ensures WatchedRun(env, m, b, Events(x)) == Finished(m, b)
    decreases x, 1
  {
    match x
    case Text(s) => LastEvent(env, m, b, Characters(s));
    case Elem(k, n, a, o, cs) =>
      var m1 := m.(ignoreDepth := m.ignoreDepth + 1);
      assert Events(x) == [StartElement(k, n, a, o)] + (EventsAll(cs) + [EndElement(k, n)]);
      OneEvent(env, m, b, StartElement(k, n, a, o), EventsAll(cs) + [EndElement(k, n)]);
      IgnoredRuns(env, m1, b, cs);
      WatchedAppend(env, m1, b, EventsAll(cs), [EndElement(k, n)]);
      LastEvent(env, m1, b, EndElement(k, n));
      assert m1.(ignoreDepth := m1.ignoreDepth - 1) == m;
  }

  // Inside a grammar everything becomes text, and the copy depth comes back.
  lemma {:induction false} GrammarRuns(env: Environment, m: Modes, xs: seq<Xml>, sofar: string, b0: DT.Build)
    requires b0.Open? && b0.Ok()
    requires m.inGrammar && m.ignoreDepth == 0 && m.copyDepth >= 0 && Inv(m, Grow(b0, [Chunk(sofar)], env.level))
    ensures WatchedRun(env, m, Grow(b0, [Chunk(sofar)], env.level), EventsAll(xs))
            == Finished(m.(hasContent := m.hasContent || HasTextAll(xs)), Grow(b0, [Chunk(sofar + PrettyAll(xs))], env.level))
    decreases xs, 0
  {
    hide Grow, Step, ClosesItsOwn, Pretty, HasText, Events;
    var b := Grow(b0, [Chunk(sofar)], env.level);
    if xs == [] {
      assert sofar + PrettyAll(xs) == sofar;
    } else {
      GrammarRun(env, m, xs[0], sofar, b0);
      WatchedAppend(env, m, b, Events(xs[0]), EventsAll(xs[1..]));
      var m1 := m.(hasContent := m.hasContent || HasText(xs[0]));
      GrammarRuns(env, m1, xs[1..], sofar + Pretty(xs[0]), b0);
      assert sofar + Pretty(xs[0]) + PrettyAll(xs[1..]) == sofar + PrettyAll(xs);
    }
  }

  lemma {:induction false} GrammarRun(env: Environment, m: Modes, x: Xml, sofar: string, b0: DT.Build)
    requires b0.Open? && b0.Ok()
    requires m.inGrammar && m.ignoreDepth == 0 && m.copyDepth >= 0 && Inv(m, Grow(b0, [Chunk(sofar)], env.level))
    ensures WatchedRun(env, m, Grow(b0, [Chunk(sofar)], env.level), Events(x))
            == Finished(m.(hasContent := m.hasContent || HasText(x)), Grow(b0, [Chunk(sofar + Pretty(x))], env.level))
    decreases x, 1
  {
    if x.Text? {
      hide Grow, DT.Text, PromptBoundary;
      LastEvent(env, m, Grow(b0, [Chunk(sofar)], env.level), Characters(x.s));
      OneChunk(b0, sofar, x.s, env.level);
      assert sofar + "" == sofar;
    } else {
      hide *;
      GrammarElement(env, m, x, sofar, b0);
    }
  }

  // Start tags inside a grammar, and end tags of those, are copied.
  lemma InGrammarSteps(env: Environment, m: Modes, b: DT.Build, k: Kind, name: string, attrs: seq<XmlAttr>, outcome: Attributes)
    requires Inv(m, b) && m.inGrammar && m.ignoreDepth == 0 && m.copyDepth >= 0
    ensures var ev := StartElement(k, name, attrs, outcome);
            ClosesItsOwn(m, b, ev) && Step(env, m, b, ev) == CopyStart(m, b, name, attrs)
    ensures var ev := EndElement(k, name);
            m.copyDepth > 0 ==> ClosesItsOwn(m, b, ev) && Step(env, m, b, ev) == CopyClose(m, b, name)
  {
    hide CopyStart, CopyClose, StartMarkup, EndOutside;
  }

  lemma PrettyParts(x: Xml, sofar: string)
    requires x.Elem?
    ensures sofar + OpenTag(x.name, x.attrs) + PrettyAll(x.children) + CloseTag(x.name) == sofar + Pretty(x)
  {
    hide OpenTag, CloseTag, PrettyAll;
  }

  lemma {:induction false} GrammarElement(env: Environment, m: Modes, x: Xml, sofar: string, b0: DT.Build)
    requires b0.Open? && b0.Ok() && x.Elem?
    requires m.inGrammar && m.ignoreDepth == 0 && m.copyDepth >= 0 && Inv(m, Grow(b0, [Chunk(sofar)], env.level))
    ensures WatchedRun(env, m, Grow(b0, [Chunk(sofar)], env.level), Events(x))
            == Finished(m.(hasContent := m.hasContent || HasText(x)), Grow(b0, [Chunk(sofar + Pretty(x))], env.level))
    decreases x, 0
  {
    hide Grow, OpenTag, CloseTag, DT.Text, Step, ClosesItsOwn, Inv, Pretty, PrettyAll;
    var b := Grow(b0, [Chunk(sofar)], env.level);
    var k, n, cs := x.kind, x.name, x.children;
    var es := EventsAll(cs) + [EndElement(k, n)];
    assert Events(x) == [StartElement(k, n, x.attrs, x.outcome)] + es;
    InGrammarSteps(env, m, b, k, n, x.attrs, x.outcome);
    OneEvent(env, m, b, StartElement(k, n, x.attrs, x.outcome), es);
    OneChunk(b0, sofar, OpenTag(n, x.attrs), env.level);
    var m1 := m.(copyDepth := m.copyDepth + 1);
    var t1 := sofar + OpenTag(n, x.attrs);
    GrammarRuns(env, m1, cs, t1, b0);
    WatchedAppend(env, m1, Grow(b0, [Chunk(t1)], env.level), EventsAll(cs), [EndElement(k, n)]);
    var m2 := m1.(hasContent := m.hasContent || HasTextAll(cs));
    var t2 := t1 + PrettyAll(cs);
    InGrammarSteps(env, m2, Grow(b0, [Chunk(t2)], env.level), k, n, x.attrs, x.outcome);
    LastEvent(env, m2, Grow(b0, [Chunk(t2)], env.level), EndElement(k, n));
    OneChunk(b0, t2, CloseTag(n), env.level);
    PrettyParts(x, sofar);
    assert m2.(copyDepth := m2.copyDepth - 1) == m.(hasContent := m.hasContent || HasText(x));
  }

  lemma OneChunk(b0: DT.Build, s: string, t: string, level: DT.DocumentLevel)
    requires b0.Open? && b0.Ok()
    ensures DT.Text(Grow(b0, [Chunk(s)], level), t) == Some(Grow(b0, [Chunk(s + t)], level))
  {
    hide Grow, DT.Text;
    GrowNothing(b0, level);
    GrowChunk(b0, [], s, level);
    GrowChunk(b0, [], s + t, level);
    assert [] + [Chunk(s)] == [Chunk(s)] && [] + [Chunk(s + t)] == [Chunk(s + t)];
    DT.TextTwice(b0, s, t);
  }

  // ----- Elements that get a node of their own -----

  predicate GetsNode(ctx: Context, st: Sofar, k: Kind) {
    && !(ctx.InPrompt? && !EmittedInPrompt(k))
    && !k.Unknown? && !k.Metadata? && !k.Speech?
    && !(k.Prompt? && ctx.InImplicit? && st.flags.foreachImplicit)
  }

  function InnerStart(k: Kind, attributes: seq<DT.Attribute>, f: Flags): Sofar {
    Sofar(if k.Prompt? then [Header(PromptHeader(attributes))] else [], NoPrompt, f)
  }

  function InnerPrompts(k: Kind, prompts: int): int {
    if k.Prompt? then 1 else prompts
  }

  function InnerCopies(k: Kind, copies: int): int {
    if k.Prompt? then 0 else copies
  }

  function InnerModes(inner: Context, k: Kind, st: Sofar, prompts: int, copies: int): Modes {
    ModesOf(inner, st, InnerPrompts(k, prompts), InnerCopies(k, copies)).(inGrammar := k.Grammar?)
  }

  // The builder inside a new element at conversion state st.
  function InnerBase(b0: DT.Build, st: Sofar, k: Kind, attributes: seq<DT.Attribute>, level: DT.DocumentLevel): (r: DT.Build)
    requires b0.Open? && b0.Ok()
    ensures r.Open? && r.Ok() && DT.Top(r.frames).name == Code(k)
    ensures SecondIs(r, DT.Top(FocusBase(b0, st, level).frames).name)
  {
    FocusBuild(b0, st, level);
    Nest(BuildOf(b0, st, level), Code(k), attributes, level)
  }

  lemma InnerFits(env: Environment, ctx: Context, st: Sofar, k: Kind, attributes: seq<DT.Attribute>, b0: DT.Build)
    requires Fits(ctx, st, b0) && GetsNode(ctx, st, k) && Enters(env, ctx, st, k).Enter?
    requires !k.Description? && !k.Substitute?
    ensures var e := Enters(env, ctx, st, k);
            && Fits(ctx, e.st.(flags := e.st.flags.(foreachImplicit := false)), b0)
            && (k.Grammar? || Fits(e.inner, InnerStart(k, attributes, InnerFlags(e.st.flags, k, attributes)),
                                   InnerBase(b0, e.st, k, attributes, env.level)))
  {
    hide SpeakHeader, PromptHeader, HasSource, HoldsPlainText, IsScript, BuildOf, Grow, Nest, InnerBase;
    CodeIsNotPrompt(k);
  }

  // How starting such an element ends or begins an implicit prompt: what section (2) of
  // startElement does, against the entry rules of the conversion.
  ghost predicate EntryAgrees(env: Environment, ctx: Context, st: Sofar, k: Kind, b0: DT.Build, prompts: int, copies: int)
    requires b0.Open? && b0.Ok()
  {
    var m, b := ModesOf(ctx, st, prompts, copies), BuildOf(b0, st, env.level);
    var m1 := ModesAtStart(m, k);
    && Inv(m, b)
    && (m1.explicitPrompt > 0 ==> EmittedInPrompt(k) || k.Prompt?)
    && var ends := StartEndsPrompt(m, k) && m1.copyDepth == 0;
    match Enters(env, ctx, st, k)
    case EntryUnclean => ends && !PromptOnTop(m, b)
    case EntryRefused => !ends && PromptBoundary(env, m1, b, k) == Throw(Refused)
    case Enter(st1, inner) =>
      && (ends ==> PromptOnTop(m, b))
      && var f := Flags(st.flags.pcdataImpliesPrompt && !HoldsPlainText(k), st1.flags.foreachImplicit,
                        st.flags.hasContent, st.flags.contentForbidden);
         PromptBoundary(env, m1, b, k)
         == Next(InnerModes(inner, k, Sofar([], NoPrompt, f), prompts, copies), BuildOf(b0, st1, env.level))
  }

  lemma EntryInPrompt(env: Environment, st: Sofar, k: Kind, b0: DT.Build, prompts: int, copies: int)
    requires Fits(InPrompt, st, b0) && prompts > 0 && GetsNode(InPrompt, st, k)
    ensures EntryAgrees(env, InPrompt, st, k, b0, prompts, copies)
  {
    hide BuildOf, ImplicitStart, ImplicitEnd, Opened, Closed;
    FitsInv(InPrompt, st, b0, prompts, copies, env.level);
  }

  lemma EntryInImplicit(env: Environment, c: nat, st: Sofar, k: Kind, b0: DT.Build, prompts: int, copies: int)
    requires Fits(InImplicit(c), st, b0) && prompts > 0 && GetsNode(InImplicit(c), st, k)
    ensures EntryAgrees(env, InImplicit(c), st, k, b0, prompts, copies)
  {
    hide EntryAgrees, Fits;
    if StartsPrompt(k) {
      EntryStays(env, c, st, k, b0, prompts, copies);
    } else {
      EntryWouldEnd(env, c, st, k, b0, prompts, copies);
    }
  }

  lemma EntryStays(env: Environment, c: nat, st: Sofar, k: Kind, b0: DT.Build, prompts: int, copies: int)
    requires Fits(InImplicit(c), st, b0) && prompts > 0 && StartsPrompt(k)
    ensures EntryAgrees(env, InImplicit(c), st, k, b0, prompts, copies)
  {
    hide BuildOf, ImplicitStart, ImplicitEnd, Opened, Closed, Inv, SpeakHeader, Focus, FocusBase, PromptOnTop;
    FitsInv(InImplicit(c), st, b0, prompts, copies, env.level);
    BuildIgnoresFlags(b0, st, st.flags.(foreachImplicit := true), env.level);
  }

  lemma EntryWouldEnd(env: Environment, c: nat, st: Sofar, k: Kind, b0: DT.Build, prompts: int, copies: int)
    requires Fits(InImplicit(c), st, b0) && prompts > 0 && GetsNode(InImplicit(c), st, k) && !StartsPrompt(k)
    ensures EntryAgrees(env, InImplicit(c), st, k, b0, prompts, copies)
  {
    hide BuildOf, ImplicitStart, ImplicitEnd, Opened, Closed, Inv, SpeakHeader, Focus, FocusBase;
    FitsInv(InImplicit(c), st, b0, prompts, copies, env.level);
    FocusBuild(b0, st, env.level);
  }

  predicate StartsPrompt(k: Kind) {
    k.Audio? || k.Value? || k.Enumerate? || k.Mark? || k.Foreach?
  }

  lemma EntryStartsPrompt(env: Environment, st: Sofar, k: Kind, b0: DT.Build, prompts: int, copies: int)
    requires Fits(Ordinary, st, b0) && prompts > 0 && StartsPrompt(k)
    ensures EntryAgrees(env, Ordinary, st, k, b0, prompts, copies)
  {
    hide EntryAgrees, Fits;
    if k.Foreach? {
      EntryForeach(env, st, b0, prompts, copies);
    } else {
      EntryInline(env, st, k, b0, prompts, copies);
    }
  }

  lemma EntryForeach(env: Environment, st: Sofar, b0: DT.Build, prompts: int, copies: int)
    requires Fits(Ordinary, st, b0) && prompts > 0
    ensures EntryAgrees(env, Ordinary, st, Foreach, b0, prompts, copies)
  {
    hide BuildOf, ImplicitStart, ImplicitEnd, Inv, SpeakHeader, PromptOnTop;
    FitsInv(Ordinary, st, b0, prompts, copies, env.level);
    if st.pending.NoPrompt? { OpenedBuild(env, b0, st); }
    var o := Opened(env, Ordinary, st);
    BuildIgnoresFlags(b0, o, o.flags.(foreachImplicit := true), env.level);
  }

  lemma EntryInline(env: Environment, st: Sofar, k: Kind, b0: DT.Build, prompts: int, copies: int)
    requires Fits(Ordinary, st, b0) && prompts > 0 && StartsPrompt(k) && !k.Foreach?
    ensures EntryAgrees(env, Ordinary, st, k, b0, prompts, copies)
  {
    hide BuildOf, ImplicitStart, ImplicitEnd, Inv, SpeakHeader, PromptOnTop;
    FitsInv(Ordinary, st, b0, prompts, copies, env.level);
    if st.pending.NoPrompt? { OpenedBuild(env, b0, st); }
  }

  lemma EntryEndsPrompt(env: Environment, st: Sofar, k: Kind, b0: DT.Build, prompts: int, copies: int)
    requires Fits(Ordinary, st, b0) && prompts > 0 && GetsNode(Ordinary, st, k) && !StartsPrompt(k)
    ensures EntryAgrees(env, Ordinary, st, k, b0, prompts, copies)
  {
    hide *;
    if st.pending.OpenPrompt? {
      EntryEndsOpenPrompt(env, st, k, b0, prompts, copies);
    } else {
      EntryWithoutPrompt(env, st, k, b0, prompts, copies);
    }
  }

  lemma EntryEndsOpenPrompt(env: Environment, st: Sofar, k: Kind, b0: DT.Build, prompts: int, copies: int)
    requires Fits(Ordinary, st, b0) && prompts > 0 && GetsNode(Ordinary, st, k) && !StartsPrompt(k) && st.pending.OpenPrompt?
    ensures EntryAgrees(env, Ordinary, st, k, b0, prompts, copies)
  {
    hide BuildOf, ImplicitStart, ImplicitEnd, Opened;
    FitsInv(Ordinary, st, b0, prompts, copies, env.level);
    FocusBuild(b0, st, env.level);
    ClosedBuild(b0, st, env.level);
  }

  lemma EntryWithoutPrompt(env: Environment, st: Sofar, k: Kind, b0: DT.Build, prompts: int, copies: int)
    requires Fits(Ordinary, st, b0) && prompts > 0 && GetsNode(Ordinary, st, k) && !StartsPrompt(k) && st.pending.NoPrompt?
    ensures EntryAgrees(env, Ordinary, st, k, b0, prompts, copies)
  {
    hide BuildOf, ImplicitStart, ImplicitEnd, Opened;
    FitsInv(Ordinary, st, b0, prompts, copies, env.level);
  }

  lemma EntryRuns(env: Environment, ctx: Context, st: Sofar, k: Kind, b0: DT.Build, prompts: int, copies: int)
    requires Fits(ctx, st, b0) && prompts > 0 && GetsNode(ctx, st, k)
    ensures EntryAgrees(env, ctx, st, k, b0, prompts, copies)
  {
    hide *;
    match ctx
    case InPrompt => EntryInPrompt(env, st, k, b0, prompts, copies);
    case InImplicit(c) => EntryInImplicit(env, c, st, k, b0, prompts, copies);
    case Ordinary =>
      if StartsPrompt(k) {
        EntryStartsPrompt(env, st, k, b0, prompts, copies);
      } else {
        EntryEndsPrompt(env, st, k, b0, prompts, copies);
      }
  }

  // Sections (3)-(6) of startElement.
  lemma ElementBuilt(env: Environment, m: Modes, b0: DT.Build, st: Sofar, k: Kind, outcome: Attributes, f: Flags)
    requires b0.Open? && b0.Ok()
    ensures BuildElement(env, m, BuildOf(b0, st, env.level), k, outcome)
            == if outcome.Rejected? then Throw(Refused)
               else Next(m.(hasContent := !IsScript(k) && !k.Grammar?,
                            contentForbidden := m.contentForbidden || ((IsScript(k) || k.Grammar?) && HasSource(outcome.attributes))),
                         BuildOf(InnerBase(b0, st, k, outcome.attributes, env.level), InnerStart(k, outcome.attributes, f), env.level))
  {
    hide BuildOf, Grow, PromptHeader, Code, HasSource;
    var b := BuildOf(b0, st, env.level);
    if outcome.Accepted? {
      var a := outcome.attributes;
      var nest := Nest(b, Code(k), [], env.level);
      assert DT.Start(b, Code(k), env.level) == Some(nest);
      NestAttributes(b, Code(k), [], a, env.level);
      assert [] + a == a;
      var base := InnerBase(b0, st, k, a, env.level);
      FreshBuild(base, f, env.level);
      if k.Prompt? {
        GrowNothing(base, env.level);
        GrowHeader(base, [], PromptHeader(a), env.level);
        assert [] + [Header(PromptHeader(a))] == [Header(PromptHeader(a))];
        HeadedBuild(base, PromptHeader(a), f, env.level);
      }
    }
  }

  lemma FreshBuild(b0: DT.Build, f: Flags, level: DT.DocumentLevel)
    requires b0.Open? && b0.Ok()
    ensures BuildOf(b0, Sofar([], NoPrompt, f), level) == b0
  {
    GrowNothing(b0, level);
  }

  lemma HeadedBuild(b0: DT.Build, s: string, f: Flags, level: DT.DocumentLevel)
    requires b0.Open? && b0.Ok()
    ensures BuildOf(b0, Sofar([Header(s)], NoPrompt, f), level) == Grow(b0, [Header(s)], level)
  {
  }

  // In these contexts the event reaches section (2) and then section (3).
  lemma StartDispatch(env: Environment, ctx: Context, st: Sofar, x: Xml, b: DT.Build, prompts: int, copies: int)
    requires x.Elem? && GetsNode(ctx, st, x.kind) && prompts > 0 && (!ctx.InImplicit? ==> !st.flags.foreachImplicit)
    requires var m := ModesOf(ctx, st, prompts, copies);
             Inv(m, b) && (ModesAtStart(m, x.kind).explicitPrompt > 0 ==> EmittedInPrompt(x.kind) || x.kind.Prompt?)
    ensures var m := ModesOf(ctx, st, prompts, copies);
            var k := x.kind;
            var ev := StartElement(k, x.name, x.attrs, x.outcome);
            && (ClosesItsOwn(m, b, ev) <==> (StartEndsPrompt(m, k) && ModesAtStart(m, k).copyDepth == 0 ==> PromptOnTop(m, b)))
            && Step(env, m, b, ev)
               == (var r := PromptBoundary(env, ModesAtStart(m, k), b, k);
                   if r.Throw? then r
                   else if k.Description? || k.Substitute? then Throw(Refused)
                   else BuildElement(env, r.m, r.b, k, x.outcome))
  {
    hide PromptBoundary, BuildElement, StartEndsPrompt, PromptOnTop, CopyStart;
  }

  // The start event of such an element.
  lemma StartRuns(env: Environment, ctx: Context, st: Sofar, x: Xml, b0: DT.Build, prompts: int, copies: int)
    requires Fits(ctx, st, b0) && prompts > 0 && x.Elem? && GetsNode(ctx, st, x.kind)
    ensures Inv(ModesOf(ctx, st, prompts, copies), BuildOf(b0, st, env.level))
    ensures var m, b := ModesOf(ctx, st, prompts, copies), BuildOf(b0, st, env.level);
            var ev := StartElement(x.kind, x.name, x.attrs, x.outcome);
            && match Enters(env, ctx, st, x.kind)
               case EntryUnclean => !ClosesItsOwn(m, b, ev)
               case EntryRefused => ClosesItsOwn(m, b, ev) && Step(env, m, b, ev) == Throw(Refused)
               case Enter(st1, inner) =>
                 && ClosesItsOwn(m, b, ev)
                 && if x.kind.Description? || x.kind.Substitute? || x.outcome.Rejected?
                    then Step(env, m, b, ev) == Throw(Refused)
                    else
                      var f := InnerFlags(st1.flags, x.kind, x.outcome.attributes);
                      var start := InnerStart(x.kind, x.outcome.attributes, f);
                      Step(env, m, b, ev)
                      == Next(InnerModes(inner, x.kind, start, prompts, copies),
                              BuildOf(InnerBase(b0, st1, x.kind, x.outcome.attributes, env.level), start, env.level))
  {
    hide BuildOf, PromptBoundary, BuildElement, Enters, StartEndsPrompt, Inv, InnerBase, HasSource, Code,
         Step, ClosesItsOwn, PromptOnTop, ModesAtStart, InnerModes, ModesOf, HoldsPlainText, IsScript, PromptHeader, FocusBase;
    FitsInv(ctx, st, b0, prompts, copies, env.level);
    EntryRuns(env, ctx, st, x.kind, b0, prompts, copies);
    StartDispatch(env, ctx, st, x, BuildOf(b0, st, env.level), prompts, copies);
    match Enters(env, ctx, st, x.kind)
    case EntryUnclean =>
    case EntryRefused =>
    case Enter(st1, inner) =>
      EnterFlags(env, ctx, st, x.kind);
      var f := if x.outcome.Accepted? then InnerFlags(st1.flags, x.kind, x.outcome.attributes) else st1.flags;
      var r := PromptBoundary(env, ModesAtStart(ModesOf(ctx, st, prompts, copies), x.kind), BuildOf(b0, st, env.level), x.kind);
      ElementBuilt(env, r.m, b0, st1, x.kind, x.outcome, f);
      if x.outcome.Accepted? {
        InnerModesUpdate(inner, x.kind,
                         Flags(st.flags.pcdataImpliesPrompt && !HoldsPlainText(x.kind), st1.flags.foreachImplicit,
                               st.flags.hasContent, st.flags.contentForbidden),
                         InnerStart(x.kind, x.outcome.attributes, f), prompts, copies);
      }
  }

  lemma InnerModesUpdate(inner: Context, k: Kind, f: Flags, start: Sofar, prompts: int, copies: int)
    requires start.pending.NoPrompt?
    requires start.flags == f.(hasContent := start.flags.hasContent, contentForbidden := start.flags.contentForbidden)
    ensures InnerModes(inner, k, Sofar([], NoPrompt, f), prompts, copies)
              .(hasContent := start.flags.hasContent, contentForbidden := start.flags.contentForbidden)
            == InnerModes(inner, k, start, prompts, copies)
    ensures InnerModes(inner, k, Sofar([], NoPrompt, f), prompts, copies).contentForbidden == f.contentForbidden
  {
    hide InnerPrompts, InnerCopies, ModesOf;
    ModesOfUpdate(inner, f, start, InnerPrompts(k, prompts), InnerCopies(k, copies));
  }

  lemma ModesOfUpdate(ctx: Context, f: Flags, st: Sofar, prompts: int, copies: int)
    requires st.pending.NoPrompt?
    requires st.flags == f.(hasContent := st.flags.hasContent, contentForbidden := st.flags.contentForbidden)
    ensures var m := ModesOf(ctx, Sofar([], NoPrompt, f), prompts, copies);
            && m.(hasContent := st.flags.hasContent, contentForbidden := st.flags.contentForbidden) == ModesOf(ctx, st, prompts, copies)
            && m.contentForbidden == f.contentForbidden
  {
  }

  lemma EnterFlags(env: Environment, ctx: Context, st: Sofar, k: Kind)
    requires Enters(env, ctx, st, k).Enter?
    ensures var f := Enters(env, ctx, st, k).st.flags;
            f == st.flags.(foreachImplicit := f.foreachImplicit)
  {
  }

  // Sections (3) and (4) of endElement.
  lemma CompleteRuns(m: Modes, b0: DT.Build, st: Sofar, k: Kind, attributes: seq<DT.Attribute>, pieces: seq<Piece>,
                     level: DT.DocumentLevel)
    requires b0.Open? && b0.Ok()
    ensures CompleteElement(m, Grow(InnerBase(b0, st, k, attributes, level), pieces, level), k)
            == if (IsScript(k) || k.Grammar?) && m.contentForbidden == m.hasContent then Throw(Refused)
               else Next(m.(pcdataImpliesPrompt := m.pcdataImpliesPrompt || HoldsPlainText(k),
                            contentForbidden := m.contentForbidden && !IsScript(k) && !k.Grammar?),
                         BuildOf(b0, Put(st, Built(Code(k), attributes, k.Choice? || k.Option?, pieces)), level))
  {
    hide BuildOf, Grow, Code, Nest, DT.End, DT.PruneTop;
    PutBuilt(b0, st, Code(k), attributes, k.Choice? || k.Option?, pieces, level);
    InnerBaseIs(b0, st, k, attributes, level);
  }

  lemma InnerBaseIs(b0: DT.Build, st: Sofar, k: Kind, attributes: seq<DT.Attribute>, level: DT.DocumentLevel)
    requires b0.Open? && b0.Ok()
    ensures InnerBase(b0, st, k, attributes, level) == Nest(BuildOf(b0, st, level), Code(k), attributes, level)
  {
  }

  lemma CodeIsNotPrompt(k: Kind)
    ensures Code(k) == NODE_PROMPT <==> k.Prompt?
  {
  }

  lemma SettledBuild(b0: DT.Build, st: Sofar, level: DT.DocumentLevel)
    requires b0.Open? && b0.Ok() && st.pending.NoPrompt?
    ensures BuildOf(b0, st, level) == Grow(b0, st.done, level)
  {
  }

  // What an end event does, against the leaving rules of the conversion.
  ghost predicate LeaveAgrees(env: Environment, ctx: Context, inner: Context, st: Sofar, x: Xml, r: Sofar,
                              attributes: seq<DT.Attribute>, b0: DT.Build, prompts: int, copies: int)
    requires b0.Open? && b0.Ok() && x.Elem?
  {
    var bI := InnerBase(b0, st, x.kind, attributes, env.level);
    var m, b := InnerModes(inner, x.kind, r, prompts, copies), BuildOf(bI, r, env.level);
    var ev := EndElement(x.kind, x.name);
    && Inv(m, b)
    && match Leaves(ctx, inner, st, x.kind, attributes, r)
       case Unclean => !ClosesItsOwn(m, b, ev)
       case Refusal => ClosesItsOwn(m, b, ev) && Step(env, m, b, ev) == Throw(Refused)
       case Converted(st1) =>
         && ClosesItsOwn(m, b, ev) && Fits(ctx, st1, b0)
         && Step(env, m, b, ev) == Next(ModesOf(ctx, st1, prompts, copies), BuildOf(b0, st1, env.level))
  }

  // Where the children stood and what they left, by the element's context.
  ghost predicate CanLeave(ctx: Context, inner: Context, st: Sofar, k: Kind, r: Sofar) {
    && (!ctx.Ordinary? ==> inner == ctx && st.pending.NoPrompt?)
    && (ctx.InPrompt? ==> EmittedInPrompt(k))
    && (ctx.InImplicit? ==> StartsPrompt(k) || k.Executable?)
    && (ctx.Ordinary? && StartsPrompt(k) ==>
          inner == (if st.pending.OpenPrompt? then InImplicit(0) else Ordinary) && (k.Foreach? ==> st.pending.OpenPrompt?)
          && (r.flags.foreachImplicit ==> k.Foreach?))
    && (ctx.Ordinary? && !StartsPrompt(k) ==> inner == (if k.Prompt? then InPrompt else Ordinary))
    && (ctx.Ordinary? && !StartsPrompt(k) ==> st.pending.NoPrompt?)
    && (k.Grammar? ==> r.pending.NoPrompt?)
    && !k.Speech? && !k.Unknown? && !k.Metadata? && !k.Description? && !k.Substitute?
  }

  lemma LeaveInPrompt(env: Environment, st: Sofar, x: Xml, r: Sofar, attributes: seq<DT.Attribute>, b0: DT.Build,
                      prompts: int, copies: int)
    requires x.Elem? && prompts > 0 && CanLeave(InPrompt, InPrompt, st, x.kind, r) && b0.Open? && b0.Ok()
    requires Fits(InPrompt, r, InnerBase(b0, st, x.kind, attributes, env.level))
    ensures LeaveAgrees(env, InPrompt, InPrompt, st, x, r, attributes, b0, prompts, copies)
  {
    hide BuildOf, Grow, InnerBase, Code, CompleteElement, ImplicitEnd;
    var bI := InnerBase(b0, st, x.kind, attributes, env.level);
    FitsInv(InPrompt, r, bI, prompts, copies, env.level);
    SettledBuild(bI, r, env.level);
    FocusBuild(bI, r, env.level);
    CompleteRuns(InnerModes(InPrompt, x.kind, r, prompts, copies), b0, st, x.kind, attributes, r.done, env.level);
    var st1 := Put(st, Built(Code(x.kind), attributes, x.kind.Choice? || x.kind.Option?, r.done));
    if Leaves(InPrompt, InPrompt, st, x.kind, attributes, r).Converted? {
      BuildIgnoresFlags(b0, st1, Leaves(InPrompt, InPrompt, st, x.kind, attributes, r).st.flags, env.level);
    }
  }

  // What ending such an element means while an implicit prompt is open.
  lemma EndInImplicit(env: Environment, m: Modes, b: DT.Build, k: Kind, name: string)
    requires Inv(m, b) && m.ignoreDepth == 0 && !m.inGrammar && m.implicitPrompt && (StartsPrompt(k) || k.Executable?)
    ensures EndEndsPrompt(m, k) <==> (k.Mark? || k.Executable?) && !m.foreachImplicit
    ensures EndEndsPrompt(m, k) && !PromptOnTop(m, b) ==> !ClosesItsOwn(m, b, EndElement(k, name))
    ensures !EndEndsPrompt(m, k) ==>
              && (ClosesItsOwn(m, b, EndElement(k, name)) <==> TopIs(b, Code(k)))
              && Step(env, m, b, EndElement(k, name))
                 == CompleteElement(if k.Foreach? then m.(foreachImplicit := false) else m, b, k)
  {
    hide Code, CompleteElement, CopyClose, ImplicitEnd;
  }

  lemma LeaveInImplicit(env: Environment, ctx: Context, c: nat, st: Sofar, x: Xml, r: Sofar, attributes: seq<DT.Attribute>,
                        b0: DT.Build, prompts: int, copies: int)
    requires x.Elem? && prompts > 0 && CanLeave(ctx, InImplicit(c), st, x.kind, r) && b0.Open? && b0.Ok()
    requires Fits(InImplicit(c), r, InnerBase(b0, st, x.kind, attributes, env.level))
    requires ctx.InImplicit? && c == 0 ==> DT.Top(b0.frames).name != NODE_PROMPT
    ensures LeaveAgrees(env, ctx, InImplicit(c), st, x, r, attributes, b0, prompts, copies)
  {
    hide BuildOf, Grow, InnerBase, Code, CompleteElement, Inv, Focus, FocusBase, Step, ClosesItsOwn, EndEndsPrompt;
    var bI := InnerBase(b0, st, x.kind, attributes, env.level);
    var m := InnerModes(InImplicit(c), x.kind, r, prompts, copies);
    FitsInv(InImplicit(c), r, bI, prompts, copies, env.level);
    SettledBuild(bI, r, env.level);
    FocusBuild(bI, r, env.level);
    CodeIsNotPrompt(x.kind);
    EndInImplicit(env, m, BuildOf(bI, r, env.level), x.kind, x.name);
    CompleteRuns(if x.kind.Foreach? then m.(foreachImplicit := false) else m, b0, st, x.kind, attributes, r.done, env.level);
    var st1 := Put(st, Built(Code(x.kind), attributes, x.kind.Choice? || x.kind.Option?, r.done));
    if Leaves(ctx, InImplicit(c), st, x.kind, attributes, r).Converted? {
      BuildIgnoresFlags(b0, st1, Leaves(ctx, InImplicit(c), st, x.kind, attributes, r).st.flags, env.level);
    }
  }

  lemma LeavePrompt(env: Environment, st: Sofar, x: Xml, r: Sofar, attributes: seq<DT.Attribute>, b0: DT.Build,
                    prompts: int, copies: int)
    requires x.Elem? && prompts > 0 && CanLeave(Ordinary, InPrompt, st, x.kind, r) && b0.Open? && b0.Ok() && x.kind.Prompt?
    requires Fits(InPrompt, r, InnerBase(b0, st, x.kind, attributes, env.level))
    ensures LeaveAgrees(env, Ordinary, InPrompt, st, x, r, attributes, b0, prompts, copies)
  {
    hide BuildOf, Grow, InnerBase, Code, CompleteElement, ImplicitEnd, DT.Text;
    var bI := InnerBase(b0, st, x.kind, attributes, env.level);
    var m := InnerModes(InPrompt, x.kind, r, prompts, copies);
    FitsInv(InPrompt, r, bI, 1, 0, env.level);
    PutChunk(bI, r, SPEAK_CLOSE, env.level);
    SettledBuild(bI, Put(r, Chunk(SPEAK_CLOSE)), env.level);
    FocusBuild(bI, r, env.level);
    CodeIsNotPrompt(x.kind);
    CompleteRuns(m.(explicitPrompt := 0), b0, st, x.kind, attributes, r.done + [Chunk(SPEAK_CLOSE)], env.level);
    var st1 := Put(st, Built(Code(x.kind), attributes, x.kind.Choice? || x.kind.Option?, r.done + [Chunk(SPEAK_CLOSE)]));
    BuildIgnoresFlags(b0, st1, Leaves(Ordinary, InPrompt, st, x.kind, attributes, r).st.flags, env.level);
  }

  lemma LeaveOrdinary(env: Environment, st: Sofar, x: Xml, r: Sofar, attributes: seq<DT.Attribute>, b0: DT.Build,
                      prompts: int, copies: int)
    requires x.Elem? && prompts > 0 && CanLeave(Ordinary, Ordinary, st, x.kind, r) && b0.Open? && b0.Ok()
    requires Fits(Ordinary, r, InnerBase(b0, st, x.kind, attributes, env.level))
    ensures LeaveAgrees(env, Ordinary, Ordinary, st, x, r, attributes, b0, prompts, copies)
  {
    hide BuildOf, Grow, InnerBase, Code, CompleteElement, ImplicitEnd;
    var bI := InnerBase(b0, st, x.kind, attributes, env.level);
    var m := InnerModes(Ordinary, x.kind, r, prompts, copies);
    FitsInv(Ordinary, r, bI, prompts, copies, env.level);
    SettledBuild(bI, Closed(r), env.level);
    FocusBuild(bI, r, env.level);
    CodeIsNotPrompt(x.kind);
    if r.pending.OpenPrompt? { ClosedBuild(bI, r, env.level); }
    CompleteRuns(m.(implicitPrompt := false, inGrammar := false), b0, st, x.kind, attributes, Closed(r).done, env.level);
    var st1 := Put(st, Built(Code(x.kind), attributes, x.kind.Choice? || x.kind.Option?, Closed(r).done));
    if Leaves(Ordinary, Ordinary, st, x.kind, attributes, r).Converted? {
      BuildIgnoresFlags(b0, st1, Leaves(Ordinary, Ordinary, st, x.kind, attributes, r).st.flags, env.level);
    }
  }
}
