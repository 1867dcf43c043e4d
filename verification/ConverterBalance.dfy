/** Depth at every moment of a parse: the builder has one element open for each element of the
    document that got one and has not ended, and one more while an implicit prompt is open. */
module ConverterBalance {
  import opened Wrappers
  import opened Markup
  import opened ConverterSteps
  import opened ConverterReference
  import opened ConverterCorrectness
  import opened ConverterTheorem
  import opened ConverterDocuments
  import DT = DocumentTree

  // ----- Open elements of the document -----

  /** Whether an element that starts in these modes gets a builder element of its own. */
  predicate Emits(m: Modes, k: Kind) {
    && m.ignoreDepth == 0 && !m.inGrammar
    && (m.explicitPrompt > 0 ==> EmittedInPrompt(k))
    && !k.Metadata? && !k.Speech? && !(k.Prompt? && m.foreachImplicit)
  }

  /** One entry for each start tag that has no end tag yet: whether its element was emitted. */
  function Tags(m: Modes, open: seq<bool>, e: Event): seq<bool> {
    match e
    case StartElement(k, _, _, _) => open + [Emits(m, k)]
    case EndElement(_, _) => if open == [] then [] else open[..|open| - 1]
    case Characters(_) => open
  }

  function OpenTags(env: Environment, m: Modes, b: DT.Build, open: seq<bool>, es: seq<Event>): seq<bool>
    requires Inv(m, b)
    decreases es
  {
    if es == [] then open
    else
      match Step(env, m, b, es[0])
      case Throw(_) => open
      case Next(m1, b1) => OpenTags(env, m1, b1, Tags(m, open, es[0]), es[1..])
  }

  function Emitted(open: seq<bool>): nat {
    if open == [] then 0 else Emitted(open[..|open| - 1]) + if open[|open| - 1] then 1 else 0
  }

  /** The builder's depth without the implicit prompt. */
  function OwnDepth(m: Modes, b: DT.Build): int {
    DT.Depth(b) - if m.implicitPrompt then 1 else 0
  }

  /** From here to there the depth has changed by what was emitted and is still open. */
  predicate Level(m: Modes, b: DT.Build, open: seq<bool>, r: Outcome, o: seq<bool>) {
    r.Finished? ==> OwnDepth(r.m, r.b) - Emitted(o) == OwnDepth(m, b) - Emitted(open)
  }

  lemma OneMore(open: seq<bool>, f: bool)
    ensures Emitted(open + [f]) == Emitted(open) + if f then 1 else 0
  {
    assert (open + [f])[..|open|] == open;
  }

  // ----- Parts of runs -----

  lemma {:induction false} TagsAppend(env: Environment, m: Modes, b: DT.Build, open: seq<bool>, es: seq<Event>, fs: seq<Event>)
    requires Inv(m, b) && WatchedRun(env, m, b, es).Finished?
    ensures var r := WatchedRun(env, m, b, es);
            Inv(r.m, r.b) && OpenTags(env, m, b, open, es + fs) == OpenTags(env, r.m, r.b, OpenTags(env, m, b, open, es), fs)
    decreases es
  {
    hide Step, ClosesItsOwn, Tags, Inv;
    if es == [] {
      assert es + fs == fs;
    } else {
      assert (es + fs)[1..] == es[1..] + fs && (es + fs)[0] == es[0];
      StepInv(env, m, b, es[0]);
      var s := Step(env, m, b, es[0]);
      TagsAppend(env, s.m, s.b, Tags(m, open, es[0]), es[1..], fs);
    }
  }

  // The first events settle the level up to them; the others start from there.
  lemma LevelThen(env: Environment, m: Modes, b: DT.Build, open: seq<bool>, es: seq<Event>, fs: seq<Event>)
    requires Inv(m, b) && WatchedRun(env, m, b, es).Finished?
    requires var r := WatchedRun(env, m, b, es);
             var o := OpenTags(env, m, b, open, es);
             && Level(m, b, open, r, o) && Inv(r.m, r.b)
             && Level(r.m, r.b, o, WatchedRun(env, r.m, r.b, fs), OpenTags(env, r.m, r.b, o, fs))
    ensures Level(m, b, open, WatchedRun(env, m, b, es + fs), OpenTags(env, m, b, open, es + fs))
  {
    hide WatchedRun, OpenTags, Inv, OwnDepth;
    WatchedAppend(env, m, b, es, fs);
    TagsAppend(env, m, b, open, es, fs);
  }

  lemma NoTags(env: Environment, m: Modes, b: DT.Build, open: seq<bool>)
    requires Inv(m, b)
    ensures WatchedRun(env, m, b, []) == Finished(m, b) && OpenTags(env, m, b, open, []) == open
  {
  }

  lemma OneTag(env: Environment, m: Modes, b: DT.Build, open: seq<bool>, e: Event)
    requires Inv(m, b) && Step(env, m, b, e).Next?
    ensures OpenTags(env, m, b, open, [e]) == Tags(m, open, e)
  {
    hide Step, Tags;
    StepInv(env, m, b, e);
    assert [e][1..] == [];
  }

  /** A start event keeps the level, whatever it does to the implicit prompt. */
  lemma StartLevel(env: Environment, m: Modes, b: DT.Build, k: Kind, name: string, attrs: seq<XmlAttr>, outcome: Attributes)
    requires Inv(m, b)
    ensures var s := Start(env, m, b, k, name, attrs, outcome);
            s.Next? ==> OwnDepth(s.m, s.b) == OwnDepth(m, b) + if Emits(m, k) then 1 else 0
  {
    hide CopyStart, StartMarkup, OwnDepth, Inv, EmittedInPrompt;
    if m.ignoreDepth > 0 {
      CountLevel(m, b);
    } else if m.inGrammar || (m.explicitPrompt > 0 && !EmittedInPrompt(k)) {
      OpenByThen(m, b);
      CountLevel(m, b);
      CopyLevel(m, b, name, attrs);
    } else {
      assert m.ignoreDepth == 0 by { NoNegativeDepth(m, b); }
      MarkupLevel(env, m, b, k, name, attrs, outcome);
    }
  }

  lemma NoNegativeDepth(m: Modes, b: DT.Build)
    requires Inv(m, b)
    ensures m.ignoreDepth >= 0
  {
  }

  lemma CountLevel(m: Modes, b: DT.Build)
    ensures OwnDepth(m.(ignoreDepth := m.ignoreDepth + 1), b) == OwnDepth(m, b)
    ensures OwnDepth(m.(ignoreDepth := 1), b) == OwnDepth(m, b)
    ensures OwnDepth(m.(explicitPrompt := m.explicitPrompt + 1), b) == OwnDepth(m, b)
  {
  }

  lemma OpenByThen(m: Modes, b: DT.Build)
    requires Inv(m, b) && (m.inGrammar || m.explicitPrompt > 0)
    ensures b.Ok() && !b.Empty? && !b.Lone?
  {
  }

  lemma MarkupLevel(env: Environment, m: Modes, b: DT.Build, k: Kind, name: string, attrs: seq<XmlAttr>, outcome: Attributes)
    requires Inv(m, b) && (m.explicitPrompt > 0 ==> EmittedInPrompt(k))
    ensures var s := StartMarkup(env, m, b, k, name, attrs, outcome);
            s.Next? ==> OwnDepth(s.m, s.b) == OwnDepth(m, b) + if k.Metadata? || k.Speech? || (k.Prompt? && m.foreachImplicit) then 0 else 1
  {
    hide CopyStart, PromptBoundary, BuildElement, OwnDepth;
    CountLevel(m, b);
    if !k.Unknown? && !k.Metadata? && !(k.Prompt? && m.foreachImplicit) {
      var m0 := ModesAtStart(m, k);
      BoundaryLevel(env, m0, b, k);
      var r := PromptBoundary(env, m0, b, k);
      ModesAtStartLevel(m, b, k);
      if r.Next? {
        if k.Speech? { CopyLevel(r.m, r.b, name, attrs); } else { BuildLevel(env, r.m, r.b, k, outcome); }
      }
    }
  }

  lemma ModesAtStartLevel(m: Modes, b: DT.Build, k: Kind)
    ensures OwnDepth(ModesAtStart(m, k), b) == OwnDepth(m, b)
  {
  }

  lemma CopyLevel(m: Modes, b: DT.Build, name: string, attrs: seq<XmlAttr>)
    requires b.Ok() && !b.Empty? && !b.Lone?
    ensures var s := CopyStart(m, b, name, attrs); s.Next? ==> OwnDepth(s.m, s.b) == OwnDepth(m, b)
  {
    hide OpenTag;
  }

  lemma BoundaryLevel(env: Environment, m: Modes, b: DT.Build, k: Kind)
    requires b.Ok() && !b.Lone? && (m.implicitPrompt ==> !b.Empty?)
    requires m.explicitPrompt > 0 ==> EmittedInPrompt(k) || k.Prompt?
    ensures var s := PromptBoundary(env, m, b, k); s.Next? ==> OwnDepth(s.m, s.b) == OwnDepth(m, b)
  {
    hide ImplicitStart, ImplicitEnd;
    ImplicitLevel(env, b);
  }

  lemma ImplicitLevel(env: Environment, b: DT.Build)
    requires b.Ok() && !b.Lone?
    ensures ImplicitStart(env, b).Some? ==> DT.Depth(ImplicitStart(env, b).value) == DT.Depth(b) + 1
    ensures !b.Empty? && ImplicitEnd(b).Some? ==> DT.Depth(ImplicitEnd(b).value) == DT.Depth(b) - 1
  {
    hide SpeakHeader, SPEAK_CLOSE;
  }

  lemma BuildLevel(env: Environment, m: Modes, b: DT.Build, k: Kind, outcome: Attributes)
    requires b.Ok() && !b.Lone?
    ensures var s := BuildElement(env, m, b, k, outcome); s.Next? ==> OwnDepth(s.m, s.b) == OwnDepth(m, b) + 1
  {
    hide PromptHeader, Code, HasSource, AddAttributes;
    var b1 := DT.Start(b, Code(k), env.level);
    if b1.Some? && outcome.Accepted? { AttributesLevel(b1.value, outcome.attributes); }
  }

  lemma {:induction false} AttributesLevel(b: DT.Build, attributes: seq<DT.Attribute>)
    requires b.Ok()
    ensures AddAttributes(b, attributes).Some? ==> DT.Depth(AddAttributes(b, attributes).value) == DT.Depth(b)
    decreases attributes
  {
    if attributes != [] {
      var b1 := DT.AddAttr(b, attributes[0]);
      if b1.Some? { AttributesLevel(b1.value, attributes[1..]); }
    }
  }

  // ----- Prefixes -----

  /** After p of these events the depth has changed by what is emitted and still open; after all of
      them the same start tags are open as before. */
  predicate Tracked(env: Environment, m: Modes, b: DT.Build, open: seq<bool>, es: seq<Event>, p: nat)
    requires Inv(m, b) && p <= |es|
  {
    var r := WatchedRun(env, m, b, es[..p]);
    var o := OpenTags(env, m, b, open, es[..p]);
    Level(m, b, open, r, o) && (p == |es| && r.Finished? ==> o == open)
  }

  lemma SplitTracked(env: Environment, m: Modes, b: DT.Build, open: seq<bool>, xs: seq<Event>, ys: seq<Event>, p: nat)
    requires Inv(m, b) && p <= |xs + ys|
    requires Tracked(env, m, b, open, xs, if p <= |xs| then p else |xs|)
    requires var r := WatchedRun(env, m, b, xs);
             p > |xs| && r.Finished? ==> Inv(r.m, r.b) && Tracked(env, r.m, r.b, open, ys, p - |xs|)
    ensures Tracked(env, m, b, open, xs + ys, p)
  {
    hide WatchedRun, OpenTags, Inv, Level;
    if p <= |xs| {
      assert (xs + ys)[..p] == xs[..p];
    } else {
      var zs := ys[..p - |xs|];
      assert (xs + ys)[..p] == xs + zs && xs[..|xs|] == xs;
      WatchedAppend(env, m, b, xs, zs);
      if WatchedRun(env, m, b, xs).Finished? {
        TagsAppend(env, m, b, open, xs, zs);
        LevelThen(env, m, b, open, xs, zs);
      } else {
        NotFinished(m, b, open, WatchedRun(env, m, b, xs + zs), OpenTags(env, m, b, open, xs + zs));
      }
    }
  }

  lemma NotFinished(m: Modes, b: DT.Build, open: seq<bool>, r: Outcome, o: seq<bool>)
    requires !r.Finished?
    ensures Level(m, b, open, r, o)
  {
  }

  /** An element: its start event, the events of its body, its end event. */
  lemma WrapTracked(env: Environment, m: Modes, b: DT.Build, open: seq<bool>, start: Event, body: seq<Event>, end: Event, p: nat)
    requires Inv(m, b) && start.StartElement? && end.EndElement? && p <= |[start] + body + [end]|
    requires var s := Step(env, m, b, start);
             p > 0 && ClosesItsOwn(m, b, start) && s.Next? ==>
               Inv(s.m, s.b) && Tracked(env, s.m, s.b, open + [Emits(m, start.kind)], body, if p - 1 <= |body| then p - 1 else |body|)
    requires var r := WatchedRun(env, m, b, [start] + body + [end]);
             r.Finished? ==> OwnDepth(r.m, r.b) == OwnDepth(m, b)
    ensures Tracked(env, m, b, open, [start] + body + [end], p)
  {
    hide WatchedRun, OpenTags, Inv, Step, ClosesItsOwn, OwnDepth, Emits;
    var es := [start] + body + [end];
    NoTags(env, m, b, open);
    if p == 0 {
      assert es[..0] == [];
    } else if p <= 1 + |body| {
      assert es[..p] == [start] + body[..p - 1];
      StartThen(env, m, b, open, start, body[..p - 1]);
    } else {
      assert es[..p] == es && body[..|body|] == body;
      EndsWhereItBegan(env, m, b, open, start, body, end);
    }
  }

  lemma StartThen(env: Environment, m: Modes, b: DT.Build, open: seq<bool>, start: Event, es: seq<Event>)
    requires Inv(m, b) && start.StartElement?
    requires var s := Step(env, m, b, start);
             var now := open + [Emits(m, start.kind)];
             ClosesItsOwn(m, b, start) && s.Next? ==>
               Inv(s.m, s.b) && Level(s.m, s.b, now, WatchedRun(env, s.m, s.b, es), OpenTags(env, s.m, s.b, now, es))
    ensures Level(m, b, open, WatchedRun(env, m, b, [start] + es), OpenTags(env, m, b, open, [start] + es))
  {
    hide WatchedRun, OpenTags, Inv, ClosesItsOwn, OwnDepth, Emits, Start;
    OneEvent(env, m, b, start, es);
    var s := Step(env, m, b, start);
    if ClosesItsOwn(m, b, start) && s.Next? {
      FirstTag(env, m, b, open, start, es);
      StartLevel(env, m, b, start.kind, start.name, start.attrs, start.outcome);
      OneMore(open, Emits(m, start.kind));
    }
  }

  lemma FirstTag(env: Environment, m: Modes, b: DT.Build, open: seq<bool>, e: Event, es: seq<Event>)
    requires Inv(m, b) && Step(env, m, b, e).Next?
    ensures var s := Step(env, m, b, e);
            Inv(s.m, s.b) && OpenTags(env, m, b, open, [e] + es) == OpenTags(env, s.m, s.b, Tags(m, open, e), es)
  {
    hide Step, Tags;
    StepInv(env, m, b, e);
    assert ([e] + es)[1..] == es;
  }

  lemma EndsWhereItBegan(env: Environment, m: Modes, b: DT.Build, open: seq<bool>, start: Event, body: seq<Event>, end: Event)
    requires Inv(m, b) && start.StartElement? && end.EndElement?
    requires var s := Step(env, m, b, start);
             var now := open + [Emits(m, start.kind)];
             ClosesItsOwn(m, b, start) && s.Next? ==>
               Inv(s.m, s.b) && (WatchedRun(env, s.m, s.b, body).Finished? ==> OpenTags(env, s.m, s.b, now, body) == now)
    requires var r := WatchedRun(env, m, b, [start] + body + [end]);
             r.Finished? ==> OwnDepth(r.m, r.b) == OwnDepth(m, b)
    ensures var es := [start] + body + [end];
            var r := WatchedRun(env, m, b, es);
            Level(m, b, open, r, OpenTags(env, m, b, open, es)) && (r.Finished? ==> OpenTags(env, m, b, open, es) == open)
  {
    hide WatchedRun, OpenTags, Inv, Step, ClosesItsOwn, OwnDepth, Emits;
    Bracketed(env, m, b, start, body, end);
    assert [start] + body + [end] == [start] + (body + [end]);
    var s := Step(env, m, b, start);
    if ClosesItsOwn(m, b, start) && s.Next? {
      FirstTag(env, m, b, open, start, body + [end]);
      var now := open + [Emits(m, start.kind)];
      var r1 := WatchedRun(env, s.m, s.b, body);
      if r1.Finished? && ClosesItsOwn(r1.m, r1.b, end) && Step(env, r1.m, r1.b, end).Next? {
        TagsAppend(env, s.m, s.b, now, body, [end]);
        OneTag(env, r1.m, r1.b, now, end);
        assert now[..|now| - 1] == open;
      }
    }
  }

  // ----- Where nothing is emitted -----

  /** Inside metadata, and inside a grammar. */
  predicate Absorbs(m: Modes) {
    m.ignoreDepth > 0 || (m.inGrammar && m.copyDepth >= 0)
  }

  lemma AbsorbedRuns(env: Environment, m: Modes, b: DT.Build, xs: seq<Xml>)
    requires Inv(m, b) && b.Open? && Absorbs(m)
    ensures var r := WatchedRun(env, m, b, EventsAll(xs));
            r.Finished? && Absorbs(r.m) && r.b.Open? && OwnDepth(r.m, r.b) == OwnDepth(m, b)
  {
    hide WatchedRun, Grow, PrettyAll, HasTextAll;
    if m.ignoreDepth > 0 {
      IgnoredRuns(env, m, b, xs);
    } else {
      EmptyChunk(b, env.level);
      GrammarRuns(env, m, xs, "", b);
    }
  }

  lemma AbsorbedRun(env: Environment, m: Modes, b: DT.Build, x: Xml)
    requires Inv(m, b) && b.Open? && Absorbs(m)
    ensures var r := WatchedRun(env, m, b, Events(x));
            r.Finished? && Absorbs(r.m) && r.b.Open? && OwnDepth(r.m, r.b) == OwnDepth(m, b)
  {
    hide WatchedRun, Events;
    assert [x][1..] == [];
    assert EventsAll([x]) == Events(x) + EventsAll([x][1..]) == Events(x);
    AbsorbedRuns(env, m, b, [x]);
  }

  lemma AbsorbedStart(env: Environment, m: Modes, b: DT.Build, k: Kind, name: string, attrs: seq<XmlAttr>, outcome: Attributes)
    requires Inv(m, b) && b.Open? && Absorbs(m)
    ensures var s := Start(env, m, b, k, name, attrs, outcome);
            s.Next? ==> Inv(s.m, s.b) && s.b.Open? && Absorbs(s.m)
  {
    hide OpenTag, StartMarkup;
  }

  lemma {:induction false} AbsorbedTracked(env: Environment, m: Modes, b: DT.Build, open: seq<bool>, x: Xml, p: nat)
    requires Inv(m, b) && b.Open? && Absorbs(m) && p <= |Events(x)|
    ensures Tracked(env, m, b, open, Events(x), p)
    decreases x, 1
  {
    hide WatchedRun, OpenTags, Inv, Absorbs, ClosesItsOwn, Start, End, Chars, OwnDepth, Tracked;
    AbsorbedRun(env, m, b, x);
    match x
    case Text(s) => TextTracked(env, m, b, open, s, p);
    case Elem(k, n, a, o, cs) =>
      AbsorbedStart(env, m, b, k, n, a, o);
      var s := Start(env, m, b, k, n, a, o);
      if p > 0 && s.Next? {
        AbsorbedTrackedAll(env, s.m, s.b, open + [Emits(m, k)], cs, if p - 1 <= |EventsAll(cs)| then p - 1 else |EventsAll(cs)|);
      }
      WrapTracked(env, m, b, open, StartElement(k, n, a, o), EventsAll(cs), EndElement(k, n), p);
  }

  lemma {:induction false} AbsorbedTrackedAll(env: Environment, m: Modes, b: DT.Build, open: seq<bool>, xs: seq<Xml>, p: nat)
    requires Inv(m, b) && b.Open? && Absorbs(m) && p <= |EventsAll(xs)|
    ensures Tracked(env, m, b, open, EventsAll(xs), p)
    decreases xs, 0
  {
    hide WatchedRun, OpenTags, Inv, Absorbs, OwnDepth, Events;
    if xs == [] {
      NoTags(env, m, b, open);
      assert EventsAll(xs)[..p] == [];
    } else {
      var es, fs := Events(xs[0]), EventsAll(xs[1..]);
      AbsorbedTracked(env, m, b, open, xs[0], if p <= |es| then p else |es|);
      AbsorbedRun(env, m, b, xs[0]);
      var r := WatchedRun(env, m, b, es);
      WatchedAppend(env, m, b, es, []);
      if p > |es| { AbsorbedTrackedAll(env, r.m, r.b, open, xs[1..], p - |es|); }
      SplitTracked(env, m, b, open, es, fs, p);
    }
  }

  lemma TextTracked(env: Environment, m: Modes, b: DT.Build, open: seq<bool>, s: string, p: nat)
    requires Inv(m, b) && p <= 1
    requires var r := WatchedRun(env, m, b, [Characters(s)]); r.Finished? ==> OwnDepth(r.m, r.b) == OwnDepth(m, b)
    ensures Tracked(env, m, b, open, [Characters(s)], p)
  {
    hide Step, Inv, OwnDepth, WatchedRun, OpenTags;
    var es := [Characters(s)];
    NoTags(env, m, b, open);
    assert es[..0] == [] && es[..1] == es;
    LastEvent(env, m, b, Characters(s));
    if Step(env, m, b, Characters(s)).Next? { OneTag(env, m, b, open, Characters(s)); }
  }

  // ----- All other elements -----

  lemma RepDepth(ctx: Context, st: Sofar, b0: DT.Build, prompts: int, copies: int, level: DT.DocumentLevel)
    requires Fits(ctx, st, b0)
    ensures OwnDepth(ModesOf(ctx, st, prompts, copies), BuildOf(b0, st, level)) == |b0.frames| - if ctx.InImplicit? then 1 else 0
  {
    hide BuildOf;
    BuildDepth(b0, st, level);
  }

  /** A converted node leaves the depth as it was. */
  lemma NodeKeepsDepth(env: Environment, ctx: Context, st: Sofar, x: Xml, b0: DT.Build, prompts: int, copies: int)
    requires Fits(ctx, st, b0) && prompts > 0
    ensures var m, b := ModesOf(ctx, st, prompts, copies), BuildOf(b0, st, env.level);
            && Inv(m, b)
            && var r := WatchedRun(env, m, b, Events(x));
            r.Finished? ==> OwnDepth(r.m, r.b) == OwnDepth(m, b)
  {
    hide ModesOf, BuildOf, Convert, Inv, WatchedRun, OwnDepth, Events, Fits;
    ConvertRuns(env, ctx, st, x, b0, prompts, copies);
    RepDepth(ctx, st, b0, prompts, copies, env.level);
    var c := Convert(env, ctx, st, x);
    if c.Converted? { RepDepth(ctx, c.st, b0, prompts, copies, env.level); }
  }

  lemma {:induction false} NodeTracked(env: Environment, ctx: Context, st: Sofar, x: Xml, b0: DT.Build, prompts: int,
                                       copies: int, open: seq<bool>, p: nat)
    requires Fits(ctx, st, b0) && prompts > 0 && p <= |Events(x)|
    ensures var m, b := ModesOf(ctx, st, prompts, copies), BuildOf(b0, st, env.level);
            Inv(m, b) && Tracked(env, m, b, open, Events(x), p)
    decreases x, 1
  {
    hide ModesOf, BuildOf, WatchedRun, OpenTags, Inv, ClosesItsOwn, Start, End, Chars, OwnDepth, Tracked;
    var m, b := ModesOf(ctx, st, prompts, copies), BuildOf(b0, st, env.level);
    NodeKeepsDepth(env, ctx, st, x, b0, prompts, copies);
    match x
    case Text(s) => TextTracked(env, m, b, open, s, p);
    case Elem(k, n, a, o, cs) =>
      if p > 0 && Start(env, m, b, k, n, a, o).Next? && ClosesItsOwn(m, b, StartElement(k, n, a, o)) {
        BodyTracked(env, ctx, st, x, b0, prompts, copies, open + [Emits(m, k)],
                    if p - 1 <= |EventsAll(cs)| then p - 1 else |EventsAll(cs)|);
      }
      WrapTracked(env, m, b, open, StartElement(k, n, a, o), EventsAll(cs), EndElement(k, n), p);
  }

  lemma {:induction false} NodesTracked(env: Environment, ctx: Context, st: Sofar, xs: seq<Xml>, b0: DT.Build, prompts: int,
                                        copies: int, open: seq<bool>, p: nat)
    requires Fits(ctx, st, b0) && prompts > 0 && p <= |EventsAll(xs)|
    ensures var m, b := ModesOf(ctx, st, prompts, copies), BuildOf(b0, st, env.level);
            Inv(m, b) && Tracked(env, m, b, open, EventsAll(xs), p)
    decreases xs, 0
  {
    hide ModesOf, BuildOf, WatchedRun, OpenTags, Inv, OwnDepth, Events, Convert;
    var m, b := ModesOf(ctx, st, prompts, copies), BuildOf(b0, st, env.level);
    FitsInv(ctx, st, b0, prompts, copies, env.level);
    if xs == [] {
      NoTags(env, m, b, open);
      assert EventsAll(xs)[..p] == [];
    } else {
      var es, fs := Events(xs[0]), EventsAll(xs[1..]);
      NodeTracked(env, ctx, st, xs[0], b0, prompts, copies, open, if p <= |es| then p else |es|);
      ConvertRuns(env, ctx, st, xs[0], b0, prompts, copies);
      var c := Convert(env, ctx, st, xs[0]);
      if c.Converted? && p > |es| {
        NodesTracked(env, ctx, c.st, xs[1..], b0, prompts, copies, open, p - |es|);
      }
      SplitTracked(env, m, b, open, es, fs, p);
    }
  }

  /** The body of an element, from the state its start event leaves. */
  lemma {:induction false} BodyTracked(env: Environment, ctx: Context, st: Sofar, x: Xml, b0: DT.Build, prompts: int,
                                       copies: int, open: seq<bool>, p: nat)
    requires Fits(ctx, st, b0) && prompts > 0 && x.Elem? && p <= |EventsAll(x.children)|
    requires var m, b := ModesOf(ctx, st, prompts, copies), BuildOf(b0, st, env.level);
             var ev := StartElement(x.kind, x.name, x.attrs, x.outcome);
             Inv(m, b) && ClosesItsOwn(m, b, ev) && Step(env, m, b, ev).Next?
    ensures var m, b := ModesOf(ctx, st, prompts, copies), BuildOf(b0, st, env.level);
            var s := Step(env, m, b, StartElement(x.kind, x.name, x.attrs, x.outcome));
            Inv(s.m, s.b) && Tracked(env, s.m, s.b, open, EventsAll(x.children), p)
    decreases x, 0
  {
    hide ModesOf, BuildOf, Inv, ClosesItsOwn, Step, Tracked, Enters, InnerBase, InnerModes, EventsAll, OpenTag, Opened, HasSource;
    var m, b := ModesOf(ctx, st, prompts, copies), BuildOf(b0, st, env.level);
    var k, cs := x.kind, x.children;
    StepInv(env, m, b, StartElement(k, x.name, x.attrs, x.outcome));
    if ctx.InPrompt? && k.Prompt? {
      NestedPromptStarts(env, st, x, b0, prompts, copies);
      NodesTracked(env, ctx, st, cs, b0, prompts + 1, copies, open, p);
    } else if ctx.InPrompt? && !EmittedInPrompt(k) {
      CopiedStarts(env, st, x, b0, prompts, copies);
      NodesTracked(env, ctx, Put(st, Chunk(OpenTag(x.name, x.attrs))), cs, b0, prompts, copies + 1, open, p);
    } else if k.Unknown? || k.Metadata? {
      SkippedStarts(env, ctx, st, x, b0, prompts, copies);
      var s := Step(env, m, b, StartElement(k, x.name, x.attrs, x.outcome));
      AbsorbedTrackedAll(env, s.m, s.b, open, cs, p);
    } else if k.Prompt? && ctx.InImplicit? && st.flags.foreachImplicit {
      ForeachPromptStarts(env, ctx, st, x, b0, prompts, copies);
      NodesTracked(env, ctx, st, cs, b0, prompts, copies, open, p);
    } else if k.Speech? {
      var st1 := Opened(env, ctx, st);
      SpeechStart(env, ctx, st, x, b0, prompts, copies);
      SpeechFits(env, ctx, st, x, b0);
      NodesTracked(env, InImplicit(if ctx.InImplicit? then ctx.copies + 1 else 1), Put(Focus(st1), Chunk(OpenTag(x.name, x.attrs))),
                   cs, FocusBase(b0, st1, env.level), prompts, copies, open, p);
    } else {
      StartRuns(env, ctx, st, x, b0, prompts, copies);
      var e := Enters(env, ctx, st, k);
      var a := x.outcome.attributes;
      var start := InnerStart(k, a, InnerFlags(e.st.flags, k, a));
      if k.Grammar? {
        GrammarAbsorbs(env, ctx, st, k, start, prompts, copies);
        AbsorbedTrackedAll(env, InnerModes(e.inner, k, start, prompts, copies),
                           BuildOf(InnerBase(b0, e.st, k, a, env.level), start, env.level), open, cs, p);
      } else {
        InnerFits(env, ctx, st, k, a, b0);
        PlainInner(e.inner, k, prompts, copies);
        NodesTracked(env, e.inner, start, cs, InnerBase(b0, e.st, k, a, env.level), InnerPrompts(k, prompts), InnerCopies(k, copies), open, p);
      }
    }
  }

  lemma NestedPromptStarts(env: Environment, st: Sofar, x: Xml, b0: DT.Build, prompts: int, copies: int)
    requires Fits(InPrompt, st, b0) && prompts > 0 && x.Elem? && x.kind.Prompt?
    ensures var b := BuildOf(b0, st, env.level);
            && Inv(ModesOf(InPrompt, st, prompts, copies), b)
            && Step(env, ModesOf(InPrompt, st, prompts, copies), b, StartElement(x.kind, x.name, x.attrs, x.outcome))
               == Next(ModesOf(InPrompt, st, prompts + 1, copies), b)
  {
    hide BuildOf, StartMarkup;
    FitsInv(InPrompt, st, b0, prompts, copies, env.level);
  }

  lemma CopiedStarts(env: Environment, st: Sofar, x: Xml, b0: DT.Build, prompts: int, copies: int)
    requires Fits(InPrompt, st, b0) && prompts > 0 && x.Elem? && !x.kind.Prompt? && !EmittedInPrompt(x.kind)
    ensures var st1 := Put(st, Chunk(OpenTag(x.name, x.attrs)));
            && Inv(ModesOf(InPrompt, st, prompts, copies), BuildOf(b0, st, env.level))
            && Step(env, ModesOf(InPrompt, st, prompts, copies), BuildOf(b0, st, env.level), StartElement(x.kind, x.name, x.attrs, x.outcome))
               == Next(ModesOf(InPrompt, st1, prompts, copies + 1), BuildOf(b0, st1, env.level))
            && Fits(InPrompt, st1, b0)
  {
    hide BuildOf, StartMarkup, DT.Text, OpenTag;
    FitsInv(InPrompt, st, b0, prompts, copies, env.level);
    PutChunk(b0, st, OpenTag(x.name, x.attrs), env.level);
  }

  lemma SkippedStarts(env: Environment, ctx: Context, st: Sofar, x: Xml, b0: DT.Build, prompts: int, copies: int)
    requires Fits(ctx, st, b0) && prompts > 0 && x.Elem? && !ctx.InPrompt? && (x.kind.Unknown? || x.kind.Metadata?)
    ensures var m, b := ModesOf(ctx, st, prompts, copies), BuildOf(b0, st, env.level);
            && Inv(m, b)
            && var s := Step(env, m, b, StartElement(x.kind, x.name, x.attrs, x.outcome));
            s.Next? ==> Inv(s.m, s.b) && s.b.Open? && Absorbs(s.m)
  {
    hide BuildOf, PromptBoundary;
    FitsInv(ctx, st, b0, prompts, copies, env.level);
  }

  lemma ForeachPromptStarts(env: Environment, ctx: Context, st: Sofar, x: Xml, b0: DT.Build, prompts: int, copies: int)
    requires Fits(ctx, st, b0) && prompts > 0 && x.Elem? && x.kind.Prompt? && ctx.InImplicit? && st.flags.foreachImplicit
    ensures var m, b := ModesOf(ctx, st, prompts, copies), BuildOf(b0, st, env.level);
            Inv(m, b) && Step(env, m, b, StartElement(x.kind, x.name, x.attrs, x.outcome)) == Next(m, b)
  {
    hide BuildOf, PromptBoundary;
    FitsInv(ctx, st, b0, prompts, copies, env.level);
  }

  lemma GrammarAbsorbs(env: Environment, ctx: Context, st: Sofar, k: Kind, start: Sofar, prompts: int, copies: int)
    requires k.Grammar? && GetsNode(ctx, st, k) && Enters(env, ctx, st, k).Enter?
    ensures Absorbs(InnerModes(Enters(env, ctx, st, k).inner, k, start, prompts, copies))
  {
  }

  // ----- Whole documents -----

  lemma RootTracked(env: Environment, x: Xml, p: nat)
    requires x.Elem? && x.kind.Plain? && p <= |Events(x)|
    ensures Inv(FRESH, DT.Empty) && Tracked(env, FRESH, DT.Empty, [], Events(x), p)
  {
    hide WatchedRun, OpenTags, Inv, ClosesItsOwn, Start, Tracked, ConvertDocument, InnerFlags;
    RootStart(env, x);
    RootKeepsDepth(env, x);
    var cs := x.children;
    if p > 0 && x.outcome.Accepted? {
      NoForeachAtStart(x.kind, x.outcome.attributes);
      var f := InnerFlags(START_FLAGS, x.kind, x.outcome.attributes);
      var b0 := RootBase(env, x.kind, x.outcome.attributes);
      FreshBuild(b0, f, env.level);
      NodesTracked(env, Ordinary, Sofar([], NoPrompt, f), cs, b0, 1, 0, [Emits(FRESH, x.kind)],
                   if p - 1 <= |EventsAll(cs)| then p - 1 else |EventsAll(cs)|);
      assert [] + [Emits(FRESH, x.kind)] == [Emits(FRESH, x.kind)];
    }
    WrapTracked(env, FRESH, DT.Empty, [], StartElement(x.kind, x.name, x.attrs, x.outcome), EventsAll(cs), EndElement(x.kind, x.name), p);
  }

  lemma RootKeepsDepth(env: Environment, x: Xml)
    requires x.Elem? && x.kind.Plain?
    ensures Inv(FRESH, DT.Empty)
    ensures var r := WatchedRun(env, FRESH, DT.Empty, Events(x)); r.Finished? ==> OwnDepth(r.m, r.b) == OwnDepth(FRESH, DT.Empty)
  {
    hide WatchedRun, ConvertDocument, Events, Inv;
    DocumentRuns(env, x);
  }

  /** Every document, at every moment before an event closes an element that is not its own: the
      builder's depth is the number of open elements that were emitted, and one more while an
      implicit prompt is open. */
  lemma DepthBeforeMisplaced(env: Environment, x: Xml, p: nat)
    requires x.Elem? && x.kind.Plain? && p <= |Events(x)|
    ensures Inv(FRESH, DT.Empty)
    ensures var r := WatchedRun(env, FRESH, DT.Empty, Events(x)[..p]);
            r.Finished? ==> DT.Depth(r.b) == Emitted(OpenTags(env, FRESH, DT.Empty, [], Events(x)[..p]))
                                             + if r.m.implicitPrompt then 1 else 0
  {
    hide WatchedRun, OpenTags, Events, Inv;
    RootTracked(env, x, p);
  }

  /** Balance at every moment: after any number of events an admissible document has been refused,
      or the builder's depth is that of the open emitted elements and the implicit prompt. */
  lemma BalanceThroughout(env: Environment, x: Xml, p: nat)
    requires x.Elem? && x.kind.Plain? && (forall c :: c in x.children ==> Admissible(c, false)) && p <= |Events(x)|
    ensures Inv(FRESH, DT.Empty)
    ensures var r := Run(env, FRESH, DT.Empty, Events(x)[..p]);
            if r.Throw? then r.why == Refused
            else DT.Depth(r.b) == Emitted(OpenTags(env, FRESH, DT.Empty, [], Events(x)[..p])) + if r.m.implicitPrompt then 1 else 0
  {
    hide WatchedRun, Run, OpenTags, Events, Inv, ConvertDocument, Admissible;
    var es := Events(x);
    DepthBeforeMisplaced(env, x, p);
    Balance(env, x);
    DocumentRuns(env, x);
    assert es == es[..p] + es[p..];
    WatchedAppend(env, FRESH, DT.Empty, es[..p], es[p..]);
    WatchedIsRun(env, FRESH, DT.Empty, es[..p]);
  }
}
