/** The induction over document trees, and what it gives for whole documents. */
module ConverterTheorem {
  import opened Wrappers
  import opened Markup
  import opened Whitespace
  import opened ConverterSteps
  import opened ConverterReference
  import opened ConverterCorrectness
  import DT = DocumentTree

  // Conversion never leaves an implicit foreach that was not there before.
  lemma {:induction false} NoNewForeach(env: Environment, ctx: Context, st: Sofar, x: Xml)
    ensures var c := Convert(env, ctx, st, x);
            c.Converted? && c.st.flags.foreachImplicit ==> st.flags.foreachImplicit
    decreases x, 1
  {
    hide Enters, PrettyAll, SpeakHeader;
    if x.Elem? && Convert(env, ctx, st, x).Converted? {
      var k := x.kind;
      if ctx.InPrompt? && (k.Prompt? || !EmittedInPrompt(k)) {
        NoNewForeachAll(env, ctx, st, x.children);
        NoNewForeachAll(env, ctx, Put(st, Chunk(OpenTag(x.name, x.attrs))), x.children);
      } else if k.Metadata? {
      } else if k.Prompt? && ctx.InImplicit? && st.flags.foreachImplicit {
      } else if k.Speech? {
        var st1 := Opened(env, ctx, st);
        NoNewForeachAll(env, InImplicit(if ctx.InImplicit? then ctx.copies + 1 else 1),
                        Put(Focus(st1), Chunk(OpenTag(x.name, x.attrs))), x.children);
      } else {
        EnterFlags(env, ctx, st, k);
        if !k.Foreach? { EnterForeach(env, ctx, st, k); }
        var e := Enters(env, ctx, st, k);
        if !k.Grammar? {
          NoNewForeachAll(env, e.inner, InnerStart(k, x.outcome.attributes, InnerFlags(e.st.flags, k, x.outcome.attributes)), x.children);
        }
      }
    }
  }

  lemma EnterForeach(env: Environment, ctx: Context, st: Sofar, k: Kind)
    requires Enters(env, ctx, st, k).Enter? && !k.Foreach?
    ensures Enters(env, ctx, st, k).st.flags.foreachImplicit == st.flags.foreachImplicit
  {
  }

  lemma {:induction false} NoNewForeachAll(env: Environment, ctx: Context, st: Sofar, xs: seq<Xml>)
    ensures var c := ConvertAll(env, ctx, st, xs);
            c.Converted? && c.st.flags.foreachImplicit ==> st.flags.foreachImplicit
    decreases xs, 0
  {
    if xs != [] {
      NoNewForeach(env, ctx, st, xs[0]);
      if Convert(env, ctx, st, xs[0]).Converted? {
        NoNewForeachAll(env, ctx, Convert(env, ctx, st, xs[0]).st, xs[1..]);
      }
    }
  }

  /** Running the events of a node from a state that stands for a conversion state ends as the
      conversion of the node says. */
  ghost predicate Matches(env: Environment, ctx: Context, st: Sofar, es: seq<Event>, c: Conversion, b0: DT.Build,
                          prompts: int, copies: int)
    requires b0.Open? && b0.Ok()
  {
    var m, b := ModesOf(ctx, st, prompts, copies), BuildOf(b0, st, env.level);
    Inv(m, b) && Agrees(ctx, WatchedRun(env, m, b, es), c, b0, prompts, copies, env.level)
  }

  lemma {:induction false} ConvertAllRuns(env: Environment, ctx: Context, st: Sofar, xs: seq<Xml>, b0: DT.Build,
                                          prompts: int, copies: int)
    requires Fits(ctx, st, b0) && prompts > 0
    ensures Matches(env, ctx, st, EventsAll(xs), ConvertAll(env, ctx, st, xs), b0, prompts, copies)
    decreases xs, 0
  {
    hide Convert, Events, Inv, ModesOf, BuildOf, Step, ClosesItsOwn;
    var m, b := ModesOf(ctx, st, prompts, copies), BuildOf(b0, st, env.level);
    FitsInv(ctx, st, b0, prompts, copies, env.level);
    if xs != [] {
      ConvertRuns(env, ctx, st, xs[0], b0, prompts, copies);
      WatchedAppend(env, m, b, Events(xs[0]), EventsAll(xs[1..]));
      var c := Convert(env, ctx, st, xs[0]);
      if c.Converted? {
        ConvertAllRuns(env, ctx, c.st, xs[1..], b0, prompts, copies);
      }
    }
  }

  lemma {:induction false} ConvertRuns(env: Environment, ctx: Context, st: Sofar, x: Xml, b0: DT.Build,
                                       prompts: int, copies: int)
    requires Fits(ctx, st, b0) && prompts > 0
    ensures Matches(env, ctx, st, Events(x), Convert(env, ctx, st, x), b0, prompts, copies)
    decreases x, 1
  {
    hide ConvertAll, Enters, Leaves, ModesOf, BuildOf, WatchedRun, Agrees, Inv;
    FitsInv(ctx, st, b0, prompts, copies, env.level);
    match x
    case Text(s) => TextRuns(env, ctx, st, s, b0, prompts, copies);
    case Elem(k, _, _, _, cs) =>
      if ctx.InPrompt? && k.Prompt? {
        ConvertAllRuns(env, ctx, st, cs, b0, prompts + 1, copies);
        NestedPromptRuns(env, st, x, b0, prompts, copies);
      } else if ctx.InPrompt? && !EmittedInPrompt(k) {
        var st1 := Put(st, Chunk(OpenTag(x.name, x.attrs)));
        PutFits(ctx, st, Chunk(OpenTag(x.name, x.attrs)), b0);
        ConvertAllRuns(env, ctx, st1, cs, b0, prompts, copies + 1);
        CopiedRuns(env, st, x, b0, prompts, copies);
      } else if k.Unknown? || k.Metadata? {
        SkippedRuns(env, ctx, st, x, b0, prompts, copies);
      } else if k.Prompt? && ctx.InImplicit? && st.flags.foreachImplicit {
        ConvertAllRuns(env, ctx, st, cs, b0, prompts, copies);
        ForeachPromptRuns(env, ctx, st, x, b0, prompts, copies);
      } else if k.Speech? {
        var st1 := Opened(env, ctx, st);
        var inner := InImplicit(if ctx.InImplicit? then ctx.copies + 1 else 1);
        var st2 := Put(Focus(st1), Chunk(OpenTag(x.name, x.attrs)));
        SpeechFits(env, ctx, st, x, b0);
        ConvertAllRuns(env, inner, st2, cs, FocusBase(b0, st1, env.level), prompts, copies);
        SpeechRuns(env, ctx, st, x, b0, prompts, copies);
      } else {
        NodeRuns(env, ctx, st, x, b0, prompts, copies);
      }
  }

  lemma PutFits(ctx: Context, st: Sofar, p: Piece, b0: DT.Build)
    requires Fits(ctx, st, b0)
    ensures Fits(ctx, Put(st, p), b0)
  {
  }

  // A start event, events already known to match, an end event.
  lemma Bracketed(env: Environment, m: Modes, b: DT.Build, start: Event, body: seq<Event>, end: Event)
    requires Inv(m, b)
    ensures var r := WatchedRun(env, m, b, [start] + body + [end]);
            if !ClosesItsOwn(m, b, start) then r == Misplaced
            else
              var s := Step(env, m, b, start);
              if s.Throw? then r == Stopped(s.why)
              else
                Inv(s.m, s.b) && var r1 := WatchedRun(env, s.m, s.b, body);
                if !r1.Finished? then r == r1
                else
                  && Inv(r1.m, r1.b)
                  && if !ClosesItsOwn(r1.m, r1.b, end) then r == Misplaced
                     else
                       var t := Step(env, r1.m, r1.b, end);
                       if t.Throw? then r == Stopped(t.why) else r == Finished(t.m, t.b)
  {
    hide Step, ClosesItsOwn, Inv, WatchedRun;
    assert [start] + body + [end] == [start] + (body + [end]);
    OneEvent(env, m, b, start, body + [end]);
    if ClosesItsOwn(m, b, start) && Step(env, m, b, start).Next? {
      var m1, b1 := Step(env, m, b, start).m, Step(env, m, b, start).b;
      StepInv(env, m, b, start);
      WatchedAppend(env, m1, b1, body, [end]);
      var r1 := WatchedRun(env, m1, b1, body);
      if r1.Finished? {
        LastEvent(env, r1.m, r1.b, end);
      }
    }
  }

  lemma StepInv(env: Environment, m: Modes, b: DT.Build, e: Event)
    requires Inv(m, b) && Step(env, m, b, e).Next?
    ensures Inv(Step(env, m, b, e).m, Step(env, m, b, e).b)
  {
  }

  // A prompt inside an explicit prompt only counts.
  lemma NestedPromptRuns(env: Environment, st: Sofar, x: Xml, b0: DT.Build, prompts: int, copies: int)
    requires Fits(InPrompt, st, b0) && prompts > 0 && x.Elem? && x.kind.Prompt?
    requires Matches(env, InPrompt, st, EventsAll(x.children), ConvertAll(env, InPrompt, st, x.children), b0, prompts + 1, copies)
    ensures Matches(env, InPrompt, st, Events(x), Convert(env, InPrompt, st, x), b0, prompts, copies)
  {
    hide BuildOf, WatchedRun, ConvertAll, StartMarkup, EndMarkup;
    FitsInv(InPrompt, st, b0, prompts, copies, env.level);
    Bracketed(env, ModesOf(InPrompt, st, prompts, copies), BuildOf(b0, st, env.level),
              StartElement(x.kind, x.name, x.attrs, x.outcome), EventsAll(x.children), EndElement(x.kind, x.name));
  }

  // An element copied as text inside an explicit prompt.
  lemma CopiedRuns(env: Environment, st: Sofar, x: Xml, b0: DT.Build, prompts: int, copies: int)
    requires Fits(InPrompt, st, b0) && prompts > 0 && x.Elem? && !x.kind.Prompt? && !EmittedInPrompt(x.kind)
    requires var st1 := Put(st, Chunk(OpenTag(x.name, x.attrs)));
             Matches(env, InPrompt, st1, EventsAll(x.children), ConvertAll(env, InPrompt, st1, x.children), b0, prompts, copies + 1)
    ensures Matches(env, InPrompt, st, Events(x), Convert(env, InPrompt, st, x), b0, prompts, copies)
  {
    hide BuildOf, WatchedRun, ConvertAll, StartMarkup, EndMarkup, DT.Text, OpenTag, CloseTag;
    FitsInv(InPrompt, st, b0, prompts, copies, env.level);
    Bracketed(env, ModesOf(InPrompt, st, prompts, copies), BuildOf(b0, st, env.level),
              StartElement(x.kind, x.name, x.attrs, x.outcome), EventsAll(x.children), EndElement(x.kind, x.name));
    PutChunk(b0, st, OpenTag(x.name, x.attrs), env.level);
    var c := ConvertAll(env, InPrompt, Put(st, Chunk(OpenTag(x.name, x.attrs))), x.children);
    if c.Converted? {
      PutChunk(b0, c.st, CloseTag(x.name), env.level);
    }
  }

  // Names that are not in the table, and metadata.
  lemma SkippedRuns(env: Environment, ctx: Context, st: Sofar, x: Xml, b0: DT.Build, prompts: int, copies: int)
    requires Fits(ctx, st, b0) && prompts > 0 && x.Elem? && !ctx.InPrompt? && (x.kind.Unknown? || x.kind.Metadata?)
    ensures Matches(env, ctx, st, Events(x), Convert(env, ctx, st, x), b0, prompts, copies)
  {
    hide BuildOf, WatchedRun, ConvertAll, PromptBoundary, EndMarkup;
    FitsInv(ctx, st, b0, prompts, copies, env.level);
    var m, b := ModesOf(ctx, st, prompts, copies), BuildOf(b0, st, env.level);
    Bracketed(env, m, b, StartElement(x.kind, x.name, x.attrs, x.outcome), EventsAll(x.children), EndElement(x.kind, x.name));
    if x.kind.Metadata? {
      IgnoredRuns(env, m.(ignoreDepth := 1), b, x.children);
    }
  }

  // A prompt inside an implicit foreach is passed over; its children are not.
  lemma ForeachPromptRuns(env: Environment, ctx: Context, st: Sofar, x: Xml, b0: DT.Build, prompts: int, copies: int)
    requires Fits(ctx, st, b0) && prompts > 0 && x.Elem? && x.kind.Prompt? && ctx.InImplicit? && st.flags.foreachImplicit
    requires Matches(env, ctx, st, EventsAll(x.children), ConvertAll(env, ctx, st, x.children), b0, prompts, copies)
    ensures Matches(env, ctx, st, Events(x), Convert(env, ctx, st, x), b0, prompts, copies)
  {
    hide BuildOf, WatchedRun, ConvertAll, PromptBoundary, CompleteElement, ImplicitEnd;
    FitsInv(ctx, st, b0, prompts, copies, env.level);
    Bracketed(env, ModesOf(ctx, st, prompts, copies), BuildOf(b0, st, env.level),
              StartElement(x.kind, x.name, x.attrs, x.outcome), EventsAll(x.children), EndElement(x.kind, x.name));
  }

  lemma SpeechFits(env: Environment, ctx: Context, st: Sofar, x: Xml, b0: DT.Build)
    requires Fits(ctx, st, b0) && x.Elem? && !ctx.InPrompt?
    ensures var st1 := Opened(env, ctx, st);
            Fits(InImplicit(if ctx.InImplicit? then ctx.copies + 1 else 1),
                 Put(Focus(st1), Chunk(OpenTag(x.name, x.attrs))), FocusBase(b0, st1, env.level))
  {
    hide Grow, Nest, OpenTag, SpeakHeader;
  }

  // SSML outside an explicit prompt: opens an implicit prompt if need be, and is copied into it.
  lemma SpeechStart(env: Environment, ctx: Context, st: Sofar, x: Xml, b0: DT.Build, prompts: int, copies: int)
    requires Fits(ctx, st, b0) && prompts > 0 && x.Elem? && x.kind.Speech? && !ctx.InPrompt?
    ensures var m, b := ModesOf(ctx, st, prompts, copies), BuildOf(b0, st, env.level);
            var ev := StartElement(x.kind, x.name, x.attrs, x.outcome);
            var st1 := Opened(env, ctx, st);
            var inner := InImplicit(if ctx.InImplicit? then ctx.copies + 1 else 1);
            var st2 := Put(Focus(st1), Chunk(OpenTag(x.name, x.attrs)));
            && Inv(m, b) && ClosesItsOwn(m, b, ev)
            && Step(env, m, b, ev) == Next(ModesOf(inner, st2, prompts, copies), BuildOf(FocusBase(b0, st1, env.level), st2, env.level))
  {
    hide BuildOf, Grow, Nest, ImplicitStart, ImplicitEnd, DT.Text, OpenTag, SpeakHeader, FocusBase;
    FitsInv(ctx, st, b0, prompts, copies, env.level);
    var st1 := Opened(env, ctx, st);
    if st1 != st { OpenedBuild(env, b0, st); }
    var t := Chunk(OpenTag(x.name, x.attrs));
    PutChunk(b0, st1, OpenTag(x.name, x.attrs), env.level);
    UnfocusBuild(b0, st1, Put(Focus(st1), t), env.level);
    assert Unfocus(st1, Put(Focus(st1), t)) == Put(st1, t);
  }

  lemma SpeechEnd(env: Environment, ctx: Context, st: Sofar, x: Xml, r: Sofar, b0: DT.Build, prompts: int, copies: int)
    requires Fits(ctx, st, b0) && prompts > 0 && x.Elem? && x.kind.Speech? && !ctx.InPrompt?
    requires r.pending.NoPrompt? && (r.flags.foreachImplicit ==> st.flags.foreachImplicit)
    requires Fits(InImplicit(if ctx.InImplicit? then ctx.copies + 1 else 1), r, FocusBase(b0, Opened(env, ctx, st), env.level))
    ensures var st1 := Opened(env, ctx, st);
            var inner := InImplicit(if ctx.InImplicit? then ctx.copies + 1 else 1);
            var m, b := ModesOf(inner, r, prompts, copies), BuildOf(FocusBase(b0, st1, env.level), r, env.level);
            var ev := EndElement(x.kind, x.name);
            var st2 := Unfocus(st1, Put(r, Chunk(CloseTag(x.name))));
            && Inv(m, b) && ClosesItsOwn(m, b, ev) && Fits(ctx, st2, b0)
            && Step(env, m, b, ev) == Next(ModesOf(ctx, st2, prompts, copies), BuildOf(b0, st2, env.level))
  {
    hide BuildOf, Grow, Nest, ImplicitEnd, DT.Text, CloseTag, SpeakHeader, FocusBase, CompleteElement;
    var st1 := Opened(env, ctx, st);
    var bF := FocusBase(b0, st1, env.level);
    FitsInv(InImplicit(if ctx.InImplicit? then ctx.copies + 1 else 1), r, bF, prompts, copies, env.level);
    PutChunk(bF, r, CloseTag(x.name), env.level);
    UnfocusBuild(b0, st1, Put(r, Chunk(CloseTag(x.name))), env.level);
  }

  lemma SpeechRuns(env: Environment, ctx: Context, st: Sofar, x: Xml, b0: DT.Build, prompts: int, copies: int)
    requires Fits(ctx, st, b0) && prompts > 0 && x.Elem? && x.kind.Speech? && !ctx.InPrompt?
    requires var st1 := Opened(env, ctx, st);
             var inner := InImplicit(if ctx.InImplicit? then ctx.copies + 1 else 1);
             var st2 := Put(Focus(st1), Chunk(OpenTag(x.name, x.attrs)));
             Matches(env, inner, st2, EventsAll(x.children), ConvertAll(env, inner, st2, x.children),
                     FocusBase(b0, st1, env.level), prompts, copies)
    ensures Matches(env, ctx, st, Events(x), Convert(env, ctx, st, x), b0, prompts, copies)
  {
    hide BuildOf, Grow, Nest, ModesOf, Inv, WatchedRun, ConvertAll, Step, ClosesItsOwn, OpenTag, CloseTag, FocusBase, SpeakHeader;
    var st1 := Opened(env, ctx, st);
    var inner := InImplicit(if ctx.InImplicit? then ctx.copies + 1 else 1);
    var st2 := Put(Focus(st1), Chunk(OpenTag(x.name, x.attrs)));
    FitsInv(ctx, st, b0, prompts, copies, env.level);
    SpeechStart(env, ctx, st, x, b0, prompts, copies);
    Bracketed(env, ModesOf(ctx, st, prompts, copies), BuildOf(b0, st, env.level),
              StartElement(x.kind, x.name, x.attrs, x.outcome), EventsAll(x.children), EndElement(x.kind, x.name));
    var c := ConvertAll(env, inner, st2, x.children);
    if c.Converted? {
      NoNewForeachAll(env, inner, st2, x.children);
      SpeechEnd(env, ctx, st, x, c.st, b0, prompts, copies);
    }
  }

  // Elements that get a node of their own.
  lemma {:induction false} NodeRuns(env: Environment, ctx: Context, st: Sofar, x: Xml, b0: DT.Build, prompts: int, copies: int)
    requires Fits(ctx, st, b0) && prompts > 0 && x.Elem? && GetsNode(ctx, st, x.kind)
    ensures Matches(env, ctx, st, Events(x), Convert(env, ctx, st, x), b0, prompts, copies)
    decreases x, 0
  {
    hide BuildOf, Grow, Nest, ModesOf, Inv, WatchedRun, ConvertAll, Step, ClosesItsOwn, PrettyAll, HasTextAll,
         InnerModes, InnerBase, Leaves, Enters, PromptHeader;
    var m, b := ModesOf(ctx, st, prompts, copies), BuildOf(b0, st, env.level);
    StartRuns(env, ctx, st, x, b0, prompts, copies);
    Bracketed(env, m, b, StartElement(x.kind, x.name, x.attrs, x.outcome), EventsAll(x.children), EndElement(x.kind, x.name));
    var e := Enters(env, ctx, st, x.kind);
    if e.Enter? && !x.kind.Description? && !x.kind.Substitute? && x.outcome.Accepted? {
      var k, a := x.kind, x.outcome.attributes;
      var start := InnerStart(k, a, InnerFlags(e.st.flags, k, a));
      var bI := InnerBase(b0, e.st, k, a, env.level);
      InnerFits(env, ctx, st, k, a, b0);
      if k.Grammar? {
        var r := Sofar([Chunk(PrettyAll(x.children))], NoPrompt,
                       InnerFlags(e.st.flags, k, a).(hasContent := HasTextAll(x.children)));
        GrammarBodyRuns(env, ctx, st, x, b0, prompts, copies);
        LeaveRuns(env, ctx, st, x, r, b0, prompts, copies);
      } else {
        ConvertAllRuns(env, e.inner, start, x.children, bI, InnerPrompts(k, prompts), InnerCopies(k, copies));
        PlainInner(e.inner, k, prompts, copies);
        var c := ConvertAll(env, e.inner, start, x.children);
        if c.Converted? {
          NoNewForeachAll(env, e.inner, start, x.children);
          LeaveRuns(env, ctx, st, x, c.st, b0, prompts, copies);
        }
      }
    }
  }

  lemma PlainInner(inner: Context, k: Kind, prompts: int, copies: int)
    requires !k.Grammar?
    ensures forall st :: InnerModes(inner, k, st, prompts, copies) == ModesOf(inner, st, InnerPrompts(k, prompts), InnerCopies(k, copies))
    ensures prompts > 0 ==> InnerPrompts(k, prompts) > 0
  {
  }

  // The body of a grammar.
  lemma GrammarBodyRuns(env: Environment, ctx: Context, st: Sofar, x: Xml, b0: DT.Build, prompts: int, copies: int)
    requires Fits(ctx, st, b0) && prompts > 0 && x.Elem? && x.kind.Grammar? && x.outcome.Accepted?
    requires GetsNode(ctx, st, x.kind) && Enters(env, ctx, st, x.kind).Enter?
    ensures var e := Enters(env, ctx, st, x.kind);
            var a := x.outcome.attributes;
            var f := InnerFlags(e.st.flags, x.kind, a);
            var start := InnerStart(x.kind, a, f);
            var bI := InnerBase(b0, e.st, x.kind, a, env.level);
            var r := Sofar([Chunk(PrettyAll(x.children))], NoPrompt, f.(hasContent := HasTextAll(x.children)));
            && Inv(InnerModes(e.inner, x.kind, start, prompts, copies), BuildOf(bI, start, env.level))
            && WatchedRun(env, InnerModes(e.inner, x.kind, start, prompts, copies), BuildOf(bI, start, env.level), EventsAll(x.children))
               == Finished(InnerModes(e.inner, x.kind, r, prompts, copies), BuildOf(bI, r, env.level))
            && e.inner.Ordinary? && Fits(Ordinary, r, bI)
  {
    hide WatchedRun, PrettyAll, HasTextAll, HasSource, Assemble, InnerBase, SpeakHeader;
    var e := Enters(env, ctx, st, x.kind);
    var a := x.outcome.attributes;
    var f := InnerFlags(e.st.flags, x.kind, a);
    var start := InnerStart(x.kind, a, f);
    var bI := InnerBase(b0, e.st, x.kind, a, env.level);
    var r := Sofar([Chunk(PrettyAll(x.children))], NoPrompt, f.(hasContent := HasTextAll(x.children)));
    FreshBuild(bI, f, env.level);
    EmptyChunk(bI, env.level);
    SettledBuild(bI, r, env.level);
    GrammarRuns(env, InnerModes(e.inner, x.kind, start, prompts, copies), x.children, "", bI);
    assert "" + PrettyAll(x.children) == PrettyAll(x.children);
  }

  lemma EmptyChunk(b0: DT.Build, level: DT.DocumentLevel)
    requires b0.Open? && b0.Ok()
    ensures Grow(b0, [Chunk("")], level) == b0
  {
    hide Grow;
    GrowNothing(b0, level);
    GrowChunk(b0, [], "", level);
    assert [] + [Chunk("")] == [Chunk("")];
    assert DT.Text(b0, "") == Some(b0);
  }

  // The end of such an element, in every context.
  lemma LeaveRuns(env: Environment, ctx: Context, st: Sofar, x: Xml, r: Sofar, b0: DT.Build, prompts: int, copies: int)
    requires Fits(ctx, st, b0) && prompts > 0 && x.Elem? && GetsNode(ctx, st, x.kind) && x.outcome.Accepted?
    requires !x.kind.Description? && !x.kind.Substitute? && Enters(env, ctx, st, x.kind).Enter?
    requires var e := Enters(env, ctx, st, x.kind);
             && Fits(e.inner, r, InnerBase(b0, e.st, x.kind, x.outcome.attributes, env.level))
             && (r.flags.foreachImplicit ==> e.st.flags.foreachImplicit)
             && (x.kind.Grammar? ==> r.pending.NoPrompt?)
    ensures var e := Enters(env, ctx, st, x.kind);
            LeaveAgrees(env, ctx, e.inner, e.st, x, r, x.outcome.attributes, b0, prompts, copies)
  {
    hide InnerBase, LeaveAgrees, BuildOf, SpeakHeader;
    var e := Enters(env, ctx, st, x.kind);
    var a := x.outcome.attributes;
    assert CanLeave(ctx, e.inner, e.st, x.kind, r);
    match e.inner
    case InPrompt =>
      if ctx.InPrompt? {
        LeaveInPrompt(env, e.st, x, r, a, b0, prompts, copies);
      } else {
        LeavePrompt(env, e.st, x, r, a, b0, prompts, copies);
      }
    case InImplicit(c) => LeaveInImplicit(env, ctx, c, e.st, x, r, a, b0, prompts, copies);
    case Ordinary => LeaveOrdinary(env, e.st, x, r, a, b0, prompts, copies);
  }
}
