/** What every converted document promises about its prompts. */
module ConverterPrompts {
  import opened Wrappers
  import opened Markup
  import opened Whitespace
  import opened ConverterSteps
  import opened ConverterReference
  import opened ConverterDocuments
  import DT = DocumentTree

  // ----- On pieces -----

  predicate Promptless(p: Piece)
    decreases p
  {
    p.Built? ==> p.code != NODE_PROMPT && forall q :: q in p.inner ==> !q.Header? && Promptless(q)
  }

  predicate StartsWithHeader(ps: seq<Piece>) {
    && ps != [] && ps[0].Header? && SPEAK_OPEN <= ps[0].s
    && forall q :: q in ps[1..] ==> !q.Header? && Promptless(q)
  }

  /** A prompt piece runs from an SSML header to the closing tag and holds no prompt. */
  predicate Shaped(p: Piece)
    decreases p
  {
    p.Built? ==>
      if p.code == NODE_PROMPT then
        !p.pruned && |p.inner| >= 2 && StartsWithHeader(p.inner[..|p.inner| - 1]) && p.inner[|p.inner| - 1] == Chunk(SPEAK_CLOSE)
      else forall q :: q in p.inner ==> !q.Header? && Shaped(q)
  }

  lemma {:induction false} PromptlessIsShaped(p: Piece)
    requires Promptless(p)
    ensures Shaped(p)
    decreases p
  {
    if p.Built? {
      forall q | q in p.inner ensures Shaped(q) { PromptlessIsShaped(q); }
    }
  }

  // What has been put down so far, by context; `headed` says it began with a prompt header.
  ghost predicate SofarShaped(ctx: Context, st: Sofar, headed: bool) {
    match ctx
    case Ordinary =>
      && (forall q :: q in st.done ==> !q.Header? && Shaped(q))
      && (st.pending.OpenPrompt? ==> StartsWithHeader(st.pending.pieces))
    case _ =>
      if headed then StartsWithHeader(st.done) else forall q :: q in st.done ==> !q.Header? && Promptless(q)
  }

  lemma PutShaped(ctx: Context, st: Sofar, p: Piece, headed: bool)
    requires SofarShaped(ctx, st, headed) && !p.Header? && (if ctx.Ordinary? && st.pending.NoPrompt? then Shaped(p) else Promptless(p))
    requires !ctx.Ordinary? ==> st.pending.NoPrompt?
    ensures SofarShaped(ctx, Put(st, p), headed)
  {
    match st.pending
    case OpenPrompt(ps) => assert (ps + [p])[1..] == ps[1..] + [p];
    case NoPrompt =>
      if headed && !ctx.Ordinary? { assert (st.done + [p])[1..] == st.done[1..] + [p]; }
  }

  lemma OpenedShaped(env: Environment, st: Sofar)
    requires SofarShaped(Ordinary, st, false)
    ensures SofarShaped(Ordinary, Opened(env, Ordinary, st), false)
  {
    assert SPEAK_OPEN <= SpeakHeader(env.baseUri, env.documentLang) by { HeaderOpens(env.baseUri, env.documentLang); }
  }

  lemma HeaderOpens(base: string, lang: string)
    ensures SPEAK_OPEN <= SpeakHeader(base, lang)
  {
    hide TrimUriBase;
    assert SpeakHeader(base, lang) == SPEAK_OPEN + (TrimUriBase(base) + SPEAK_LANG + lang + SPEAK_END);
  }

  lemma ClosedShaped(st: Sofar)
    requires SofarShaped(Ordinary, st, false)
    ensures SofarShaped(Ordinary, Closed(st), false) && Closed(st).pending.NoPrompt?
  {
    if st.pending.OpenPrompt? {
      var ps := st.pending.pieces + [Chunk(SPEAK_CLOSE)];
      assert ps[..|ps| - 1] == st.pending.pieces;
    }
  }

  ghost predicate Pre(ctx: Context, st: Sofar, headed: bool) {
    && SofarShaped(ctx, st, headed)
    && (ctx.Ordinary? ==> !headed)
    && (!ctx.Ordinary? ==> st.pending.NoPrompt?)
  }

  lemma {:induction false} ConvertAllShaped(env: Environment, ctx: Context, st: Sofar, xs: seq<Xml>, headed: bool)
    requires Pre(ctx, st, headed)
    ensures var c := ConvertAll(env, ctx, st, xs); c.Converted? ==> Pre(ctx, c.st, headed)
    decreases xs, 0
  {
    hide SofarShaped, Convert;
    if xs != [] {
      ConvertShaped(env, ctx, st, xs[0], headed);
      var c := Convert(env, ctx, st, xs[0]);
      if c.Converted? { ConvertAllShaped(env, ctx, c.st, xs[1..], headed); }
    }
  }

  lemma {:induction false} ConvertShaped(env: Environment, ctx: Context, st: Sofar, x: Xml, headed: bool)
    requires Pre(ctx, st, headed)
    ensures var c := Convert(env, ctx, st, x); c.Converted? ==> Pre(ctx, c.st, headed)
    decreases x, 1
  {
    hide SofarShaped, ConvertAll, OpenTag, CloseTag, Enters, Leaves, SpeakHeader, InnerFlags;
    match x
    case Text(s) =>
      if !AllBlank(s) {
        if ctx.Ordinary? && st.flags.pcdataImpliesPrompt { OpenedShaped(env, st); }
        var st1 := if st.flags.pcdataImpliesPrompt then Opened(env, ctx, st) else st;
        PutShaped(ctx, st1, Chunk(s), headed);
        FlagsShaped(ctx, Put(st1, Chunk(s)), st1.flags.(hasContent := true), headed);
      }
    case Elem(k, _, _, _, cs) =>
      var open := Chunk(OpenTag(x.name, x.attrs));
      if ctx.InPrompt? && k.Prompt? {
        ConvertAllShaped(env, ctx, st, cs, headed);
      } else if ctx.InPrompt? && !EmittedInPrompt(k) {
        PutShaped(ctx, st, open, headed);
        ConvertAllShaped(env, ctx, Put(st, open), cs, headed);
        var c := ConvertAll(env, ctx, Put(st, open), cs);
        if c.Converted? { PutShaped(ctx, c.st, Chunk(CloseTag(x.name)), headed); }
      } else if k.Unknown? || k.Metadata? {
      } else if k.Prompt? && ctx.InImplicit? && st.flags.foreachImplicit {
        ConvertAllShaped(env, ctx, st, cs, headed);
      } else if k.Speech? {
        var st1 := Opened(env, ctx, st);
        if ctx.Ordinary? { OpenedShaped(env, st); }
        var inner := InImplicit(if ctx.InImplicit? then ctx.copies + 1 else 1);
        FocusShaped(ctx, inner, st1, headed);
        var h := headed || st1.pending.OpenPrompt?;
        PutShaped(inner, Focus(st1), open, h);
        ConvertAllShaped(env, inner, Put(Focus(st1), open), cs, h);
        var c := ConvertAll(env, inner, Put(Focus(st1), open), cs);
        if c.Converted? {
          PutShaped(inner, c.st, Chunk(CloseTag(x.name)), h);
          UnfocusShaped(ctx, inner, st1, Put(c.st, Chunk(CloseTag(x.name))), headed);
        }
      } else {
        NodeShaped(env, ctx, st, x, headed);
      }
  }

  lemma FlagsShaped(ctx: Context, st: Sofar, f: Flags, headed: bool)
    ensures SofarShaped(ctx, st.(flags := f), headed) <==> SofarShaped(ctx, st, headed)
  {
  }

  lemma FocusShaped(ctx: Context, inner: Context, st: Sofar, headed: bool)
    requires Pre(ctx, st, headed) && inner.InImplicit? && (ctx.Ordinary? ==> st.pending.OpenPrompt?)
    ensures Pre(inner, Focus(st), headed || st.pending.OpenPrompt?)
  {
  }

  lemma UnfocusShaped(ctx: Context, inner: Context, st: Sofar, r: Sofar, headed: bool)
    requires Pre(ctx, st, headed) && inner.InImplicit? && (ctx.Ordinary? ==> st.pending.OpenPrompt?)
    requires Pre(inner, r, headed || st.pending.OpenPrompt?)
    ensures Pre(ctx, Unfocus(st, r), headed)
  {
  }

  lemma {:induction false} NodeShaped(env: Environment, ctx: Context, st: Sofar, x: Xml, headed: bool)
    requires Pre(ctx, st, headed) && x.Elem? && !x.kind.Unknown? && !x.kind.Metadata? && !x.kind.Speech?
    requires !(ctx.InPrompt? && !EmittedInPrompt(x.kind)) && !(x.kind.Prompt? && ctx.InImplicit? && st.flags.foreachImplicit)
    ensures var c := Convert(env, ctx, st, x); c.Converted? ==> Pre(ctx, c.st, headed)
    decreases x, 0
  {
    hide SofarShaped, ConvertAll, OpenTag, CloseTag, Leaves, SpeakHeader, InnerFlags, Enters;
    var k := x.kind;
    var e := Enters(env, ctx, st, k);
    if e.Enter? && x.outcome.Accepted? {
      var a := x.outcome.attributes;
      EntersShaped(env, ctx, st, k, headed);
      var f := InnerFlags(e.st.flags, k, a);
      if k.Grammar? {
        var r := Sofar([Chunk(PrettyAll(x.children))], NoPrompt, f.(hasContent := HasTextAll(x.children)));
        GrammarPieceShaped(r);
        LeavesShaped(env, ctx, e.inner, e.st, k, a, r, headed);
      } else {
        var start := Sofar(if k.Prompt? then [Header(PromptHeader(a))] else [], NoPrompt, f);
        StartShaped(e.inner, k, a, f);
        ConvertAllShaped(env, e.inner, start, x.children, k.Prompt?);
        var c := ConvertAll(env, e.inner, start, x.children);
        if c.Converted? { LeavesShaped(env, ctx, e.inner, e.st, k, a, c.st, headed); }
      }
    }
  }

  lemma GrammarPieceShaped(r: Sofar)
    requires r.pending.NoPrompt? && |r.done| == 1 && r.done[0].Chunk?
    ensures Pre(Ordinary, r, false)
  {
  }

  lemma StartShaped(inner: Context, k: Kind, a: seq<DT.Attribute>, f: Flags)
    requires k.Prompt? ==> inner.InPrompt?
    ensures Pre(inner, Sofar(if k.Prompt? then [Header(PromptHeader(a))] else [], NoPrompt, f), k.Prompt?)
  {
    HeaderOpens(AttributeOr(a, ATTRIBUTE_BASE), AttributeOr(a, ATTRIBUTE_XMLLANG));
  }

  lemma EntersShaped(env: Environment, ctx: Context, st: Sofar, k: Kind, headed: bool)
    requires Pre(ctx, st, headed) && Enters(env, ctx, st, k).Enter?
    ensures var e := Enters(env, ctx, st, k);
            && Pre(ctx, e.st, headed)
            && (!ctx.Ordinary? ==> e.inner == ctx)
            && (k.Grammar? && !ctx.InPrompt? ==> e.inner.Ordinary? && ctx.Ordinary?)
            && (k.Prompt? ==> e.inner.InPrompt?)
            && (e.inner.Ordinary? ==> ctx.Ordinary? && e.st.pending.NoPrompt?)
            && (k.Prompt? && ctx.Ordinary? ==> e.st.pending.NoPrompt?)
            && (k.Prompt? || k.Grammar? ==> ctx.InPrompt? || ctx.Ordinary?)
            && (e.inner.InPrompt? ==> k.Prompt? || ctx.InPrompt?)
  {
    hide SofarShaped, SpeakHeader;
    if ctx.Ordinary? {
      OpenedShaped(env, st);
      ClosedShaped(st);
      var o := Opened(env, ctx, st);
      FlagsShaped(ctx, o, o.flags.(foreachImplicit := true), headed);
    }
    FlagsShaped(ctx, st, st.flags.(foreachImplicit := true), headed);
  }

  lemma LeavesShaped(env: Environment, ctx: Context, inner: Context, st: Sofar, k: Kind, a: seq<DT.Attribute>, r: Sofar, headed: bool)
    requires Pre(ctx, st, headed) && Pre(inner, r, k.Prompt?)
    requires (k.Prompt? <==> inner.InPrompt? && ctx.Ordinary?) && (inner.Ordinary? ==> ctx.Ordinary? && st.pending.NoPrompt?)
    requires k.Prompt? ==> st.pending.NoPrompt?
    requires !ctx.Ordinary? ==> inner == ctx
    ensures var c := Leaves(ctx, inner, st, k, a, r); c.Converted? ==> Pre(ctx, c.st, headed)
  {
    hide SofarShaped, Code, HasSource;
    var c := Leaves(ctx, inner, st, k, a, r);
    if c.Converted? {
      var pieces := if k.Prompt? then r.done + [Chunk(SPEAK_CLOSE)] else Closed(r).done;
      var p := Built(Code(k), a, k.Choice? || k.Option?, pieces);
      if inner.Ordinary? { ClosedShaped(r); }
      PieceShaped(inner, k, a, Closed(r), pieces);
      if !(ctx.Ordinary? && st.pending.NoPrompt?) {
        assert Promptless(p);
      } else if Promptless(p) {
        PromptlessIsShaped(p);
      }
      PutShaped(ctx, st, p, headed);
      FlagsShaped(ctx, Put(st, p), c.st.flags, headed);
    }
  }

  lemma PieceShaped(inner: Context, k: Kind, a: seq<DT.Attribute>, r: Sofar, pieces: seq<Piece>)
    requires SofarShaped(inner, r, k.Prompt?) && (k.Prompt? ==> inner.InPrompt?)
    requires pieces == if k.Prompt? then r.done + [Chunk(SPEAK_CLOSE)] else r.done
    ensures var p := Built(Code(k), a, k.Choice? || k.Option?, pieces);
            if k.Prompt? then Shaped(p) else if inner.Ordinary? then Shaped(p) else Promptless(p)
  {
    if k.Prompt? {
      assert pieces[..|pieces| - 1] == r.done;
    } else if !inner.Ordinary? {
      assert Code(k) != NODE_PROMPT;
    }
  }

  // ----- On trees -----

  predicate PromptFree(n: DT.Node)
    decreases n
  {
    n.Element? ==> n.name != NODE_PROMPT && forall c :: c in n.children ==> PromptFree(c)
  }

  /** A prompt node: its first text starts with the SSML header, marked at its exact length or
      beyond it, its last text ends with the closing tag, and no prompt lies below it. */
  predicate Framed(n: DT.Node)
    requires n.Element?
  {
    && |n.children| >= 1
    && var first, last := n.children[0], n.children[|n.children| - 1];
    && first.Content? && SPEAK_OPEN <= first.data && |SPEAK_OPEN| <= first.headerLen <= |first.data|
    && last.Content? && |SPEAK_CLOSE| <= |last.data| && last.data[|last.data| - |SPEAK_CLOSE|..] == SPEAK_CLOSE
    && forall c :: c in n.children ==> PromptFree(c)
  }

  predicate PromptsFramed(n: DT.Node)
    decreases n
  {
    n.Element? ==> if n.name == NODE_PROMPT then Framed(n) else forall c :: c in n.children ==> PromptsFramed(c)
  }

  lemma {:induction false} PromptFreeIsFramed(n: DT.Node)
    requires PromptFree(n)
    ensures PromptsFramed(n)
    decreases n
  {
    if n.Element? {
      forall c | c in n.children ensures PromptsFramed(c) { PromptFreeIsFramed(c); }
    }
  }

  lemma PruneKeeps(children: seq<DT.Node>)
    ensures (forall c :: c in children ==> PromptFree(c)) ==> forall c :: c in DT.Prune(children) ==> PromptFree(c)
    ensures (forall c :: c in children ==> PromptsFramed(c)) ==> forall c :: c in DT.Prune(children) ==> PromptsFramed(c)
  {
    forall c | c in DT.Prune(children)
      ensures exists d :: d in children && c == DT.PruneNode(d)
    {
      var i :| 0 <= i < |DT.Prune(children)| && DT.Prune(children)[i] == c;
      assert children[i] in children;
    }
  }

  lemma {:induction false} PromptlessTree(p: Piece, level: DT.DocumentLevel)
    requires p.Built? && Promptless(p)
    ensures PromptFree(NodeOf(p, level))
    decreases p, 1
  {
    PromptlessChildren([], p.inner, level);
    PruneKeeps(Assemble([], p.inner, level));
  }

  lemma {:induction false} PromptlessChildren(cs: seq<DT.Node>, ps: seq<Piece>, level: DT.DocumentLevel)
    requires (forall c :: c in cs ==> PromptFree(c)) && forall q :: q in ps ==> Promptless(q)
    ensures forall c :: c in Assemble(cs, ps, level) ==> PromptFree(c)
    decreases ps, 0
  {
    if ps != [] {
      var last := ps[|ps| - 1];
      PromptlessChildren(cs, ps[..|ps| - 1], level);
      if last.Built? { PromptlessTree(last, level); }
    }
  }

  lemma AppendKeepsFront(cs: seq<DT.Node>, s: string)
    requires cs != [] && cs[0].Content? && cs[0].headerLen <= |cs[0].data|
    ensures var r := DT.AppendText(cs, s);
            && r != [] && r[0].Content? && r[0].headerLen == cs[0].headerLen && cs[0].data <= r[0].data
            && ((forall c :: c in cs ==> PromptFree(c)) ==> forall c :: c in r ==> PromptFree(c))
            && (s != "" ==> r[|r| - 1].Content? && |s| <= |r[|r| - 1].data| && r[|r| - 1].data[|r[|r| - 1].data| - |s|..] == s)
  {
  }

  lemma FirstHeader(s: string, level: DT.DocumentLevel)
    requires s != ""
    ensures Assemble([], [Header(s)], level) == [DT.Content(s, |s|)]
  {
    assert [Header(s)][..0] == [];
    assert Assemble([], [Header(s)][..0], level) == [];
  }

  // From a header on, the children stay framed at the front.
  lemma {:induction false} HeaderStays(ps: seq<Piece>, level: DT.DocumentLevel)
    requires StartsWithHeader(ps)
    ensures var cs := Assemble([], ps, level);
            && cs != [] && cs[0].Content? && SPEAK_OPEN <= cs[0].data && |SPEAK_OPEN| <= cs[0].headerLen <= |cs[0].data|
            && forall c :: c in cs ==> PromptFree(c)
    decreases |ps|
  {
    hide SPEAK_OPEN, DT.AppendText;
    var last := ps[|ps| - 1];
    var front := ps[..|ps| - 1];
    if |ps| == 1 {
      HeaderNotEmpty();
      FirstHeader(last.s, level);
      assert ps == [Header(last.s)];
    } else {
      assert front[1..] == ps[1..][..|ps| - 2];
      HeaderStays(front, level);
      assert last == ps[1..][|ps| - 2];
      var before := Assemble([], front, level);
      if last.Built? {
        PromptlessTree(last, level);
      } else {
        AppendKeepsFront(before, last.s);
      }
    }
  }

  lemma HeaderNotEmpty()
    ensures SPEAK_OPEN != "" && SPEAK_CLOSE != ""
  {
  }

  lemma ShapedPrompt(p: Piece, level: DT.DocumentLevel)
    requires p.Built? && p.code == NODE_PROMPT && Shaped(p)
    ensures Framed(NodeOf(p, level))
  {
    hide PromptFree, SPEAK_OPEN, SPEAK_CLOSE, DT.AppendText, DT.Prune;
    var front := p.inner[..|p.inner| - 1];
    HeaderStays(front, level);
    HeaderNotEmpty();
    var before := Assemble([], front, level);
    AppendKeepsFront(before, SPEAK_CLOSE);
    assert NodeOf(p, level).children == DT.AppendText(before, SPEAK_CLOSE);
  }

  lemma {:induction false} ShapedTree(p: Piece, level: DT.DocumentLevel)
    requires p.Built? && Shaped(p)
    ensures PromptsFramed(NodeOf(p, level))
    decreases p, 1
  {
    hide Framed, Assemble, DT.Prune;
    if p.code == NODE_PROMPT {
      ShapedPrompt(p, level);
    } else {
      ShapedChildren([], p.inner, level);
      PruneKeeps(Assemble([], p.inner, level));
    }
  }

  lemma {:induction false} ShapedChildren(cs: seq<DT.Node>, ps: seq<Piece>, level: DT.DocumentLevel)
    requires (forall c :: c in cs ==> PromptsFramed(c))
    requires forall q :: q in ps ==> Shaped(q)
    ensures forall c :: c in Assemble(cs, ps, level) ==> PromptsFramed(c)
    decreases ps, 0
  {
    hide Framed, Shaped, NodeOf;
    if ps != [] {
      var last := ps[|ps| - 1];
      ShapedChildren(cs, ps[..|ps| - 1], level);
      if last.Built? { ShapedTree(last, level); }
    }
  }

  /** In every converted document each prompt node, explicit or implicit, is a complete SSML
      document from its marked header to its closing tag, and no prompt lies inside another. */
  lemma PromptsAreFramed(env: Environment, x: Xml)
    requires x.Elem? && x.kind.Plain?
    ensures ConvertDocument(env, x).Tree? ==> PromptsFramed(ConvertDocument(env, x).root)
  {
    hide ConvertAll, Shaped, NodeOf, InnerFlags, Code;
    if ConvertDocument(env, x).Tree? {
      var a := x.outcome.attributes;
      var st := Sofar([], NoPrompt, InnerFlags(START_FLAGS, x.kind, a));
      ConvertAllShaped(env, Ordinary, st, x.children, false);
      var r := ConvertAll(env, Ordinary, st, x.children).st;
      ClosedShaped(r);
      PieceShaped(Ordinary, x.kind, a, Closed(r), Closed(r).done);
      ShapedTree(Built(Code(x.kind), a, false, Closed(r).done), env.level);
    }
  }
}
