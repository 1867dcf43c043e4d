/** Which elements of a document get nodes in the converted tree: said of the document alone, for
    every conversion, and for each start tag inside an explicit prompt. */
module ConverterElements {
  import opened Wrappers
  import opened Markup
  import opened Whitespace
  import opened ConverterSteps
  import opened ConverterReference
  import opened ConverterCorrectness
  import opened ConverterTheorem
  import opened ConverterDocuments
  import DT = DocumentTree

  // ----- Start tags inside an explicit prompt -----

  /** The elements that keep a node of their own inside an explicit prompt. */
  predicate StandsInPrompt(k: Kind) {
    k == Audio || k == Value || k == Enumerate || k == Foreach || k == Mark || k.Executable?
  }

  /** Inside an explicit prompt, audio, value, enumerate, foreach, mark and executable elements open a
      builder element with their attributes; a prompt is only counted; every other element becomes
      text, whatever it is. */
  lemma PromptStarts(env: Environment, m: Modes, b: DT.Build, k: Kind, name: string, attrs: seq<XmlAttr>,
                     a: seq<DT.Attribute>)
    requires Inv(m, b) && b.Open? && m.explicitPrompt > 0 && m.ignoreDepth == 0 && !m.inGrammar
    ensures var r := Step(env, m, b, StartElement(k, name, attrs, Accepted(a)));
            && r.Next?
            && (StandsInPrompt(k) ==>
                  r.b.Open? && r.b.frames == b.frames + [DT.Frame(Code(k), a, env.level, [])]
                  && r.m.explicitPrompt == m.explicitPrompt && r.m.copyDepth == m.copyDepth)
            && (k.Prompt? ==> r == Next(m.(explicitPrompt := m.explicitPrompt + 1), b))
            && (!StandsInPrompt(k) && !k.Prompt? ==>
                  DT.Text(b, OpenTag(name, attrs)) == Some(r.b) && DT.Depth(r.b) == DT.Depth(b)
                  && r.m == m.(copyDepth := m.copyDepth + 1))
  {
    hide OpenTag, Code, HasSource, PromptHeader, SpeakHeader, ImplicitStart, ImplicitEnd, AddAttributes;
    if StandsInPrompt(k) {
      NestAttributes(b, Code(k), [], a, env.level);
      assert [] + a == a;
    }
  }

  // ----- The elements of a tree and of a document -----

  /** An element with what is below it, texts and prompts aside. */
  datatype Bone = Bone(name: nat, attributes: seq<DT.Attribute>, inner: seq<Bone>)

  function NodeBones(n: DT.Node): seq<Bone>
    decreases n, 1
  {
    match n
    case Content(_, _) => []
    case Element(name, attributes, _, children) =>
      if name == NODE_PROMPT then NodesBones(children) else [Bone(name, attributes, NodesBones(children))]
  }

  function NodesBones(ns: seq<DT.Node>): seq<Bone>
    decreases ns, 0
  {
    if ns == [] then [] else NodesBones(ns[..|ns| - 1]) + NodeBones(ns[|ns| - 1])
  }

  /** Where an element of the document lies. */
  datatype Spot = Plainly | WithinForeach | WithinPrompt

  function Given(o: Attributes): seq<DT.Attribute> {
    if o.Accepted? then o.attributes else []
  }

  /** The elements of the document that should have nodes: metadata has none, grammars have none below
      them, speech elements and prompts pass on those below them, and within a prompt so does
      everything that does not stand there. */
  function XmlBones(x: Xml, at: Spot): seq<Bone>
    decreases x, 1
  {
    match x
    case Text(_) => []
    case Elem(k, _, _, o, cs) =>
      if at.WithinPrompt? && !StandsInPrompt(k) then XmlBonesAll(cs, at)
      else if k.Metadata? || k.Unknown? then []
      else if k.Prompt? then XmlBonesAll(cs, if at.WithinForeach? then at else WithinPrompt)
      else if k.Speech? then XmlBonesAll(cs, at)
      else if k.Grammar? then [Bone(18, Given(o), [])]
      else [Bone(Code(k), Given(o), XmlBonesAll(cs, if k.Foreach? && at.Plainly? then WithinForeach else at))]
  }

  function XmlBonesAll(xs: seq<Xml>, at: Spot): seq<Bone>
    decreases xs, 0
  {
    if xs == [] then [] else XmlBones(xs[0], at) + XmlBonesAll(xs[1..], at)
  }

  // ----- The elements of pieces -----

  function PieceBones(p: Piece): seq<Bone>
    decreases p, 1
  {
    match p
    case Built(code, attributes, _, inner) =>
      if code == NODE_PROMPT then PiecesBones(inner) else [Bone(code, attributes, PiecesBones(inner))]
    case _ => []
  }

  function PiecesBones(ps: seq<Piece>): seq<Bone>
    decreases ps, 0
  {
    if ps == [] then [] else PiecesBones(ps[..|ps| - 1]) + PieceBones(ps[|ps| - 1])
  }

  function SofarBones(st: Sofar): seq<Bone> {
    PiecesBones(st.done) + if st.pending.OpenPrompt? then PiecesBones(st.pending.pieces) else []
  }

  lemma OneMorePiece(ps: seq<Piece>, p: Piece)
    ensures PiecesBones(ps + [p]) == PiecesBones(ps) + PieceBones(p)
  {
    assert (ps + [p])[..|ps|] == ps;
  }

  lemma OneMoreNode(ns: seq<DT.Node>, n: DT.Node)
    ensures NodesBones(ns + [n]) == NodesBones(ns) + NodeBones(n)
  {
    assert (ns + [n])[..|ns|] == ns;
  }

  lemma {:induction false} TreeBones(p: Piece, level: DT.DocumentLevel)
    requires p.Built?
    ensures NodeBones(NodeOf(p, level)) == PieceBones(p)
    ensures NodesBones(NodeOf(p, level).children) == PiecesBones(p.inner)
    decreases p, 1
  {
    hide DT.Prune, NodesBones, PiecesBones;
    AssembledBones(p.inner, level);
    PrunedBones(Assemble([], p.inner, level));
  }

  lemma {:induction false} PrunedBones(ns: seq<DT.Node>)
    ensures NodesBones(DT.Prune(ns)) == NodesBones(ns)
  {
    if ns != [] {
      PrunedBones(ns[..|ns| - 1]);
      assert DT.Prune(ns)[..|ns| - 1] == DT.Prune(ns[..|ns| - 1]);
    }
  }

  lemma AppendedBones(ns: seq<DT.Node>, s: string)
    ensures NodesBones(DT.AppendText(ns, s)) == NodesBones(ns)
  {
    if s != "" {
      if DT.AtContent(ns) {
        var last := ns[|ns| - 1];
        OneMoreNode(ns[..|ns| - 1], DT.Content(last.data + s, last.headerLen));
      } else {
        OneMoreNode(ns, DT.Content(s, 0));
      }
    }
  }

  lemma MarkedBones(ns: seq<DT.Node>, len: int)
    ensures NodesBones(DT.MarkHeader(ns, len)) == NodesBones(ns)
  {
    if DT.AtContent(ns) {
      var last := ns[|ns| - 1];
      OneMoreNode(ns[..|ns| - 1], DT.Content(last.data, if len < 0 then |last.data| else len));
    }
  }

  lemma {:induction false} AssembledBones(ps: seq<Piece>, level: DT.DocumentLevel)
    ensures NodesBones(Assemble([], ps, level)) == PiecesBones(ps)
    decreases ps, 0
  {
    hide DT.AppendText, DT.MarkHeader, NodeBones, NodesBones, NodeOf;
    if ps == [] {
      NoBones();
    } else {
      var last := ps[|ps| - 1];
      var before := Assemble([], ps[..|ps| - 1], level);
      AssembledBones(ps[..|ps| - 1], level);
      if last.Built? {
        TreeBones(last, level);
        OneMoreNode(before, NodeOf(last, level));
      } else {
        AppendedBones(before, last.s);
        MarkedBones(DT.AppendText(before, last.s), -1);
      }
    }
  }

  lemma NoBones()
    ensures NodesBones([]) == [] && PiecesBones([]) == []
  {
  }

  // ----- What the conversion does to them -----

  lemma PutBones(st: Sofar, p: Piece)
    ensures SofarBones(Put(st, p)) == SofarBones(st) + PieceBones(p)
  {
    hide PiecesBones, PieceBones;
    match st.pending
    case OpenPrompt(ps) => OneMorePiece(ps, p);
    case NoPrompt => OneMorePiece(st.done, p);
  }

  lemma OpenedBones(env: Environment, ctx: Context, st: Sofar)
    ensures SofarBones(Opened(env, ctx, st)) == SofarBones(st)
  {
    hide SpeakHeader;
    var h := Header(SpeakHeader(env.baseUri, env.documentLang));
    OneMorePiece([], h);
    assert [] + [h] == [h];
  }

  lemma ClosedBones(st: Sofar)
    ensures SofarBones(Closed(st)) == SofarBones(st) && Closed(st).pending.NoPrompt?
  {
    hide PiecesBones, SPEAK_CLOSE;
    match st.pending
    case OpenPrompt(ps) =>
      OneMorePiece(ps, Chunk(SPEAK_CLOSE));
      OneMorePiece(st.done, Built(NODE_PROMPT, [], false, ps + [Chunk(SPEAK_CLOSE)]));
    case NoPrompt =>
  }

  lemma FlagsBones(st: Sofar, f: Flags)
    ensures SofarBones(st.(flags := f)) == SofarBones(st)
  {
  }

  /** How the context of a conversion and the place in the document go together. */
  predicate Located(ctx: Context, st: Sofar, at: Spot) {
    && (ctx.InPrompt? <==> at.WithinPrompt?)
    && (ctx.Ordinary? ==> at.Plainly?)
    && (st.flags.foreachImplicit ==> ctx.InImplicit? && at.WithinForeach?)
    && (!ctx.Ordinary? ==> st.pending.NoPrompt?)
  }

  lemma {:induction false} ConvertAllBones(env: Environment, ctx: Context, st: Sofar, xs: seq<Xml>, at: Spot)
    requires Located(ctx, st, at)
    ensures var c := ConvertAll(env, ctx, st, xs);
            c.Converted? ==> Located(ctx, c.st, at) && SofarBones(c.st) == SofarBones(st) + XmlBonesAll(xs, at)
    decreases xs, 0
  {
    hide SofarBones, Convert, Located, XmlBones;
    if xs != [] {
      ConvertBones(env, ctx, st, xs[0], at);
      var c := Convert(env, ctx, st, xs[0]);
      if c.Converted? { ConvertAllBones(env, ctx, c.st, xs[1..], at); }
    } else {
      assert SofarBones(st) + [] == SofarBones(st);
    }
  }

  lemma {:induction false} ConvertBones(env: Environment, ctx: Context, st: Sofar, x: Xml, at: Spot)
    requires Located(ctx, st, at)
    ensures var c := Convert(env, ctx, st, x);
            c.Converted? ==> Located(ctx, c.st, at) && SofarBones(c.st) == SofarBones(st) + XmlBones(x, at)
    decreases x, 1
  {
    hide SofarBones, ConvertAll, OpenTag, CloseTag, Enters, Leaves, XmlBonesAll, SpeakHeader, PrettyAll, HasTextAll, InnerFlags;
    NoNewForeach(env, ctx, st, x);
    match x
    case Text(s) =>
      OpenedBones(env, ctx, st);
      var st1 := if st.flags.pcdataImpliesPrompt then Opened(env, ctx, st) else st;
      PutBones(st1, Chunk(s));
      FlagsBones(Put(st1, Chunk(s)), st1.flags.(hasContent := true));
    case Elem(k, n, attrs, _, cs) =>
      var open := Chunk(OpenTag(n, attrs));
      if ctx.InPrompt? && k.Prompt? {
        ConvertAllBones(env, ctx, st, cs, at);
      } else if ctx.InPrompt? && !EmittedInPrompt(k) {
        PutBones(st, open);
        ConvertAllBones(env, ctx, Put(st, open), cs, at);
        var c := ConvertAll(env, ctx, Put(st, open), cs);
        if c.Converted? { PutBones(c.st, Chunk(CloseTag(n))); }
      } else if k.Unknown? || k.Metadata? {
      } else if k.Prompt? && ctx.InImplicit? && st.flags.foreachImplicit {
        ConvertAllBones(env, ctx, st, cs, at);
      } else if k.Speech? {
        SpeechBones(env, ctx, st, x, at);
      } else {
        ElementBones(env, ctx, st, x, at);
      }
  }

  lemma FocusBones(st: Sofar, r: Sofar)
    requires r.pending.NoPrompt?
    ensures SofarBones(Unfocus(st, r)) == (if st.pending.OpenPrompt? then PiecesBones(st.done) else []) + SofarBones(r)
    ensures SofarBones(st) == (if st.pending.OpenPrompt? then PiecesBones(st.done) else []) + SofarBones(Focus(st))
  {
    hide PiecesBones;
  }

  lemma {:induction false} SpeechBones(env: Environment, ctx: Context, st: Sofar, x: Xml, at: Spot)
    requires Located(ctx, st, at) && x.Elem? && x.kind.Speech? && !ctx.InPrompt?
    ensures var c := Convert(env, ctx, st, x);
            c.Converted? ==> Located(ctx, c.st, at) && SofarBones(c.st) == SofarBones(st) + XmlBones(x, at)
    decreases x, 0
  {
    hide SofarBones, PiecesBones, ConvertAll, OpenTag, CloseTag, XmlBonesAll, SpeakHeader;
    NoNewForeach(env, ctx, st, x);
    var open, close := Chunk(OpenTag(x.name, x.attrs)), Chunk(CloseTag(x.name));
    var st1 := Opened(env, ctx, st);
    var inner := InImplicit(if ctx.InImplicit? then ctx.copies + 1 else 1);
    OpenedBones(env, ctx, st);
    PutBones(Focus(st1), open);
    ConvertAllBones(env, inner, Put(Focus(st1), open), x.children, at);
    var c := ConvertAll(env, inner, Put(Focus(st1), open), x.children);
    if c.Converted? {
      PutBones(c.st, close);
      FocusBones(st1, Put(c.st, close));
    }
  }

  lemma EntersBones(env: Environment, ctx: Context, st: Sofar, k: Kind)
    requires Enters(env, ctx, st, k).Enter?
    ensures SofarBones(Enters(env, ctx, st, k).st) == SofarBones(st)
  {
    hide SofarBones, Opened, Closed;
    OpenedBones(env, ctx, st);
    ClosedBones(st);
    var o := Opened(env, ctx, st);
    FlagsBones(o, o.flags.(foreachImplicit := true));
    FlagsBones(st, st.flags.(foreachImplicit := true));
  }

  // The place of the children of an element with a node of its own.
  function InnerSpot(k: Kind, at: Spot): Spot {
    if k.Prompt? then WithinPrompt else if k.Foreach? && at.Plainly? then WithinForeach else at
  }

  lemma EntersLocated(env: Environment, ctx: Context, st: Sofar, k: Kind, at: Spot, start: Sofar)
    requires Located(ctx, st, at) && Enters(env, ctx, st, k).Enter? && GetsNode(ctx, st, k) && start.pending.NoPrompt?
    requires start.flags.foreachImplicit == Enters(env, ctx, st, k).st.flags.foreachImplicit
    ensures var e := Enters(env, ctx, st, k);
            && Located(e.inner, start, InnerSpot(k, at))
            && (k.Prompt? ==> !ctx.InImplicit?)
            && (k.Grammar? ==> ctx.Ordinary?)
            && (!ctx.Ordinary? ==> e.st.pending.NoPrompt?)
  {
    hide SpeakHeader;
  }

  lemma LeavesBones(ctx: Context, inner: Context, st: Sofar, k: Kind, a: seq<DT.Attribute>, r: Sofar)
    requires k.Prompt? ==> r.pending.NoPrompt?
    ensures var c := Leaves(ctx, inner, st, k, a, r);
            c.Converted? ==>
              && SofarBones(c.st) == SofarBones(st) + (if k.Prompt? then SofarBones(r) else [Bone(Code(k), a, SofarBones(r))])
              && c.st.pending.NoPrompt? == st.pending.NoPrompt?
  {
    hide PiecesBones, Code, HasSource, Closed, SPEAK_CLOSE;
    var c := Leaves(ctx, inner, st, k, a, r);
    if c.Converted? {
      ClosedBones(r);
      DoneBones(Closed(r));
      if k.Prompt? { DoneBones(r); }
      CodeIsNotPrompt(k);
      OneMorePiece(r.done, Chunk(SPEAK_CLOSE));
      var pieces := if k.Prompt? then r.done + [Chunk(SPEAK_CLOSE)] else Closed(r).done;
      var p := Built(Code(k), a, k.Choice? || k.Option?, pieces);
      PutBones(st, p);
      FlagsBones(Put(st, p), c.st.flags);
    }
  }

  lemma StartBones(k: Kind, a: seq<DT.Attribute>, f: Flags)
    ensures SofarBones(InnerStart(k, a, f)) == []
  {
    hide PromptHeader;
    if k.Prompt? {
      OneMorePiece([], Header(PromptHeader(a)));
      assert [] + [Header(PromptHeader(a))] == [Header(PromptHeader(a))];
    }
  }

  lemma GrammarBones(s: string, f: Flags)
    ensures SofarBones(Sofar([Chunk(s)], NoPrompt, f)) == []
  {
    OneMorePiece([], Chunk(s));
    assert [] + [Chunk(s)] == [Chunk(s)];
  }

  lemma {:induction false} ElementBones(env: Environment, ctx: Context, st: Sofar, x: Xml, at: Spot)
    requires Located(ctx, st, at) && x.Elem? && GetsNode(ctx, st, x.kind)
    requires !(ctx.InPrompt? && x.kind.Prompt?)
    ensures var c := Convert(env, ctx, st, x);
            c.Converted? ==> Located(ctx, c.st, at) && SofarBones(c.st) == SofarBones(st) + XmlBones(x, at)
    decreases x, 0
  {
    hide SofarBones, ConvertAll, Enters, Leaves, XmlBonesAll, PrettyAll, HasTextAll, PromptHeader, Code, Located;
    NoNewForeach(env, ctx, st, x);
    var k := x.kind;
    var e := Enters(env, ctx, st, k);
    if e.Enter? && x.outcome.Accepted? && !k.Description? && !k.Substitute? {
      var a := x.outcome.attributes;
      var f := InnerFlags(e.st.flags, k, a);
      EntersBones(env, ctx, st, k);
      EntersLocated(env, ctx, st, k, at, InnerStart(k, a, f));
      SpotOf(env, ctx, st, k, at);
      if k.Grammar? {
        var r := Sofar([Chunk(PrettyAll(x.children))], NoPrompt, f.(hasContent := HasTextAll(x.children)));
        GrammarBones(PrettyAll(x.children), r.flags);
        LeavesBones(ctx, e.inner, e.st, k, a, r);
        assert Code(k) == 18 by { GrammarNumber(); }
      } else {
        var start := InnerStart(k, a, f);
        StartBones(k, a, f);
        ConvertAllBones(env, e.inner, start, x.children, InnerSpot(k, at));
        var c := ConvertAll(env, e.inner, start, x.children);
        if c.Converted? {
          assert [] + XmlBonesAll(x.children, InnerSpot(k, at)) == XmlBonesAll(x.children, InnerSpot(k, at));
          NoPendingInPrompt(e.inner, c.st, InnerSpot(k, at));
          LeavesBones(ctx, e.inner, e.st, k, a, c.st);
        }
      }
      if Convert(env, ctx, st, x).Converted? { LocatedAfter(env, ctx, st, x, at); }
    }
  }

  lemma GrammarNumber()
    ensures Code(Grammar) == 18
  {
  }

  lemma NoPendingInPrompt(ctx: Context, st: Sofar, at: Spot)
    requires Located(ctx, st, at)
    ensures at.WithinPrompt? ==> st.pending.NoPrompt?
  {
  }

  // What the reference and the document make of the kind agree in this place.
  lemma SpotOf(env: Environment, ctx: Context, st: Sofar, k: Kind, at: Spot)
    requires Located(ctx, st, at) && GetsNode(ctx, st, k) && !(ctx.InPrompt? && k.Prompt?) && Enters(env, ctx, st, k).Enter?
    ensures at.WithinPrompt? ==> StandsInPrompt(k)
    ensures k.Prompt? ==> at.Plainly?
  {
  }

  lemma LocatedAfter(env: Environment, ctx: Context, st: Sofar, x: Xml, at: Spot)
    requires Located(ctx, st, at) && x.Elem? && GetsNode(ctx, st, x.kind) && Convert(env, ctx, st, x).Converted?
    requires Enters(env, ctx, st, x.kind).Enter? && !(ctx.InPrompt? && x.kind.Prompt?)
    ensures Located(ctx, Convert(env, ctx, st, x).st, at)
  {
    hide ConvertAll, PrettyAll, HasTextAll, PromptHeader, Code, SpeakHeader, HasSource;
    NoNewForeach(env, ctx, st, x);
  }

  /** In every converted document exactly the elements that should have nodes have them, in their order
      and nesting and with their attributes; prompts aside, no other element is there. */
  lemma ElementsAreKept(env: Environment, x: Xml)
    requires x.Elem? && x.kind.Plain?
    ensures ConvertDocument(env, x).Tree? ==>
              NodeBones(ConvertDocument(env, x).root) == [Bone(Code(x.kind), Given(x.outcome), XmlBonesAll(x.children, Plainly))]
  {
    hide ConvertAll, NodeOf, Code, Closed, SofarBones, NodeBones, InnerFlags;
    if ConvertDocument(env, x).Tree? {
      var a := x.outcome.attributes;
      var st := Sofar([], NoPrompt, InnerFlags(START_FLAGS, x.kind, a));
      NoForeachAtStart(x.kind, a);
      assert SofarBones(st) == [] by { EmptyBones(st); }
      ConvertAllBones(env, Ordinary, st, x.children, Plainly);
      var r := ConvertAll(env, Ordinary, st, x.children).st;
      assert [] + XmlBonesAll(x.children, Plainly) == XmlBonesAll(x.children, Plainly);
      ClosedBones(r);
      CodeIsNotPrompt(x.kind);
      TreeBones(Built(Code(x.kind), a, false, Closed(r).done), env.level);
      DoneBones(Closed(r));
    }
  }

  lemma EmptyBones(st: Sofar)
    requires st.done == [] && st.pending.NoPrompt?
    ensures SofarBones(st) == []
  {
  }

  lemma DoneBones(st: Sofar)
    requires st.pending.NoPrompt?
    ensures SofarBones(st) == PiecesBones(st.done)
  {
  }

  /** An explicit prompt that is converted is one prompt node, and below it has a node for each audio,
      value, enumerate, foreach, mark and executable element of the prompt. */
  lemma PromptHolds(env: Environment, st: Sofar, x: Xml)
    requires x.Elem? && x.kind.Prompt? && x.outcome.Accepted? && !st.flags.foreachImplicit
    ensures var c := Convert(env, Ordinary, st, x);
            c.Converted? ==>
              && c.st.pending.NoPrompt? && |c.st.done| == |Closed(st).done| + 1 && c.st.done[..|Closed(st).done|] == Closed(st).done
              && var p := c.st.done[|Closed(st).done|];
              && p.Built? && p.code == NODE_PROMPT && p.attributes == x.outcome.attributes
              && NodesBones(NodeOf(p, env.level).children) == XmlBonesAll(x.children, WithinPrompt)
  {
    hide ConvertAll, PromptHeader, HasSource, NodeOf, PiecesBones, SPEAK_CLOSE, XmlBonesAll;
    var a := x.outcome.attributes;
    var start := InnerStart(x.kind, a, InnerFlags(Closed(st).flags, x.kind, a));
    StartBones(x.kind, a, start.flags);
    ConvertAllBones(env, InPrompt, start, x.children, WithinPrompt);
    var c := ConvertAll(env, InPrompt, start, x.children);
    if c.Converted? {
      OneMorePiece(c.st.done, Chunk(SPEAK_CLOSE));
      TreeBones(Built(NODE_PROMPT, a, false, c.st.done + [Chunk(SPEAK_CLOSE)]), env.level);
      assert [] + XmlBonesAll(x.children, WithinPrompt) == XmlBonesAll(x.children, WithinPrompt);
    }
  }
}
