/** From the events of a document to the stored tree: the converter object makes exactly the
    converted tree, that tree has no blank text and no neighbouring texts, and so the byte stream
    gives it back unless a header is too long for the reader. */
module ConvertedDocuments {
  import opened Wrappers
  import opened Markup
  import opened Whitespace
  import opened ConverterSteps
  import opened ConverterReference
  import opened ConverterCorrectness
  import opened ConverterTheorem
  import opened ConverterDocuments
  import opened DocumentConverter
  import opened DocumentBuilder
  import opened DocumentStream
  import Serializer
  import DT = DocumentTree

  // ----- No piece is blank -----

  /** Text is either nothing at all or has a visible character. */
  predicate Visible(p: Piece)
    decreases p
  {
    match p
    case Built(_, _, _, inner) => forall q :: q in inner ==> Visible(q)
    case _ => p.s == "" || !AllBlank(p.s)
  }

  predicate AllVisible(ps: seq<Piece>) {
    forall p :: p in ps ==> Visible(p)
  }

  predicate SofarVisible(st: Sofar) {
    AllVisible(st.done) && (st.pending.OpenPrompt? ==> AllVisible(st.pending.pieces))
  }

  lemma VisibleBy(s: string, i: nat)
    requires i < |s| && !IsBlank(s[i])
    ensures !AllBlank(s) && Visible(Chunk(s)) && Visible(Header(s))
  {
  }

  lemma TagsVisible(name: string, attrs: seq<XmlAttr>)
    ensures Visible(Chunk(OpenTag(name, attrs))) && Visible(Chunk(CloseTag(name)))
    ensures !AllBlank(OpenTag(name, attrs)) && !AllBlank(CloseTag(name))
  {
    VisibleBy(OpenTag(name, attrs), 0);
    VisibleBy(CloseTag(name), 0);
  }

  lemma HeaderVisible(base: string, lang: string)
    ensures Visible(Header(SpeakHeader(base, lang))) && Visible(Chunk(SPEAK_CLOSE))
  {
    hide TrimUriBase;
    assert SPEAK_END[1] == '>' && SPEAK_CLOSE[0] == '<';
    VisibleBy(SpeakHeader(base, lang), |SpeakHeader(base, lang)| - 1);
    VisibleBy(SPEAK_CLOSE, 0);
  }

  lemma JoinedVisible(s: string, t: string)
    requires (s == "" || !AllBlank(s)) && (t == "" || !AllBlank(t))
    ensures s + t == "" || !AllBlank(s + t)
  {
    if s != "" {
      var i :| 0 <= i < |s| && !IsBlank(s[i]);
      assert (s + t)[i] == s[i];
    } else {
      assert s + t == t;
    }
  }

  lemma {:induction false} PrettyVisible(xs: seq<Xml>)
    ensures Visible(Chunk(PrettyAll(xs)))
    decreases xs
  {
    hide OpenTag, CloseTag, AllBlank;
    if xs != [] {
      var x := xs[0];
      PrettyVisible(xs[1..]);
      if x.Elem? {
        TagsVisible(x.name, x.attrs);
        PrettyVisible(x.children);
        JoinedVisible(OpenTag(x.name, x.attrs), PrettyAll(x.children));
        JoinedVisible(OpenTag(x.name, x.attrs) + PrettyAll(x.children), CloseTag(x.name));
      }
      JoinedVisible(Pretty(x), PrettyAll(xs[1..]));
    }
  }

  lemma PutVisible(st: Sofar, p: Piece)
    requires SofarVisible(st) && Visible(p)
    ensures SofarVisible(Put(st, p))
  {
  }

  lemma OpenedVisible(env: Environment, ctx: Context, st: Sofar)
    requires SofarVisible(st)
    ensures SofarVisible(Opened(env, ctx, st))
  {
    hide SpeakHeader, Visible;
    HeaderVisible(env.baseUri, env.documentLang);
  }

  lemma ClosedVisible(st: Sofar)
    requires SofarVisible(st)
    ensures SofarVisible(Closed(st))
  {
    hide SPEAK_CLOSE;
    HeaderVisible("", "");
    if st.pending.OpenPrompt? {
      var p := Built(NODE_PROMPT, [], false, st.pending.pieces + [Chunk(SPEAK_CLOSE)]);
      assert Visible(p);
    }
  }

  lemma {:induction false} ConvertAllVisible(env: Environment, ctx: Context, st: Sofar, xs: seq<Xml>)
    requires SofarVisible(st)
    ensures var c := ConvertAll(env, ctx, st, xs); c.Converted? ==> SofarVisible(c.st)
    decreases xs, 0
  {
    hide SofarVisible, Convert;
    if xs != [] {
      ConvertVisible(env, ctx, st, xs[0]);
      var c := Convert(env, ctx, st, xs[0]);
      if c.Converted? { ConvertAllVisible(env, ctx, c.st, xs[1..]); }
    }
  }

  lemma FlagsVisible(st: Sofar, f: Flags)
    ensures SofarVisible(st.(flags := f)) <==> SofarVisible(st)
  {
  }

  lemma FocusVisible(st: Sofar)
    requires SofarVisible(st)
    ensures SofarVisible(Focus(st))
  {
  }

  lemma UnfocusVisible(st: Sofar, r: Sofar)
    requires SofarVisible(st) && SofarVisible(r)
    ensures SofarVisible(Unfocus(st, r))
  {
  }

  lemma {:induction false} ConvertVisible(env: Environment, ctx: Context, st: Sofar, x: Xml)
    requires SofarVisible(st)
    ensures var c := Convert(env, ctx, st, x); c.Converted? ==> SofarVisible(c.st)
    decreases x, 1
  {
    hide SofarVisible, ConvertAll, OpenTag, CloseTag, Enters, Leaves, Opened, Put, Focus, Unfocus, AllBlank;
    match x
    case Text(s) =>
      if !AllBlank(s) {
        OpenedVisible(env, ctx, st);
        var st1 := if st.flags.pcdataImpliesPrompt then Opened(env, ctx, st) else st;
        PutVisible(st1, Chunk(s));
        FlagsVisible(Put(st1, Chunk(s)), st1.flags.(hasContent := true));
      }
    case Elem(k, _, _, _, cs) =>
      var open := Chunk(OpenTag(x.name, x.attrs));
      TagsVisible(x.name, x.attrs);
      if ctx.InPrompt? && k.Prompt? {
        ConvertAllVisible(env, ctx, st, cs);
      } else if ctx.InPrompt? && !EmittedInPrompt(k) {
        PutVisible(st, open);
        ConvertAllVisible(env, ctx, Put(st, open), cs);
        var c := ConvertAll(env, ctx, Put(st, open), cs);
        if c.Converted? { PutVisible(c.st, Chunk(CloseTag(x.name))); }
      } else if k.Unknown? || k.Metadata? {
      } else if k.Prompt? && ctx.InImplicit? && st.flags.foreachImplicit {
        ConvertAllVisible(env, ctx, st, cs);
      } else if k.Speech? {
        var st1 := Opened(env, ctx, st);
        OpenedVisible(env, ctx, st);
        FocusVisible(st1);
        PutVisible(Focus(st1), open);
        var inner := InImplicit(if ctx.InImplicit? then ctx.copies + 1 else 1);
        ConvertAllVisible(env, inner, Put(Focus(st1), open), cs);
        var c := ConvertAll(env, inner, Put(Focus(st1), open), cs);
        if c.Converted? {
          PutVisible(c.st, Chunk(CloseTag(x.name)));
          UnfocusVisible(st1, Put(c.st, Chunk(CloseTag(x.name))));
        }
      } else {
        NodeVisible(env, ctx, st, x);
      }
  }

  lemma {:induction false} NodeVisible(env: Environment, ctx: Context, st: Sofar, x: Xml)
    requires SofarVisible(st) && x.Elem? && !x.kind.Unknown? && !x.kind.Metadata? && !x.kind.Speech?
    requires !(ctx.InPrompt? && !EmittedInPrompt(x.kind)) && !(x.kind.Prompt? && ctx.InImplicit? && st.flags.foreachImplicit)
    ensures var c := Convert(env, ctx, st, x); c.Converted? ==> SofarVisible(c.st)
    decreases x, 0
  {
    hide SofarVisible, ConvertAll, OpenTag, CloseTag, Leaves, InnerFlags, Enters, PrettyAll, SpeakHeader, HasTextAll;
    var k := x.kind;
    var e := Enters(env, ctx, st, k);
    if e.Enter? && x.outcome.Accepted? {
      var a := x.outcome.attributes;
      EntersVisible(env, ctx, st, k);
      var f := InnerFlags(e.st.flags, k, a);
      if k.Grammar? {
        var r := Sofar([Chunk(PrettyAll(x.children))], NoPrompt, f.(hasContent := HasTextAll(x.children)));
        PrettyVisible(x.children);
        OnePieceVisible(r);
        LeavesVisible(ctx, e.inner, e.st, k, a, r);
      } else {
        var start := Sofar(if k.Prompt? then [Header(PromptHeader(a))] else [], NoPrompt, f);
        HeaderVisible(AttributeOr(a, ATTRIBUTE_BASE), AttributeOr(a, ATTRIBUTE_XMLLANG));
        OnePieceVisible(start);
        ConvertAllVisible(env, e.inner, start, x.children);
        var c := ConvertAll(env, e.inner, start, x.children);
        if c.Converted? { LeavesVisible(ctx, e.inner, e.st, k, a, c.st); }
      }
    }
  }

  lemma OnePieceVisible(st: Sofar)
    requires |st.done| <= 1 && st.pending.NoPrompt? && (st.done != [] ==> Visible(st.done[0]))
    ensures SofarVisible(st)
  {
  }

  lemma EntersVisible(env: Environment, ctx: Context, st: Sofar, k: Kind)
    requires SofarVisible(st) && Enters(env, ctx, st, k).Enter?
    ensures SofarVisible(Enters(env, ctx, st, k).st)
  {
    hide SofarVisible, Opened, Closed;
    OpenedVisible(env, ctx, st);
    ClosedVisible(st);
    var o := Opened(env, ctx, st);
    FlagsVisible(o, o.flags.(foreachImplicit := true));
    FlagsVisible(st, st.flags.(foreachImplicit := true));
  }

  lemma LeavesVisible(ctx: Context, inner: Context, st: Sofar, k: Kind, a: seq<DT.Attribute>, r: Sofar)
    requires SofarVisible(st) && SofarVisible(r)
    ensures var c := Leaves(ctx, inner, st, k, a, r); c.Converted? ==> SofarVisible(c.st)
  {
    hide Code, HasSource, Closed, Put, SPEAK_CLOSE;
    var c := Leaves(ctx, inner, st, k, a, r);
    if c.Converted? {
      ClosedVisible(r);
      HeaderVisible("", "");
      var pieces := if k.Prompt? then r.done + [Chunk(SPEAK_CLOSE)] else Closed(r).done;
      var p := Built(Code(k), a, k.Choice? || k.Option?, pieces);
      assert Visible(p);
      PutVisible(st, p);
      FlagsVisible(Put(st, p), c.st.flags);
    }
  }

  // ----- No text of the tree is blank -----

  predicate Texted(n: DT.Node)
    decreases n
  {
    match n
    case Content(data, _) => !AllBlank(data)
    case Element(_, _, _, children) => forall c :: c in children ==> Texted(c)
  }

  predicate TextedAll(ns: seq<DT.Node>) {
    forall c :: c in ns ==> Texted(c)
  }

  lemma AppendTexted(ns: seq<DT.Node>, s: string)
    requires TextedAll(ns) && (s == "" || !AllBlank(s))
    ensures TextedAll(DT.AppendText(ns, s))
  {
    if s != "" && DT.AtContent(ns) {
      assert Texted(ns[|ns| - 1]);
      JoinedVisible(ns[|ns| - 1].data, s);
    }
  }

  lemma MarkTexted(ns: seq<DT.Node>, len: int)
    requires TextedAll(ns)
    ensures TextedAll(DT.MarkHeader(ns, len))
  {
    if DT.AtContent(ns) { assert Texted(ns[|ns| - 1]); }
  }

  /** Pruning empties no text that was visible: its normal form has the same words, and is its own. */
  lemma PruneTexted(ns: seq<DT.Node>)
    requires TextedAll(ns)
    ensures TextedAll(DT.Prune(ns))
  {
    hide Normal, AllBlank;
    forall c | c in DT.Prune(ns) ensures Texted(c) {
      var i :| 0 <= i < |DT.Prune(ns)| && DT.Prune(ns)[i] == c;
      assert ns[i] in ns;
      if c.Content? {
        PruneKeepsVisible(ns[i].data);
        PruneKeepsVisible(c.data);
        PruneIsTheNormalForm(ns[i].data, "");
      }
    }
  }

  lemma {:induction false} TreeTexted(p: Piece, level: DT.DocumentLevel)
    requires p.Built? && Visible(p)
    ensures Texted(NodeOf(p, level)) && DT.Maximal(NodeOf(p, level))
    decreases p, 1
  {
    hide DT.Prune, DT.Maximal;
    var cs := Assemble([], p.inner, level);
    ChildrenTexted(p.inner, level);
    PruneTexted(cs);
    DT.PruneKeepsRuns(cs);
    MaximalElement(p.code, p.attributes, level, cs);
    MaximalElement(p.code, p.attributes, level, DT.Prune(cs));
  }

  lemma MaximalElement(name: nat, attributes: seq<DT.Attribute>, level: DT.DocumentLevel, ns: seq<DT.Node>)
    ensures DT.MaximalAll(ns) ==> DT.Maximal(DT.Element(name, attributes, level, ns))
  {
  }

  lemma {:induction false} ChildrenTexted(ps: seq<Piece>, level: DT.DocumentLevel)
    requires AllVisible(ps)
    ensures TextedAll(Assemble([], ps, level)) && DT.MaximalAll(Assemble([], ps, level))
    decreases ps, 0
  {
    hide DT.AppendText, DT.MarkHeader, NodeOf, AllBlank;
    if ps != [] {
      var last := ps[|ps| - 1];
      ChildrenTexted(ps[..|ps| - 1], level);
      var before := Assemble([], ps[..|ps| - 1], level);
      if last.Built? {
        TreeTexted(last, level);
        NodeOfIsElement(last, level);
        NodeKeepsRuns(before, NodeOf(last, level));
      } else {
        AppendTexted(before, last.s);
        DT.AppendTextKeepsRuns(before, last.s);
        MarkTexted(DT.AppendText(before, last.s), -1);
        DT.MarkKeepsRuns(DT.AppendText(before, last.s), -1);
      }
    }
  }

  lemma NodeOfIsElement(p: Piece, level: DT.DocumentLevel)
    requires p.Built?
    ensures NodeOf(p, level).Element?
  {
  }

  lemma NodeKeepsRuns(ns: seq<DT.Node>, n: DT.Node)
    requires DT.MaximalAll(ns) && n.Element? && DT.Maximal(n)
    ensures DT.MaximalAll(ns + [n])
  {
  }

  /** In every converted document no text is blank and no two texts are neighbours. */
  lemma ConvertedTexts(env: Environment, x: Xml)
    requires x.Elem? && x.kind.Plain?
    ensures var r := ConvertDocument(env, x); r.Tree? ==> r.root.Element? && Texted(r.root) && DT.Maximal(r.root)
  {
    hide ConvertAll, Visible, Texted, DT.Maximal, InnerFlags, Code, Assemble;
    if ConvertDocument(env, x).Tree? {
      var a := x.outcome.attributes;
      var st := Sofar([], NoPrompt, InnerFlags(START_FLAGS, x.kind, a));
      OnePieceVisible(st);
      ConvertAllVisible(env, Ordinary, st, x.children);
      var r := ConvertAll(env, Ordinary, st, x.children).st;
      ClosedVisible(r);
      var p := Built(Code(x.kind), a, false, Closed(r).done);
      BuiltVisible(p);
      TreeTexted(p, env.level);
    }
  }

  lemma BuiltVisible(p: Piece)
    requires p.Built? && AllVisible(p.inner)
    ensures Visible(p)
  {
  }

  // ----- Through the byte stream -----

  /** The length of every SSML header survives the reader's signed 32-bit argument. */
  predicate HeadersSurvive(n: DT.Node)
    decreases n
  {
    match n
    case Content(data, h) => h < 0x8000_0000 || (h == |data| && Serializer.ToInt32(h) < 0)
    case Element(_, _, _, children) => forall c :: c in children ==> HeadersSurvive(c)
  }

  lemma {:induction false} TextedStorable(n: DT.Node)
    requires Texted(n)
    ensures Serializer.Storable(n) <==> HeadersSurvive(n)
    decreases n
  {
    match n
    case Content(data, h) => assert data != "";
    case Element(_, _, _, children) =>
      forall c | c in children ensures Serializer.Storable(c) <==> HeadersSurvive(c) { TextedStorable(c); }
  }

  /** Writing a converted document and reading it back gives the document again, levels reset, if
      and only if its header lengths survive: of the texts that get lost in the stream, converted
      documents have no empty ones. */
  lemma ConvertedRoundTrip(env: Environment, x: Xml)
    requires x.Elem? && x.kind.Plain? && ConvertDocument(env, x).Tree? && Serializer.Fits(ConvertDocument(env, x).root)
    ensures var root := ConvertDocument(env, x).root;
            && root.Element?
            && (Serializer.Storable(root) <==> HeadersSurvive(root))
            && var l := Serializer.Load(DT.Empty, Serializer.EncodeBody(root));
            && l.Done? && l.rest == []
            && (l.b == DT.Closed(Serializer.Reset(root)) <==> HeadersSurvive(root))
  {
    hide ConvertDocument, Texted, HeadersSurvive, DT.Maximal, Serializer.Load, Serializer.EncodeBody, Serializer.Reset, Serializer.Storable;
    var root := ConvertDocument(env, x).root;
    ConvertedTexts(env, x);
    TextedStorable(root);
    Serializer.RoundTrip(root);
  }

  // ----- The converter object on a whole document -----

  predicate NoNulInside(x: Xml) {
    forall e :: e in Events(x) && e.StartElement? ==> NoNul(e.attrs)
  }

  /** Parsing a document with a fresh converter: its builder then holds the converted tree, finished;
      or the parse ends refused. For an unclean document only the run itself says how it ends. */
  method Parse(converter: DocumentConverter, x: Xml) returns (thrown: Option<Why>)
    requires converter.Valid() && converter.Modes() == FRESH && converter.doc.state == DT.Empty
    requires x.Elem? && x.kind.Plain? && NoNulInside(x)
    modifies converter, converter.doc
    ensures match ConvertDocument(converter.Env(), x)
            case Tree(root) => thrown.None? && converter.Valid() && converter.doc.state == DT.Closed(root)
            case NotAccepted => thrown == Some(Refused)
            case NotClean => true
    ensures match Run(converter.Env(), FRESH, DT.Empty, Events(x))
            case Next(m, b) => thrown.None? && converter.Modes() == m && converter.doc.state == b
            case Throw(w) => thrown == Some(w)
  {
    hide Run, WatchedRun, ConvertDocument, Events;
    DocumentRuns(converter.Env(), x);
    WatchedIsRun(converter.Env(), FRESH, DT.Empty, Events(x));
    thrown := converter.HandleEvents(Events(x));
  }

  /** A parsed document, written to the stream and read back. */
  method ParseAndStore(converter: DocumentConverter, x: Xml) returns (thrown: Option<Why>, copy: Option<VXMLDocumentRep>)
    requires converter.Valid() && converter.Modes() == FRESH && converter.doc.state == DT.Empty
    requires x.Elem? && x.kind.Plain? && NoNulInside(x)
    requires ConvertDocument(converter.Env(), x).Tree? && Serializer.Fits(ConvertDocument(converter.Env(), x).root)
    modifies converter, converter.doc
    ensures thrown.None? && copy.Some? && copy.value.Valid() && copy.value.state.Closed?
    ensures var root := ConvertDocument(converter.Env(), x).root;
            copy.value.state.root == Serializer.Reset(root) <==> HeadersSurvive(root)
  {
    hide ConvertDocument, HeadersSurvive, Serializer.Fits, Serializer.Storable, DT.Maximal, Texted, NoNulInside, Serializer.Reset;
    ConvertedTexts(converter.Env(), x);
    ConvertedRoundTrip(converter.Env(), x);
    thrown := Parse(converter, x);
    var stored := StoreAndReload(converter.doc);
    copy := Some(stored);
  }
}
