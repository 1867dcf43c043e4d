/** Whole documents: what the converter makes of them, which ones it closes cleanly, and what the
    converted trees look like. */
module ConverterDocuments {
  import opened Wrappers
  import opened Markup
  import opened Whitespace
  import opened ConverterSteps
  import opened ConverterReference
  import opened ConverterCorrectness
  import opened ConverterTheorem
  import DT = DocumentTree

  const START_FLAGS := Flags(true, false, true, false)

  datatype DocumentResult = Tree(root: DT.Node) | NotAccepted | NotClean

  /** The conversion of a document with an ordinary root element, such as vxml or defaults. */
  function ConvertDocument(env: Environment, x: Xml): DocumentResult
    requires x.Elem? && x.kind.Plain?
  {
    if x.outcome.Rejected? then NotAccepted
    else
      var a := x.outcome.attributes;
      match ConvertAll(env, Ordinary, Sofar([], NoPrompt, InnerFlags(START_FLAGS, x.kind, a)), x.children)
      case Converted(r) => Tree(NodeOf(Built(Code(x.kind), a, false, Closed(r).done), env.level))
      case Refusal => NotAccepted
      case Unclean => NotClean
  }

  lemma RootStart(env: Environment, x: Xml)
    requires x.Elem? && x.kind.Plain?
    ensures Inv(FRESH, DT.Empty)
    ensures var ev := StartElement(x.kind, x.name, x.attrs, x.outcome);
            && ClosesItsOwn(FRESH, DT.Empty, ev)
            && Step(env, FRESH, DT.Empty, ev)
               == if x.outcome.Rejected? then Throw(Refused)
                  else Next(ModesOf(Ordinary, Sofar([], NoPrompt, InnerFlags(START_FLAGS, x.kind, x.outcome.attributes)), 1, 0),
                            RootBase(env, x.kind, x.outcome.attributes))
  {
    hide HasSource, BuildElement, AddAttributes, Step, Code;
    RootIsBuilt(env, x);
    RootElement(env, x);
  }

  // Nothing but the element itself is built at the root.
  lemma RootIsBuilt(env: Environment, x: Xml)
    requires x.Elem? && x.kind.Plain?
    ensures Inv(FRESH, DT.Empty)
    ensures Step(env, FRESH, DT.Empty, StartElement(x.kind, x.name, x.attrs, x.outcome))
            == BuildElement(env, FRESH, DT.Empty, x.kind, x.outcome)
  {
    hide BuildElement, CopyStart, ImplicitStart, ImplicitEnd, Code;
  }

  lemma RootElement(env: Environment, x: Xml)
    requires x.Elem? && x.kind.Plain?
    ensures BuildElement(env, FRESH, DT.Empty, x.kind, x.outcome)
            == if x.outcome.Rejected? then Throw(Refused)
               else Next(FRESH, RootBase(env, x.kind, x.outcome.attributes))
  {
    hide HasSource, PromptHeader, AddAttributes, Code;
    if x.outcome.Accepted? {
      RootAttributes(Code(x.kind), [], x.outcome.attributes, env.level);
      assert [] + x.outcome.attributes == x.outcome.attributes;
    }
  }

  function RootBase(env: Environment, k: Kind, attributes: seq<DT.Attribute>): (r: DT.Build)
    ensures r.Open? && r.Ok() && |r.frames| == 1
  {
    DT.Open([DT.Frame(Code(k), attributes, env.level, [])])
  }

  lemma {:induction false} RootAttributes(code: nat, a0: seq<DT.Attribute>, attributes: seq<DT.Attribute>, level: DT.DocumentLevel)
    ensures AddAttributes(DT.Open([DT.Frame(code, a0, level, [])]), attributes)
            == Some(DT.Open([DT.Frame(code, a0 + attributes, level, [])]))
    decreases attributes
  {
    if attributes == [] {
      assert a0 + attributes == a0;
    } else {
      hide DT.AddAttr;
      RootAttribute(code, a0, attributes[0], level);
      RootAttributes(code, a0 + [attributes[0]], attributes[1..], level);
      assert a0 + [attributes[0]] + attributes[1..] == a0 + attributes;
    }
  }

  lemma RootAttribute(code: nat, a0: seq<DT.Attribute>, a: DT.Attribute, level: DT.DocumentLevel)
    ensures DT.AddAttr(DT.Open([DT.Frame(code, a0, level, [])]), a) == Some(DT.Open([DT.Frame(code, a0 + [a], level, [])]))
  {
    var f := DT.Frame(code, a0 + [a], level, []);
    assert DT.SetTop([DT.Frame(code, a0, level, [])], f) == [f];
  }

  lemma RootEnd(env: Environment, x: Xml, r: Sofar)
    requires x.Elem? && x.kind.Plain? && x.outcome.Accepted?
    requires Fits(Ordinary, r, RootBase(env, x.kind, x.outcome.attributes))
    ensures var b0 := RootBase(env, x.kind, x.outcome.attributes);
            var m, b := ModesOf(Ordinary, r, 1, 0), BuildOf(b0, r, env.level);
            var ev := EndElement(x.kind, x.name);
            var root := NodeOf(Built(Code(x.kind), x.outcome.attributes, false, Closed(r).done), env.level);
            && Inv(m, b) && ClosesItsOwn(m, b, ev)
            && Step(env, m, b, ev) == Next(ModesOf(Ordinary, Closed(r), 1, 0), DT.Closed(root))
  {
    hide Assemble, ImplicitEnd, SpeakHeader;
    var b0 := RootBase(env, x.kind, x.outcome.attributes);
    FitsInv(Ordinary, r, b0, 1, 0, env.level);
    FocusBuild(b0, r, env.level);
    CodeIsNotPrompt(x.kind);
    if r.pending.OpenPrompt? { ClosedBuild(b0, r, env.level); }
    SettledBuild(b0, Closed(r), env.level);
  }

  /** Every document with an ordinary root: a fresh converter ends with no builder element open, no
      prompt open, no copied tag open and exactly the converted tree; or it refuses the document;
      or some event closes an element that is not its own. The last happens for the unclean
      documents and for no others, and outside it the builder is never misused. */
  lemma DocumentRuns(env: Environment, x: Xml)
    requires x.Elem? && x.kind.Plain?
    ensures Inv(FRESH, DT.Empty)
    ensures match ConvertDocument(env, x)
            case Tree(root) =>
              exists f :: WatchedRun(env, FRESH, DT.Empty, Events(x))
                          == Finished(ModesOf(Ordinary, Sofar([], NoPrompt, f), 1, 0), DT.Closed(root))
                          && !f.foreachImplicit
            case NotAccepted => WatchedRun(env, FRESH, DT.Empty, Events(x)) == Stopped(Refused)
            case NotClean => WatchedRun(env, FRESH, DT.Empty, Events(x)) == Misplaced
  {
    hide Step, ClosesItsOwn, WatchedRun, ConvertAll, BuildOf, NodeOf, InnerFlags;
    RootStart(env, x);
    Bracketed(env, FRESH, DT.Empty, StartElement(x.kind, x.name, x.attrs, x.outcome), EventsAll(x.children), EndElement(x.kind, x.name));
    if x.outcome.Accepted? {
      var b0 := RootBase(env, x.kind, x.outcome.attributes);
      var f := InnerFlags(START_FLAGS, x.kind, x.outcome.attributes);
      var st := Sofar([], NoPrompt, f);
      FreshBuild(b0, f, env.level);
      NoForeachAtStart(x.kind, x.outcome.attributes);
      ConvertAllRuns(env, Ordinary, st, x.children, b0, 1, 0);
      var c := ConvertAll(env, Ordinary, st, x.children);
      if c.Converted? {
        RootEnd(env, x, c.st);
        assert ModesOf(Ordinary, Closed(c.st), 1, 0) == ModesOf(Ordinary, Sofar([], NoPrompt, c.st.flags), 1, 0);
      }
    }
  }

  lemma NoForeachAtStart(k: Kind, a: seq<DT.Attribute>)
    ensures !InnerFlags(START_FLAGS, k, a).foreachImplicit
  {
  }

  // ----- Documents that are clean -----

  /** Content that may stand under an implicit prompt's SSML, audio, value or enumerate. */
  predicate Speakable(x: Xml)
    decreases x
  {
    match x
    case Text(_) => true
    case Elem(k, _, _, _, cs) =>
      if k.Unknown? || k.Metadata? then true
      else if k.Speech? || k.Audio? || k.Value? || k.Enumerate? then forall c :: c in cs ==> Speakable(c)
      else if k.Foreach? then forall c :: c in cs ==> Iterable(c)
      else false
  }

  /** Content that may stand in a foreach outside any prompt element: speech, executable content,
      marks and prompts, but no second foreach. */
  predicate Iterable(x: Xml)
    decreases x
  {
    match x
    case Text(_) => true
    case Elem(k, _, _, _, cs) =>
      if k.Unknown? || k.Metadata? then true
      else if k.Speech? || k.Audio? || k.Value? || k.Enumerate? || k.Mark? || k.Executable? || k.Prompt?
      then forall c :: c in cs ==> Iterable(c)
      else false
  }

  /** Text, and audio, value and enumerate over the same: nothing that must open a prompt. */
  predicate Quiet(x: Xml)
    decreases x
  {
    match x
    case Text(_) => true
    case Elem(k, _, _, _, cs) =>
      k.Metadata? || ((k.Audio? || k.Value? || k.Enumerate?) && forall c :: c in cs ==> Quiet(c))
  }

  /** Documents every implicit prompt of which can end cleanly. `plain` says that an enclosing
      script, log, choice or option may make text plain. */
  predicate Admissible(x: Xml, plain: bool)
    decreases x
  {
    match x
    case Text(_) => true
    case Elem(k, _, _, _, cs) =>
      if k.Unknown? || k.Metadata? || k.Description? || k.Substitute? || k.Prompt? || k.Grammar? then true
      else if k.Speech? then forall c :: c in cs ==> Speakable(c)
      else if k.Audio? || k.Value? || k.Enumerate? then
        forall c :: c in cs ==> Speakable(c) && (plain ==> Quiet(c))
      else if k.Foreach? then forall c :: c in cs ==> Iterable(c)
      else if k.Mark? then false
      else forall c :: c in cs ==> Admissible(c, plain || HoldsPlainText(k))
  }

  // Inside an explicit prompt nothing is ever unclean.
  lemma {:induction false} InPromptClean(env: Environment, st: Sofar, x: Xml)
    requires st.pending.NoPrompt?
    ensures !Convert(env, InPrompt, st, x).Unclean?
    ensures Convert(env, InPrompt, st, x).Converted? ==> Convert(env, InPrompt, st, x).st.pending.NoPrompt?
    decreases x, 1
  {
    hide PrettyAll, PromptHeader, OpenTag, CloseTag, HasSource, Code;
    if x.Elem? {
      if !EmittedInPrompt(x.kind) {
        InPromptCleanAll(env, st, x.children);
        InPromptCleanAll(env, Put(st, Chunk(OpenTag(x.name, x.attrs))), x.children);
      } else if x.outcome.Accepted? {
        InPromptCleanAll(env, InnerStart(x.kind, x.outcome.attributes, InnerFlags(st.flags, x.kind, x.outcome.attributes)), x.children);
      }
    }
  }

  lemma {:induction false} InPromptCleanAll(env: Environment, st: Sofar, xs: seq<Xml>)
    requires st.pending.NoPrompt?
    ensures !ConvertAll(env, InPrompt, st, xs).Unclean?
    ensures ConvertAll(env, InPrompt, st, xs).Converted? ==> ConvertAll(env, InPrompt, st, xs).st.pending.NoPrompt?
    decreases xs, 0
  {
    if xs != [] {
      InPromptClean(env, st, xs[0]);
      var c := Convert(env, InPrompt, st, xs[0]);
      if c.Converted? { InPromptCleanAll(env, c.st, xs[1..]); }
    }
  }

  lemma {:induction false} IterableClean(env: Environment, c: nat, st: Sofar, x: Xml)
    requires Iterable(x) && st.flags.foreachImplicit
    ensures !Convert(env, InImplicit(c), st, x).Unclean?
    ensures Convert(env, InImplicit(c), st, x).Converted? ==> Convert(env, InImplicit(c), st, x).st.flags.foreachImplicit
    ensures Convert(env, InImplicit(c), st, x).Converted? && st.pending.NoPrompt? ==> Convert(env, InImplicit(c), st, x).st.pending.NoPrompt?
    decreases x, 1
  {
    hide PrettyAll, PromptHeader, OpenTag, CloseTag, HasSource, Code;
    if x.Elem? && !x.kind.Unknown? && !x.kind.Metadata? {
      if x.kind.Prompt? {
        IterableCleanAll(env, c, st, x.children);
      } else if x.kind.Speech? {
        IterableCleanAll(env, c + 1, Put(Focus(st), Chunk(OpenTag(x.name, x.attrs))), x.children);
      } else if x.outcome.Accepted? {
        IterableCleanAll(env, c, InnerStart(x.kind, x.outcome.attributes, InnerFlags(st.flags, x.kind, x.outcome.attributes)), x.children);
      }
    }
  }

  lemma {:induction false} IterableCleanAll(env: Environment, c: nat, st: Sofar, xs: seq<Xml>)
    requires (forall x :: x in xs ==> Iterable(x)) && st.flags.foreachImplicit
    ensures !ConvertAll(env, InImplicit(c), st, xs).Unclean?
    ensures ConvertAll(env, InImplicit(c), st, xs).Converted? ==> ConvertAll(env, InImplicit(c), st, xs).st.flags.foreachImplicit
    ensures ConvertAll(env, InImplicit(c), st, xs).Converted? && st.pending.NoPrompt? ==> ConvertAll(env, InImplicit(c), st, xs).st.pending.NoPrompt?
    decreases xs, 0
  {
    if xs != [] {
      IterableClean(env, c, st, xs[0]);
      var r := Convert(env, InImplicit(c), st, xs[0]);
      if r.Converted? { IterableCleanAll(env, c, r.st, xs[1..]); }
    }
  }

  lemma {:induction false} SpeakableClean(env: Environment, c: nat, st: Sofar, x: Xml)
    requires Speakable(x)
    ensures !Convert(env, InImplicit(c), st, x).Unclean?
    ensures Convert(env, InImplicit(c), st, x).Converted? && st.pending.NoPrompt? ==> Convert(env, InImplicit(c), st, x).st.pending.NoPrompt?
    decreases x, 1
  {
    hide PrettyAll, PromptHeader, OpenTag, CloseTag, HasSource, Code;
    if x.Elem? && !x.kind.Unknown? && !x.kind.Metadata? {
      if x.kind.Speech? {
        SpeakableCleanAll(env, c + 1, Put(Focus(st), Chunk(OpenTag(x.name, x.attrs))), x.children);
      } else if x.outcome.Accepted? {
        var a := x.outcome.attributes;
        if x.kind.Foreach? {
          var f := st.flags.(foreachImplicit := true);
          IterableCleanAll(env, c, InnerStart(x.kind, a, InnerFlags(f, x.kind, a)), x.children);
        } else {
          SpeakableCleanAll(env, c, InnerStart(x.kind, a, InnerFlags(st.flags, x.kind, a)), x.children);
        }
      }
    }
  }

  lemma {:induction false} SpeakableCleanAll(env: Environment, c: nat, st: Sofar, xs: seq<Xml>)
    requires forall x :: x in xs ==> Speakable(x)
    ensures !ConvertAll(env, InImplicit(c), st, xs).Unclean?
    ensures ConvertAll(env, InImplicit(c), st, xs).Converted? && st.pending.NoPrompt? ==> ConvertAll(env, InImplicit(c), st, xs).st.pending.NoPrompt?
    decreases xs, 0
  {
    if xs != [] {
      SpeakableClean(env, c, st, xs[0]);
      var r := Convert(env, InImplicit(c), st, xs[0]);
      if r.Converted? { SpeakableCleanAll(env, c, r.st, xs[1..]); }
    }
  }

  lemma {:induction false} QuietClean(env: Environment, st: Sofar, x: Xml)
    requires Quiet(x) && !st.flags.pcdataImpliesPrompt && st.pending.NoPrompt?
    ensures var r := Convert(env, Ordinary, st, x);
            !r.Unclean? && (r.Converted? ==> !r.st.flags.pcdataImpliesPrompt && r.st.pending.NoPrompt?)
    decreases x, 1
  {
    hide PrettyAll, PromptHeader, OpenTag, CloseTag, HasSource, Code;
    if x.Elem? && !x.kind.Metadata? && x.outcome.Accepted? {
      var a := x.outcome.attributes;
      QuietCleanAll(env, InnerStart(x.kind, a, InnerFlags(st.flags, x.kind, a)), x.children);
    }
  }

  lemma {:induction false} QuietCleanAll(env: Environment, st: Sofar, xs: seq<Xml>)
    requires (forall x :: x in xs ==> Quiet(x)) && !st.flags.pcdataImpliesPrompt && st.pending.NoPrompt?
    ensures var r := ConvertAll(env, Ordinary, st, xs);
            !r.Unclean? && (r.Converted? ==> !r.st.flags.pcdataImpliesPrompt && r.st.pending.NoPrompt?)
    decreases xs, 0
  {
    if xs != [] {
      QuietClean(env, st, xs[0]);
      var r := Convert(env, Ordinary, st, xs[0]);
      if r.Converted? { QuietCleanAll(env, r.st, xs[1..]); }
    }
  }

  // Where text implies a prompt, it still does after any node.
  lemma {:induction false} PcdataStays(env: Environment, ctx: Context, st: Sofar, x: Xml)
    requires st.flags.pcdataImpliesPrompt
    ensures var c := Convert(env, ctx, st, x); c.Converted? ==> c.st.flags.pcdataImpliesPrompt
    decreases x, 1
  {
    hide PrettyAll, SpeakHeader, OpenTag, CloseTag, HasSource, Code;
    if x.Elem? {
      var k := x.kind;
      if ctx.InPrompt? && (k.Prompt? || !EmittedInPrompt(k)) {
        PcdataStaysAll(env, ctx, st, x.children);
        PcdataStaysAll(env, ctx, Put(st, Chunk(OpenTag(x.name, x.attrs))), x.children);
      } else if k.Unknown? || k.Metadata? {
      } else if k.Prompt? && ctx.InImplicit? && st.flags.foreachImplicit {
        PcdataStaysAll(env, ctx, st, x.children);
      } else if k.Speech? {
        var st1 := Opened(env, ctx, st);
        PcdataStaysAll(env, InImplicit(if ctx.InImplicit? then ctx.copies + 1 else 1),
                       Put(Focus(st1), Chunk(OpenTag(x.name, x.attrs))), x.children);
      } else if x.outcome.Accepted? {
        var e := Enters(env, ctx, st, k);
        if e.Enter? && !k.Grammar? && !HoldsPlainText(k) {
          PcdataStaysAll(env, e.inner, InnerStart(k, x.outcome.attributes, InnerFlags(e.st.flags, k, x.outcome.attributes)), x.children);
        }
      }
    }
  }

  lemma {:induction false} PcdataStaysAll(env: Environment, ctx: Context, st: Sofar, xs: seq<Xml>)
    requires st.flags.pcdataImpliesPrompt
    ensures var c := ConvertAll(env, ctx, st, xs); c.Converted? ==> c.st.flags.pcdataImpliesPrompt
    decreases xs, 0
  {
    if xs != [] {
      PcdataStays(env, ctx, st, xs[0]);
      var c := Convert(env, ctx, st, xs[0]);
      if c.Converted? { PcdataStaysAll(env, ctx, c.st, xs[1..]); }
    }
  }

  lemma {:induction false} AdmissibleClean(env: Environment, st: Sofar, x: Xml, plain: bool)
    requires Admissible(x, plain) && !st.flags.foreachImplicit && (plain || st.flags.pcdataImpliesPrompt)
    ensures !Convert(env, Ordinary, st, x).Unclean?
    decreases x, 1
  {
    hide PrettyAll, SpeakHeader, OpenTag, CloseTag, HasSource, Code, HasTextAll;
    if x.Elem? && !x.kind.Unknown? && !x.kind.Metadata? {
      var k := x.kind;
      if k.Speech? {
        SpeakableCleanAll(env, 1, Put(Focus(Opened(env, Ordinary, st)), Chunk(OpenTag(x.name, x.attrs))), x.children);
      } else if x.outcome.Accepted? {
        var a := x.outcome.attributes;
        var e := Enters(env, Ordinary, st, k);
        var start := InnerStart(k, a, InnerFlags(e.st.flags, k, a));
        if k.Prompt? {
          InPromptCleanAll(env, start, x.children);
        } else if k.Foreach? {
          IterableCleanAll(env, 0, start, x.children);
        } else if k.Audio? || k.Value? || k.Enumerate? {
          if e.inner.InImplicit? {
            SpeakableCleanAll(env, 0, start, x.children);
          } else {
            QuietCleanAll(env, start, x.children);
          }
        } else if !k.Grammar? && !k.Description? && !k.Substitute? {
          AdmissibleCleanAll(env, start, x.children, plain || HoldsPlainText(k));
        }
      }
    }
  }

  lemma {:induction false} AdmissibleCleanAll(env: Environment, st: Sofar, xs: seq<Xml>, plain: bool)
    requires (forall x :: x in xs ==> Admissible(x, plain)) && !st.flags.foreachImplicit && (plain || st.flags.pcdataImpliesPrompt)
    ensures !ConvertAll(env, Ordinary, st, xs).Unclean?
    decreases xs, 0
  {
    if xs != [] {
      AdmissibleClean(env, st, xs[0], plain);
      NoNewForeach(env, Ordinary, st, xs[0]);
      if st.flags.pcdataImpliesPrompt { PcdataStays(env, Ordinary, st, xs[0]); }
      var c := Convert(env, Ordinary, st, xs[0]);
      if c.Converted? { AdmissibleCleanAll(env, c.st, xs[1..], plain); }
    }
  }

  /** Balance: an admissible document either is refused or leaves the builder with exactly the
      converted tree, nothing open anywhere, and never an internal error. */
  lemma Balance(env: Environment, x: Xml)
    requires x.Elem? && x.kind.Plain? && forall c :: c in x.children ==> Admissible(c, false)
    ensures Inv(FRESH, DT.Empty)
    ensures ConvertDocument(env, x).Tree? || ConvertDocument(env, x).NotAccepted?
    ensures var r := Run(env, FRESH, DT.Empty, Events(x));
            match ConvertDocument(env, x)
            case Tree(root) =>
              r.Next? && r.b == DT.Closed(root) && DT.Depth(r.b) == 0 && r.m.copyDepth == 0
              && r.m.explicitPrompt == 0 && !r.m.implicitPrompt && !r.m.foreachImplicit && !r.m.inGrammar && r.m.ignoreDepth == 0
            case _ => r == Throw(Refused)
  {
    hide WatchedRun, Run, ConvertAll;
    DocumentRuns(env, x);
    WatchedIsRun(env, FRESH, DT.Empty, Events(x));
    if x.outcome.Accepted? {
      AdmissibleCleanAll(env, Sofar([], NoPrompt, InnerFlags(START_FLAGS, x.kind, x.outcome.attributes)), x.children, false);
    }
  }

  /** Whatever the document, a parse on a fresh converter that misuses the builder has first closed
      an element that is not its own. The converse fails: ConverterMisplaced has a document that
      closes a wrong element and still ends with a finished tree, and one that raises the error. */
  lemma CorruptionNeedsMisplacedClose(env: Environment, x: Xml)
    requires x.Elem? && x.kind.Plain?
    ensures Inv(FRESH, DT.Empty)
    ensures Run(env, FRESH, DT.Empty, Events(x)) == Throw(Corrupted) ==> ConvertDocument(env, x).NotClean?
  {
    hide WatchedRun, Run, ConvertDocument;
    DocumentRuns(env, x);
    WatchedIsRun(env, FRESH, DT.Empty, Events(x));
  }

  // ----- Grammars -----

  /** The events of a grammar element, whatever its body, from any state in an ordinary element: the
      implicit prompt is closed, and the builder gains one grammar node whose only child is the whole
      body as text; the modes are then as before. Otherwise the grammar is refused, exactly when it
      has visible content although content is forbidden, by its own source or by that of a script
      around it, or has none although it is not. */
  lemma GrammarFlattens(env: Environment, st: Sofar, x: Xml, b0: DT.Build)
    requires x.Elem? && x.kind.Grammar? && x.outcome.Accepted? && Fits(Ordinary, st, b0)
    ensures var m, b := ModesOf(Ordinary, st, 1, 0), BuildOf(b0, st, env.level);
            var a := x.outcome.attributes;
            var body := PrettyAll(x.children);
            var node := DT.Element(Code(Grammar), a, env.level, if body == "" then [] else [DT.Content(body, 0)]);
            && Inv(m, b)
            && WatchedRun(env, m, b, Events(x))
               == (if (st.flags.contentForbidden || HasSource(a)) == HasTextAll(x.children) then Stopped(Refused)
                   else Finished(m.(implicitPrompt := false, hasContent := HasTextAll(x.children), contentForbidden := false),
                                 DT.Push(BuildOf(b0, Closed(st), env.level), node)))
            && (HasTextAll(x.children) ==> body != "")
  {
    hide Code, HasSource, BuildOf, WatchedRun, Inv, DT.Push, PrettyAll, HasTextAll, Grow, Events, NodeOf;
    var a := x.outcome.attributes;
    var p := Built(Code(Grammar), a, false, [Chunk(PrettyAll(x.children))]);
    VisibleIsNotEmpty(x.children);
    ConvertRuns(env, Ordinary, st, x, b0, 1, 0);
    var c := Convert(env, Ordinary, st, x);
    if c.Converted? {
      BuildIgnoresFlags(b0, Put(Closed(st), p), c.st.flags, env.level);
      PutIsPush(b0, Closed(st), p, env.level);
      GrammarNode(a, PrettyAll(x.children), env.level);
    }
  }

  lemma PutIsPush(b0: DT.Build, st: Sofar, p: Piece, level: DT.DocumentLevel)
    requires b0.Open? && b0.Ok() && st.pending.NoPrompt? && p.Built?
    ensures BuildOf(b0, Put(st, p), level) == DT.Push(BuildOf(b0, st, level), NodeOf(p, level))
  {
    hide NodeOf;
    AssembleMore(DT.Top(b0.frames).children, st.done, p, level);
  }

  lemma GrammarNode(a: seq<DT.Attribute>, body: string, level: DT.DocumentLevel)
    ensures NodeOf(Built(Code(Grammar), a, false, [Chunk(body)]), level)
            == DT.Element(Code(Grammar), a, level, if body == "" then [] else [DT.Content(body, 0)])
  {
    hide Code;
    AssembleMore([], [], Chunk(body), level);
    assert [] + [Chunk(body)] == [Chunk(body)];
  }

  lemma {:induction false} VisibleIsNotEmpty(xs: seq<Xml>)
    ensures HasTextAll(xs) ==> PrettyAll(xs) != ""
    decreases xs, 0
  {
    if xs != [] {
      VisibleIsNotEmpty(xs[1..]);
      assert xs[0].Elem? ==> |OpenTag(xs[0].name, xs[0].attrs)| > 0;
      assert HasText(xs[0]) ==> |Pretty(xs[0])| > 0;
    }
  }
}
