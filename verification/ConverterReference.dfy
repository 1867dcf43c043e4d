/** What the converter is for, defined on document trees: recursive conversion of each element in
    the context it stands in. No mode fields, no builder; contexts and finished pieces only. */
module ConverterReference {
  import opened Markup
  import opened Whitespace
  import opened ConverterSteps
  import DT = DocumentTree

  /** A finished part of the converted document. `header` text is marked as SSML header. */
  datatype Piece =
    | Chunk(s: string)
    | Header(s: string)
    | Built(code: nat, attributes: seq<DT.Attribute>, pruned: bool, inner: seq<Piece>)

  /** Where a node stands: directly in an ordinary element; in an explicit prompt; or inside
      something that an implicit prompt holds, under `copies` copied SSML elements. */
  datatype Context = Ordinary | InPrompt | InImplicit(copies: nat)

  datatype Flags = Flags(pcdataImpliesPrompt: bool, foreachImplicit: bool, hasContent: bool, contentForbidden: bool)

  /** The children converted so far; `pending` are those of an implicit prompt that is still open. */
  datatype Sofar = Sofar(done: seq<Piece>, pending: PendingPrompt, flags: Flags)

  datatype PendingPrompt = NoPrompt | OpenPrompt(pieces: seq<Piece>)

  /** Unclean: an implicit prompt would have to end while something inside it is still open. */
  datatype Conversion = Converted(st: Sofar) | Refusal | Unclean

  function Put(st: Sofar, p: Piece): Sofar {
    match st.pending
    case OpenPrompt(ps) => st.(pending := OpenPrompt(ps + [p]))
    case NoPrompt => st.(done := st.done + [p])
  }

  /** Opens an implicit prompt in an ordinary element that has none open. */
  function Opened(env: Environment, ctx: Context, st: Sofar): Sofar {
    if ctx.Ordinary? && st.pending.NoPrompt?
    then st.(pending := OpenPrompt([Header(SpeakHeader(env.baseUri, env.documentLang))]))
    else st
  }

  /** Ends the implicit prompt that is open, if any: its pieces become a prompt element. */
  function Closed(st: Sofar): Sofar {
    match st.pending
    case OpenPrompt(ps) =>
      st.(done := st.done + [Built(NODE_PROMPT, [], false, ps + [Chunk(SPEAK_CLOSE)])], pending := NoPrompt)
    case NoPrompt => st
  }

  /** The list that new pieces go to, and its replacement. */
  function Focus(st: Sofar): Sofar {
    match st.pending
    case OpenPrompt(ps) => Sofar(ps, NoPrompt, st.flags)
    case NoPrompt => st
  }

  function Unfocus(st: Sofar, r: Sofar): Sofar {
    match st.pending
    case OpenPrompt(_) => st.(pending := OpenPrompt(r.done), flags := r.flags)
    case NoPrompt => st.(done := r.done, flags := r.flags)
  }

  datatype Entry = Enter(st: Sofar, inner: Context) | EntryRefused | EntryUnclean

  /** How an element that gets a node of its own begins: what it does to an implicit prompt that is
      open, and the context its children stand in. */
  function Enters(env: Environment, ctx: Context, st: Sofar, k: Kind): Entry {
    match ctx
    case InPrompt => Enter(st, InPrompt)
    case InImplicit(c) =>
      if k.Audio? || k.Value? || k.Enumerate? || k.Mark? then Enter(st, ctx)
      else if k.Foreach? then Enter(st.(flags := st.flags.(foreachImplicit := true)), ctx)
      else if k.Executable? && st.flags.foreachImplicit then Enter(st, ctx)
      else if k.Prompt? || k.Grammar? || c == 0 then EntryUnclean
      else EntryRefused
    case Ordinary =>
      if k.Audio? || k.Value? || k.Enumerate? || k.Mark? then
        var st1 := if st.flags.pcdataImpliesPrompt then Opened(env, ctx, st) else st;
        Enter(st1, if st1.pending.OpenPrompt? then InImplicit(0) else Ordinary)
      else if k.Foreach? then
        var st1 := Opened(env, ctx, st);
        Enter(st1.(flags := st1.flags.(foreachImplicit := true)), InImplicit(0))
      else Enter(Closed(st), if k.Prompt? then InPrompt else Ordinary)
  }

  /** The flags the children of a new element start with. */
  function InnerFlags(f: Flags, k: Kind, attributes: seq<DT.Attribute>): Flags {
    Flags(f.pcdataImpliesPrompt && !HoldsPlainText(k), f.foreachImplicit,
          !IsScript(k) && !k.Grammar?,
          f.contentForbidden || ((IsScript(k) || k.Grammar?) && HasSource(attributes)))
  }

  /** How the element ends: `r` is what its children made. */
  function Leaves(outer: Context, inner: Context, st: Sofar, k: Kind, attributes: seq<DT.Attribute>, r: Sofar): Conversion {
    var f := r.flags;
    if (k.Audio? || k.Value? || k.Enumerate?) && r.pending.OpenPrompt? then Unclean
    else if inner.InImplicit? && (k.Mark? || k.Executable?) && !f.foreachImplicit then Unclean
    else if (IsScript(k) || k.Grammar?) && f.contentForbidden == f.hasContent then Refusal
    else
      var pieces := if k.Prompt? then r.done + [Chunk(SPEAK_CLOSE)] else Closed(r).done;
      var f1 := Flags(f.pcdataImpliesPrompt || HoldsPlainText(k), f.foreachImplicit && !k.Foreach?,
                      f.hasContent, f.contentForbidden && !IsScript(k) && !k.Grammar?);
      Converted(Put(st, Built(Code(k), attributes, k.Choice? || k.Option?, pieces)).(flags := f1))
  }

  function Convert(env: Environment, ctx: Context, st: Sofar, x: Xml): Conversion
    decreases x, 1
  {
    match x
    case Text(s) =>
      if AllBlank(s) then Converted(st)
      else
        var st1 := if st.flags.pcdataImpliesPrompt then Opened(env, ctx, st) else st;
        Converted(Put(st1, Chunk(s)).(flags := st1.flags.(hasContent := true)))
    case Elem(k, name, attrs, outcome, children) =>
      if ctx.InPrompt? && k.Prompt? then ConvertAll(env, ctx, st, children)
      else if ctx.InPrompt? && !EmittedInPrompt(k) then
        // copied as text
        match ConvertAll(env, ctx, Put(st, Chunk(OpenTag(name, attrs))), children)
        case Converted(r) => Converted(Put(r, Chunk(CloseTag(name))))
        case other => other
      else if k.Unknown? then Refusal
      else if k.Metadata? then Converted(st)
      else if k.Prompt? && ctx.InImplicit? && st.flags.foreachImplicit then ConvertAll(env, ctx, st, children)
      else if k.Speech? then
        var st1 := Opened(env, ctx, st);
        var copies := if ctx.InImplicit? then ctx.copies + 1 else 1;
        match ConvertAll(env, InImplicit(copies), Put(Focus(st1), Chunk(OpenTag(name, attrs))), children)
        case Converted(r) => Converted(Unfocus(st1, Put(r, Chunk(CloseTag(name)))))
        case other => other
      else
        match Enters(env, ctx, st, k)
        case EntryRefused => Refusal
        case EntryUnclean => Unclean
        case Enter(st1, inner) =>
          if k.Description? || k.Substitute? || outcome.Rejected? then Refusal
          else
            var f := InnerFlags(st1.flags, k, outcome.attributes);
            if k.Grammar? then
              Leaves(ctx, inner, st1, k, outcome.attributes,
                     Sofar([Chunk(PrettyAll(children))], NoPrompt, f.(hasContent := HasTextAll(children))))
            else
              var start := if k.Prompt? then [Header(PromptHeader(outcome.attributes))] else [];
              match ConvertAll(env, inner, Sofar(start, NoPrompt, f), children)
              case Converted(r) => Leaves(ctx, inner, st1, k, outcome.attributes, r)
              case other => other
  }

  function ConvertAll(env: Environment, ctx: Context, st: Sofar, xs: seq<Xml>): Conversion
    decreases xs, 0
  {
    if xs == [] then Converted(st)
    else
      match Convert(env, ctx, st, xs[0])
      case Converted(st1) => ConvertAll(env, ctx, st1, xs[1..])
      case other => other
  }

  // ----- The tree a piece stands for -----

  /** Adding pieces to the children an element already has: neighbouring text joins. */
  function Assemble(children: seq<DT.Node>, ps: seq<Piece>, level: DT.DocumentLevel): seq<DT.Node>
    decreases ps, 0
  {
    if ps == [] then children
    else
      var last := ps[|ps| - 1];
      var before := Assemble(children, ps[..|ps| - 1], level);
      match last
      case Chunk(s) => DT.AppendText(before, s)
      case Header(s) => DT.MarkHeader(DT.AppendText(before, s), -1)
      case Built(_, _, _, _) => before + [NodeOf(last, level)]
  }

  function NodeOf(p: Piece, level: DT.DocumentLevel): DT.Node
    requires p.Built?
    decreases p, 1
  {
    var children := Assemble([], p.inner, level);
    DT.Element(p.code, p.attributes, level, if p.pruned then DT.Prune(children) else children)
  }
}
