/** The texts of converted documents and the numbers of their nodes, said in full: which elements
    keep plain text, which need a source or content, what a prompt header says. */
module ConverterTexts {
  import opened Wrappers
  import opened Markup
  import opened Whitespace
  import opened ConverterSteps
  import opened ConverterReference
  import opened ConverterCorrectness
  import opened ConverterDocuments
  import DT = DocumentTree
  import GrammarWalk
  import PropertyList

  // ----- Text and content -----

  predicate SourceNamed(a: seq<DT.Attribute>) {
    exists j :: 0 <= j < |a| && (a[j].key == 55 || a[j].key == 56)
  }

  lemma SourceIsNamed(a: seq<DT.Attribute>)
    ensures HasSource(a) <==> SourceNamed(a)
  {
  }

  /** An element with the text s and nothing else, where text would begin a prompt. */
  predicate TextAlone(st: Sofar, x: Xml, s: string) {
    && x.Elem? && x.outcome.Accepted? && x.children == [Text(s)] && !AllBlank(s)
    && st.pending.NoPrompt? && st.flags.pcdataImpliesPrompt && !st.flags.foreachImplicit
  }

  // The text is converted in the modes its element sets, and the element then ends.
  lemma TextInside(env: Environment, st: Sofar, x: Xml, s: string)
    requires TextAlone(st, x, s)
    requires x.kind.Plain? || x.kind.Alias? || x.kind.Executable? || x.kind.Choice? || x.kind.Option?
    ensures var f := InnerFlags(st.flags, x.kind, x.outcome.attributes);
            var inside := Convert(env, Ordinary, Sofar([], NoPrompt, f), Text(s));
            && inside.Converted?
            && Convert(env, Ordinary, st, x) == Leaves(Ordinary, Ordinary, st, x.kind, x.outcome.attributes, inside.st)
  {
    hide SpeakHeader, Code, InnerFlags, Leaves, HoldsPlainText, IsScript;
    var start := Sofar([], NoPrompt, InnerFlags(st.flags, x.kind, x.outcome.attributes));
    assert [Text(s)][1..] == [];
    assert ConvertAll(env, Ordinary, start, [Text(s)]) == Convert(env, Ordinary, start, Text(s));
  }

  /** Text of a choice or option stays its own text, its blanks normalised; that of a log stays as it
      is; and that of a script, which is refused when it, or one around it, names a source. */
  lemma PlainTextStays(env: Environment, st: Sofar, x: Xml, s: string)
    requires TextAlone(st, x, s)
    requires x.kind == Choice || x.kind == Option || x.kind == Executable(LOG) || x.kind == Executable(SCRIPT)
    ensures var c := Convert(env, Ordinary, st, x);
            if x.kind == Executable(SCRIPT) && (st.flags.contentForbidden || SourceNamed(x.outcome.attributes)) then c == Refusal
            else
              && c.Converted? && |c.st.done| == |st.done| + 1 && c.st.done[..|st.done|] == st.done && c.st.pending.NoPrompt?
              && c.st.done[|st.done|].Built?
              && NodeOf(c.st.done[|st.done|], env.level)
                 == DT.Element(Code(x.kind), x.outcome.attributes, env.level,
                               [DT.Content(if x.kind == Choice || x.kind == Option then Normal(s) else s, 0)])
  {
    hide SpeakHeader, Code, HasSource, SourceNamed, Normal, NodeOf, Convert, AllBlank;
    SourceIsNamed(x.outcome.attributes);
    TextInside(env, st, x, s);
    var a := x.outcome.attributes;
    var f := InnerFlags(st.flags, x.kind, a);
    TextInPlace(env, f, s);
    NotBlankNotEmpty(s);
    NodeOfText(Code(x.kind), a, x.kind == Choice || x.kind == Option, s, env.level);
  }

  lemma NotBlankNotEmpty(s: string)
    requires !AllBlank(s)
    ensures s != ""
  {
  }

  lemma TextInPlace(env: Environment, f: Flags, s: string)
    requires !AllBlank(s)
    ensures var h := SpeakHeader(env.baseUri, env.documentLang);
            Convert(env, Ordinary, Sofar([], NoPrompt, f), Text(s))
            == Converted(if f.pcdataImpliesPrompt then Sofar([], OpenPrompt([Header(h), Chunk(s)]), f.(hasContent := true))
                         else Sofar([Chunk(s)], NoPrompt, f.(hasContent := true)))
  {
    hide SpeakHeader, AllBlank;
    var h := Header(SpeakHeader(env.baseUri, env.documentLang));
    assert [h] + [Chunk(s)] == [h, Chunk(s)] && [] + [Chunk(s)] == [Chunk(s)];
  }

  lemma NodeOfText(code: nat, a: seq<DT.Attribute>, pruned: bool, s: string, level: DT.DocumentLevel)
    requires s != ""
    ensures NodeOf(Built(code, a, pruned, [Chunk(s)]), level)
            == DT.Element(code, a, level, [DT.Content(if pruned then Normal(s) else s, 0)])
  {
    hide Normal;
    AssembleMore([], [], Chunk(s), level);
    assert [] + [Chunk(s)] == [Chunk(s)];
  }

  /** Text of any other element that is no prompt, speech or grammar begins an implicit prompt, with
      the document's header. */
  lemma TextBeginsPrompt(env: Environment, st: Sofar, x: Xml, s: string)
    requires TextAlone(st, x, s)
    requires x.kind.Plain? || x.kind.Alias? || (x.kind.Executable? && x.kind.e != SCRIPT && x.kind.e != LOG)
    ensures var c := Convert(env, Ordinary, st, x);
            && c.Converted?
            && c.st.done == st.done + [Built(Code(x.kind), x.outcome.attributes, false,
                 [Built(29, [], false, [Header(SpeakHeader(env.baseUri, env.documentLang)), Chunk(s), Chunk("</speak>")])])]
  {
    hide SpeakHeader, Code, HasSource, Convert, AllBlank;
    TextInside(env, st, x, s);
    TextInPlace(env, InnerFlags(st.flags, x.kind, x.outcome.attributes), s);
    var h := Header(SpeakHeader(env.baseUri, env.documentLang));
    assert [h, Chunk(s)] + [Chunk("</speak>")] == [h, Chunk(s), Chunk("</speak>")];
    var prompt := Built(29, [], false, [h, Chunk(s), Chunk("</speak>")]);
    assert [] + [prompt] == [prompt];
  }

  /** An empty script or grammar must name a source, or stand where one has forbidden content; no other
      element needs content. */
  lemma EmptyElements(env: Environment, st: Sofar, x: Xml)
    requires x.Elem? && x.outcome.Accepted? && x.children == [] && !st.flags.foreachImplicit
    requires x.kind.Plain? || x.kind.Alias? || x.kind.Executable? || x.kind.Choice? || x.kind.Option? || x.kind.Grammar? || x.kind.Prompt?
    ensures var c := Convert(env, Ordinary, st, x);
            if (x.kind == Executable(SCRIPT) || x.kind == Grammar) && !st.flags.contentForbidden && !SourceNamed(x.outcome.attributes)
            then c == Refusal
            else c.Converted?
  {
    hide SpeakHeader, Code, HasSource, SourceNamed, PromptHeader;
    SourceIsNamed(x.outcome.attributes);
    var a := x.outcome.attributes;
    var start := InnerStart(x.kind, a, InnerFlags(Closed(st).flags, x.kind, a));
    assert ConvertAll(env, if x.kind.Prompt? then InPrompt else Ordinary, start, []) == Converted(start);
  }

  // ----- Headers -----

  /** An SSML header with this base and language. */
  function HeaderText(base: string, lang: string): string {
    "<?xml version='1.0'?><speak version='1.0' xmlns='http://www.w3.org/2001/10/synthesis' xml:base='" + base
    + "' xml:lang='" + lang + "'>"
  }

  lemma {:induction false} LastQuestion(u: string, q: string)
    requires '?' !in q
    ensures LastIndex(u + "?" + q, '?') == |u|
    ensures '?' !in u ==> LastIndex(u, '?') == -1
    decreases |q| + |u|
  {
    var s := u + "?" + q;
    if q == "" {
      assert s[|s| - 1] == '?';
    } else {
      assert s[..|s| - 1] == u + "?" + q[..|q| - 1];
      assert s[|s| - 1] == q[|q| - 1] && q[|q| - 1] in q;
      LastQuestion(u, q[..|q| - 1]);
    }
    NoQuestion(u);
  }

  lemma {:induction false} NoQuestion(u: string)
    ensures '?' !in u ==> LastIndex(u, '?') == -1
  {
    if u != "" {
      assert u[|u| - 1] in u;
      NoQuestion(u[..|u| - 1]);
    }
  }

  /** A prompt header names the base up to its last question mark, and the language. */
  lemma HeaderSays(base: string, query: string, lang: string)
    requires '?' !in query
    ensures SpeakHeader(base + "?" + query, lang) == HeaderText(base, lang)
    ensures '?' !in base ==> SpeakHeader(base, lang) == HeaderText(base, lang)
  {
    LastQuestion(base, query);
    assert (base + "?" + query)[..|base|] == base;
  }

  /** The header of an explicit prompt names its own base and language, the first of each. */
  lemma PromptHeaderSays(a: seq<DT.Attribute>, base: string, lang: string)
    requires DT.FirstIs(a, 10, base) && DT.FirstIs(a, 65, lang) && '?' !in base
    ensures PromptHeader(a) == HeaderText(base, lang)
  {
    hide HeaderText, SpeakHeader;
    FirstOr(a, 10);
    FirstOr(a, 65);
    DT.FindsFirst(a, 10);
    DT.FindsFirst(a, 65);
    HeaderSays(base, "", lang);
  }

  lemma {:induction false} FirstOr(a: seq<DT.Attribute>, key: nat)
    ensures AttributeOr(a, key) == if DT.FindAttribute(a, key).Some? then DT.FindAttribute(a, key).value else ""
  {
    if a != [] { FirstOr(a[1..], key); }
  }

  // ----- Numbers -----

  /** VXMLElementType in its order, by the names the parser looks elements up under. */
  const ENUMERATION: seq<string> := [
    "assign", "audio", "block", "cancel", "catch", "choice", "clear", "data", "disconnect", "else", "elseif",
    "enumerate", "exit", "field", "filled", "foreach", "form", "goto", "grammar", "if", "initial", "link", "log",
    "menu", "mark", "meta", "object", "option", "param", "prompt", "property", "record", "return", "reprompt",
    "script", "subdialog", "submit", "throw", "transfer", "value", "var", "vxml", "defaults", "language"]

  function PlainName(p: PlainKind): string {
    match p
    case BLOCK => "block" case CANCEL => "cancel" case CATCH => "catch" case FIELD => "field"
    case FILLED => "filled" case FORM => "form" case INITIAL => "initial" case LINK => "link"
    case MENU => "menu" case META => "meta" case OBJECT => "object" case PARAM => "param"
    case PROPERTY => "property" case RECORD => "record" case SUBDIALOG => "subdialog"
    case TRANSFER => "transfer" case VXML => "vxml" case DEFAULTS_ROOT => "defaults"
    case DEFAULTS_LANGUAGE => "language"
  }

  function ExecutableName(e: ExecutableKind): string {
    match e
    case ASSIGN => "assign" case CLEAR => "clear" case DATA => "data" case DISCONNECT => "disconnect"
    case ELSE => "else" case ELSEIF => "elseif" case EXIT => "exit" case GOTO => "goto" case IF => "if"
    case LOG => "log" case REPROMPT => "reprompt" case RETURN => "return" case SCRIPT => "script"
    case SUBMIT => "submit" case THROW => "throw" case VAR => "var"
  }

  /** The name an element's node goes by; the event aliases are catches. */
  function NodeName(k: Kind): string {
    match k
    case Plain(p) => PlainName(p)
    case Executable(e) => ExecutableName(e)
    case Audio => "audio" case Value => "value" case Enumerate => "enumerate" case Mark => "mark"
    case Foreach => "foreach" case Prompt => "prompt" case Grammar => "grammar" case Choice => "choice"
    case Option => "option" case Alias(_) => "catch"
    case _ => ""
  }

  /** An element's number is the place of its name in the enumeration. */
  lemma NumbersAreEnumerated(k: Kind)
    ensures NodeName(k) != "" <==> Code(k) < 44
    ensures NodeName(k) != "" ==> ENUMERATION[Code(k)] == NodeName(k)
  {
    match k
    case Plain(p) => PlainIsEnumerated(p);
    case Executable(e) => ExecutableIsEnumerated(e);
    case _ =>
  }

  lemma PlainIsEnumerated(p: PlainKind)
    ensures Code(Plain(p)) < 44 && ENUMERATION[Code(Plain(p))] == PlainName(p) != ""
  {
    match p {
      case BLOCK => case CANCEL => case CATCH => case FIELD => case FILLED => case FORM => case INITIAL =>
      case LINK => case MENU => case META => case OBJECT => case PARAM => case PROPERTY => case RECORD =>
      case SUBDIALOG => case TRANSFER => case VXML => case DEFAULTS_ROOT => case DEFAULTS_LANGUAGE =>
    }
  }

  lemma ExecutableIsEnumerated(e: ExecutableKind)
    ensures Code(Executable(e)) < 44 && ENUMERATION[Code(Executable(e))] == ExecutableName(e) != ""
  {
    match e {
      case ASSIGN => case CLEAR => case DATA => case DISCONNECT => case ELSE => case ELSEIF => case EXIT =>
      case GOTO => case IF => case LOG => case REPROMPT => case RETURN => case SCRIPT => case SUBMIT =>
      case THROW => case VAR =>
    }
  }

  /** Elements with nodes have different numbers, but for catch and its aliases, which share one. */
  lemma CodesDiffer(k: Kind, l: Kind)
    requires Code(k) == Code(l) && Code(k) < 0x200
    ensures k == l || ((k.Alias? || k == Plain(CATCH)) && (l.Alias? || l == Plain(CATCH)))
  {
  }

  /** The numbers the converter writes are those that the grammar walk and the property stack look for. */
  lemma NumbersAgree()
    ensures Code(Choice) == GrammarWalk.NODE_CHOICE && Code(Plain(FIELD)) == GrammarWalk.NODE_FIELD
    ensures Code(Grammar) == GrammarWalk.NODE_GRAMMAR && Code(Plain(LINK)) == GrammarWalk.NODE_LINK
    ensures Code(Plain(MENU)) == GrammarWalk.NODE_MENU && Code(Option) == GrammarWalk.NODE_OPTION
    ensures Code(Plain(PROPERTY)) == PropertyList.NODE_PROPERTY && Code(Prompt) == NODE_PROMPT
    ensures ATTRIBUTE_SRC == GrammarWalk.ATTRIBUTE_SRC && ATTRIBUTE_SRCEXPR == GrammarWalk.ATTRIBUTE_SRCEXPR
    ensures ATTRIBUTE_XMLLANG == GrammarWalk.ATTRIBUTE_XMLLANG
  {
  }
}
