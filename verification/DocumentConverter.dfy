/** The converter itself: its fields and event handlers, driving the in-place document builder. */
module DocumentConverter {
  import opened Wrappers
  import opened Markup
  import opened Escaping
  import opened Whitespace
  import opened ConverterSteps
  import DT = DocumentTree
  import opened DocumentBuilder

  /** A builder that has taken the text s since it was b0. */
  ghost predicate Added(b0: DT.Build, s: string, b: DT.Build) {
    b0.Ok() && DT.Text(b0, s) == Some(b)
  }

  lemma AddedMore(b0: DT.Build, s: string, b: DT.Build, t: string)
    requires Added(b0, s, b) && b.Ok() && DT.Text(b, t).Some?
    ensures Added(b0, s + t, DT.Text(b, t).value)
  {
    DT.TextTwice(b0, s, t);
  }

  /** Strings handed over by the parser are terminated by their first NUL. */
  predicate NoNul(attrs: seq<XmlAttr>) {
    forall a :: a in attrs ==> '\0' !in a.value
  }

  class DocumentConverter {
    const baseUri: string
    const documentLang: string
    const documentLevel: DT.DocumentLevel

    var doc: VXMLDocumentRep
    var ignoreDepth: int
    var inGrammar: bool
    var copyDepth: int
    var explicitPrompt: int
    var implicitPrompt: bool
    var foreachImplicit: bool
    var pcdataImpliesPrompt: bool
    var hasContent: bool
    var contentForbidden: bool

    function Env(): Environment {
      Environment(baseUri, documentLang, documentLevel)
    }

    function Modes(): ConverterSteps.Modes
      reads this
    {
      ConverterSteps.Modes(ignoreDepth, inGrammar, copyDepth, explicitPrompt, implicitPrompt, foreachImplicit,
                           pcdataImpliesPrompt, hasContent, contentForbidden)
    }

    ghost predicate Valid()
      reads this, doc
    {
      doc.Valid() && Inv(Modes(), doc.state)
    }

    /** A fresh converter with its document started. */
    constructor (base: string, lang: string, level: DT.DocumentLevel)
      ensures Valid() && Modes() == FRESH && doc.state == DT.Empty && fresh(doc)
      ensures Env() == Environment(base, lang, level)
    {
      baseUri, documentLang, documentLevel := base, lang, level;
      ignoreDepth, inGrammar, copyDepth, explicitPrompt := 0, false, 0, 0;
      implicitPrompt, foreachImplicit, pcdataImpliesPrompt := false, false, true;
      hasContent, contentForbidden := true, false;
      doc := new VXMLDocumentRep();
    }

    /** startDocument on a used converter: three of the mode fields keep their old values. */
    method StartDocument()
      modifies this
      ensures fresh(doc) && doc.Valid() && doc.state == DT.Empty
      ensures Modes() == FRESH.(foreachImplicit := old(foreachImplicit), hasContent := old(hasContent),
                                contentForbidden := old(contentForbidden))
      ensures Valid() <==> !old(foreachImplicit)
    {
      inGrammar := false;
      implicitPrompt := false;
      explicitPrompt := 0;
      copyDepth := 0;
      ignoreDepth := 0;
      pcdataImpliesPrompt := true;
      doc := new VXMLDocumentRep();
    }

    // One attribute value, escaped piece by piece between `start` and `pos`.
    method CopyValue(value: string)
      requires doc.Valid() && doc.state.Open? && '\0' !in value
      modifies doc
      ensures doc.Valid() && doc.state.Open? && Added(old(doc.state), Escape(value, COPY_SPECIALS), doc.state)
    {
      hide Spine, Tree, Within, CursorOk, DT.Text, Entity, Escape;
      ghost var b := doc.state;
      var start := 0;
      var pos := 0;
      TextNothing(b);
      EscapeNothing(value);
      var c;
      var more := true;
      while more
        invariant 0 <= start <= pos <= |value| + 1 && start <= |value|
        invariant if more then pos <= |value| else pos == |value| + 1
        invariant doc.Valid() && doc.state.Open? && b.Ok()
        invariant Added(b, Escape(value[..start], COPY_SPECIALS), doc.state)
        invariant forall i :: start <= i < pos && i < |value| ==> value[i] !in COPY_SPECIALS
        decreases |value| + 1 - pos
      {
        c := if pos < |value| then value[pos] else '\0';
        if c == '<' || c == '>' || c == '&' {
          ghost var before := doc.state;
          if start != pos {
            var ok := doc.AddContent(value[start..pos]);
          }
          TextNothing(before);
          EscapeRun(value, start, pos);
          TextOpen(before, value[start..pos]);
          AddedMore(b, Escape(value[..start], COPY_SPECIALS), before, value[start..pos]);
          before := doc.state;
          EscapeSpecial(value, pos);
          start := pos + 1;
          var ok := doc.AddContent(if c == '<' then "&lt;" else if c == '>' then "&gt;" else "&amp;");
          EntityText(c);
          TextOpen(before, Entity(c));
          AddedMore(b, Escape(value[..pos], COPY_SPECIALS), before, Entity(c));
        }
        assert pos < |value| ==> c in value;
        more := c != '\0';
        pos := pos + 1;
      }
      if pos > start {
        ghost var before := doc.state;
        var ok := doc.AddContent(value[start..start + (pos - start - 1)]);  // without the NUL
        EscapeRun(value, start, |value|);
        TextOpen(before, value[start..|value|]);
        AddedMore(b, Escape(value[..start], COPY_SPECIALS), before, value[start..|value|]);
        assert value[..|value|] == value;
      }
    }

    // AddContent while an element is open: always succeeds.
    method Add(s: string, ghost b: DT.Build, ghost sofar: string)
      requires doc.Valid() && doc.state.Open? && Added(b, sofar, doc.state)
      modifies doc
      ensures doc.Valid() && doc.state.Open? && Added(b, sofar + s, doc.state)
    {
      ghost var before := doc.state;
      var ok := doc.AddContent(s);
      AddedMore(b, sofar, before, s);
    }

    // Copies one attribute; xml:lang keeps its prefix, other names lose theirs.
    method CopyAttribute(a: XmlAttr, ghost b: DT.Build, ghost sofar: string)
      requires doc.Valid() && doc.state.Open? && '\0' !in a.value && Added(b, sofar, doc.state)
      modifies doc
      ensures doc.Valid() && doc.state.Open? && Added(b, sofar + AttrText(a), doc.state)
    {
      hide Spine, Tree, Within, CursorOk, DT.Text, Escape;
      Add(" ", b, sofar);
      if a.qname == "xml:lang" {
        Add("xml:lang", b, sofar + " ");
      } else {
        Add(a.localname, b, sofar + " ");
      }
      ghost var named := sofar + " " + AttrName(a);
      Add("=\"", b, named);
      ghost var before := doc.state;
      CopyValue(a.value);
      TextOpen(before, Escape(a.value, COPY_SPECIALS));
      AddedMore(b, named + "=\"", before, Escape(a.value, COPY_SPECIALS));
      Add("\"", b, named + "=\"" + Escape(a.value, COPY_SPECIALS));
      assert named + "=\"" + Escape(a.value, COPY_SPECIALS) + "\"" == sofar + AttrText(a);
    }

    method CopyElementStart(localname: string, attrs: seq<XmlAttr>) returns (thrown: Option<Why>)
      requires doc.Valid() && !doc.state.Empty? && !doc.state.Lone? && NoNul(attrs)
      modifies this`copyDepth, doc
      ensures match CopyStart(old(Modes()), old(doc.state), localname, attrs)
              case Next(m, b) => thrown.None? && doc.Valid() && Modes() == m && doc.state == b
              case Throw(w) => thrown == Some(w)
    {
      hide Spine, Tree, Within, CursorOk, DT.Text, AttrsText, AttrText, Added;
      copyDepth := copyDepth + 1;
      ghost var b := doc.state;
      OpenTagStarts(localname, attrs);
      TextFails(b, OpenTag(localname, attrs), "<");

      var ok := doc.AddContent("<");
      if !ok { return Some(Corrupted); }
      JustAdded(b, "<");
      Add(localname, b, "<");
      ghost var head := "<" + localname;

      AttrsNothing(attrs);
      assert head + "" == head;
      var index := 0;
      while index < |attrs|
        invariant 0 <= index <= |attrs|
        invariant doc.Valid() && doc.state.Open?
        invariant Added(b, head + AttrsText(attrs[..index]), doc.state)
        modifies doc
      {
        assert attrs[index] in attrs;
        CopyAttribute(attrs[index], b, head + AttrsText(attrs[..index]));
        AttrsTextStep(attrs, index, head);
        index := index + 1;
      }
      assert attrs[..|attrs|] == attrs;
      Add(">", b, head + AttrsText(attrs));
      assert head + AttrsText(attrs) + ">" == OpenTag(localname, attrs);
      AddedAll(b, OpenTag(localname, attrs), doc.state);
      thrown := None;
    }

    method CopyElementClose(localname: string) returns (thrown: Option<Why>)
      requires doc.Valid() && !doc.state.Empty? && !doc.state.Lone?
      modifies this`copyDepth, doc
      ensures match CopyClose(old(Modes()), old(doc.state), localname)
              case Next(m, b) => thrown.None? && doc.Valid() && Modes() == m && doc.state == b
              case Throw(w) => thrown == Some(w)
    {
      hide Spine, Tree, Within, CursorOk, DT.Text;
      ghost var b := doc.state;
      TextFails(b, CloseTag(localname), "</");
      var ok := doc.AddContent("</");
      if !ok { return Some(Corrupted); }
      Add(localname, b, "</");
      Add(">", b, "</" + localname);
      copyDepth := copyDepth - 1;
      thrown := None;
    }

    // The SSML header of a prompt that has just been started.
    method AddHeader(base: string, lang: string)
      requires doc.Valid() && doc.state.Open?
      modifies doc
      ensures doc.Valid() && doc.state == DT.Mark(DT.Text(old(doc.state), SpeakHeader(base, lang)).value, -1)
    {
      hide Spine, Tree, Within, CursorOk, DT.Text, DT.Mark, SPEAK_OPEN, SPEAK_LANG, SPEAK_END, TrimUriBase;
      ghost var b := doc.state;
      TextNothing(b);
      var trimmed := TrimUriBase(base);
      Add(SPEAK_OPEN, b, "");
      assert "" + SPEAK_OPEN == SPEAK_OPEN;
      Add(trimmed, b, SPEAK_OPEN);
      Add(SPEAK_LANG, b, SPEAK_OPEN + trimmed);
      Add(lang, b, SPEAK_OPEN + trimmed + SPEAK_LANG);
      Add(SPEAK_END, b, SPEAK_OPEN + trimmed + SPEAK_LANG + lang);
      doc.MarkSSMLHeader(-1);
    }

    method StartImplicitPrompt() returns (thrown: Option<Why>)
      requires doc.Valid() && !doc.state.Lone?
      modifies this`implicitPrompt, this`copyDepth, doc
      ensures match ImplicitStart(Env(), old(doc.state))
              case None => thrown == Some(Corrupted)
              case Some(b) => thrown.None? && doc.Valid() && doc.state == b
                              && Modes() == old(Modes()).(implicitPrompt := true, copyDepth := 0)
    {
      hide Spine, Tree, Within, CursorOk, DT.Text, DT.Mark, SpeakHeader;
      implicitPrompt := true;
      var ok := doc.StartElement(NODE_PROMPT, documentLevel);
      if !ok { return Some(Corrupted); }
      TextOpen(doc.state, SpeakHeader(baseUri, documentLang));
      AddHeader(baseUri, documentLang);
      copyDepth := 0;
      thrown := None;
    }

    method EndImplicitPrompt() returns (thrown: Option<Why>)
      requires doc.Valid() && !doc.state.Lone? && !doc.state.Empty?
      modifies this`implicitPrompt, this`foreachImplicit, doc
      ensures match ImplicitEnd(old(doc.state))
              case None => thrown == Some(Corrupted)
              case Some(b) => thrown.None? && doc.Valid() && doc.state == b
                              && Modes() == old(Modes()).(implicitPrompt := false, foreachImplicit := false)
    {
      var ok := doc.AddContent(SPEAK_CLOSE);
      if !ok { return Some(Corrupted); }
      ok := doc.EndElement();
      if !ok { return Some(Corrupted); }
      implicitPrompt := false;
      foreachImplicit := false;
      thrown := None;
    }

    // Opens, joins or ends the implicit prompt, by the kind of the element.
    method PromptBoundaryAt(k: Kind) returns (thrown: Option<Why>)
      requires doc.Valid() && !doc.state.Lone? && (implicitPrompt ==> !doc.state.Empty?)
      requires explicitPrompt > 0 ==> EmittedInPrompt(k) || k.Prompt?
      modifies this`implicitPrompt, this`foreachImplicit, this`copyDepth, doc
      ensures match PromptBoundary(Env(), old(Modes()), old(doc.state), k)
              case Next(m, b) => thrown.None? && doc.Valid() && doc.state == b && Modes() == m
              case Throw(w) => thrown == Some(w)
    {
      hide Spine, Tree, Within, CursorOk, ImplicitStart, ImplicitEnd;
      thrown := None;
      if k.Audio? || k.Value? || k.Enumerate? || k.Mark? {
        if pcdataImpliesPrompt && !implicitPrompt && explicitPrompt == 0 {
          thrown := StartImplicitPrompt();
        }
      } else if k.Foreach? {
        if implicitPrompt {
          foreachImplicit := true;
        } else if explicitPrompt == 0 {
          foreachImplicit := true;
          thrown := StartImplicitPrompt();
        }
      } else if k.Speech? {
        if !implicitPrompt {
          thrown := StartImplicitPrompt();
        }
      } else if k.Executable? && foreachImplicit {
      } else if implicitPrompt {
        if copyDepth == 0 {
          thrown := EndImplicitPrompt();
        } else {
          thrown := Some(Refused);
        }
      }
    }

    // The accepted attributes, in order, on the element that is open.
    method AddNodeAttributes(k: Kind, attributes: seq<DT.Attribute>) returns (thrown: Option<Why>)
      requires doc.Valid() && doc.state.Open?
      modifies this`contentForbidden, doc
      ensures match AddAttributes(old(doc.state), attributes)
              case None => thrown == Some(Corrupted)
              case Some(b) =>
                && thrown.None? && doc.Valid() && doc.state == b && b.Open?
                && Modes() == old(Modes()).(contentForbidden :=
                     old(contentForbidden) || ((IsScript(k) || k.Grammar?) && HasSource(attributes)))
    {
      hide Spine, Tree, Within, CursorOk, DT.AddAttr, HasSource;
      ghost var b1 := doc.state;
      assert attributes[0..] == attributes && attributes[..0] == [];
      NoSource();
      var i := 0;
      while i < |attributes|
        invariant 0 <= i <= |attributes|
        invariant doc.Valid() && doc.state.Open? && b1.Ok()
        invariant AddAttributes(b1, attributes) == AddAttributes(doc.state, attributes[i..])
        invariant contentForbidden == (old(contentForbidden) || ((IsScript(k) || k.Grammar?) && HasSource(attributes[..i])))
        modifies this`contentForbidden, doc
      {
        var a := attributes[i];
        if (k.Grammar? || IsScript(k)) && (a.key == ATTRIBUTE_SRC || a.key == ATTRIBUTE_SRCEXPR) {
          contentForbidden := true;
        }
        assert attributes[i..][1..] == attributes[i + 1..];
        SourceStep(attributes, i);
        var ok := doc.AddAttribute(a);
        if !ok { return Some(Corrupted); }
        i := i + 1;
      }
      assert attributes[..|attributes|] == attributes;
      thrown := None;
    }

    // An element with a node of its own: node, attributes, source flag, prompt header.
    method BuildNode(k: Kind, outcome: Attributes) returns (thrown: Option<Why>)
      requires doc.Valid() && !doc.state.Lone?
      modifies this`hasContent, this`contentForbidden, doc
      ensures match BuildElement(Env(), old(Modes()), old(doc.state), k, outcome)
              case Next(m, b) => thrown.None? && doc.Valid() && doc.state == b && Modes() == m
              case Throw(w) => thrown == Some(w)
    {
      hide Spine, Tree, Within, CursorOk, Code, SpeakHeader, DT.Text, DT.Mark, DT.Start, HasSource, AddAttributes, PromptHeader;
      hasContent := !IsScript(k) && !k.Grammar?;
      var ok := doc.StartElement(Code(k), documentLevel);
      if !ok { return Some(Corrupted); }
      if outcome.Rejected? { return Some(Refused); }

      var attributes := outcome.attributes;
      thrown := AddNodeAttributes(k, attributes);
      if thrown.Some? { return; }

      if k.Prompt? {
        TextOpen(doc.state, PromptHeader(attributes));
        AddPromptHeader(attributes);
      }
      thrown := None;
    }

    method AddPromptHeader(attributes: seq<DT.Attribute>)
      requires doc.Valid() && doc.state.Open?
      modifies doc
      ensures doc.Valid() && doc.state == DT.Mark(DT.Text(old(doc.state), PromptHeader(attributes)).value, -1)
    {
      hide Spine, Tree, Within, CursorOk, DT.Text, DT.Mark, SpeakHeader;
      AddHeader(AttributeOr(attributes, ATTRIBUTE_BASE), AttributeOr(attributes, ATTRIBUTE_XMLLANG));
    }

    // What grammars, prompts and plain-text elements change before the prompt boundary is looked at.
    method SetModes(k: Kind)
      modifies this`inGrammar, this`copyDepth, this`explicitPrompt, this`pcdataImpliesPrompt
      ensures Modes() == ModesAtStart(old(Modes()), k)
    {
      if k.Grammar? {
        inGrammar := true;
        copyDepth := 0;
      } else if k.Prompt? {
        explicitPrompt := explicitPrompt + 1;
        if explicitPrompt == 1 { copyDepth := 0; }
      } else if HoldsPlainText(k) {
        pcdataImpliesPrompt := false;
      }
    }

    // An element that is not swallowed by metadata, a grammar or an explicit prompt.
    method StartNode(k: Kind, localname: string, attrs: seq<XmlAttr>, outcome: Attributes) returns (thrown: Option<Why>)
      requires Valid() && NoNul(attrs) && (explicitPrompt > 0 ==> EmittedInPrompt(k))
      modifies this, doc
      ensures doc == old(doc)
      ensures match StartMarkup(Env(), old(Modes()), old(doc.state), k, localname, attrs, outcome)
              case Next(m, b) => thrown.None? && doc.Valid() && Modes() == m && doc.state == b
              case Throw(w) => thrown == Some(w)
    {
      hide Spine, Tree, Within, CursorOk, CopyStart, PromptBoundary, BuildElement, Code, ModesAtStart;
      thrown := None;
      if k.Unknown? { return Some(Refused); }

      // From here on everything up to the end of the metadata is skipped.
      if k.Metadata? {
        ignoreDepth := 1;
        return;
      }

      if k.Prompt? && foreachImplicit { return; }
      SetModes(k);

      thrown := PromptBoundaryAt(k);
      if thrown.Some? { return; }
      if k.Speech? {
        thrown := CopyElementStart(localname, attrs);
        return;
      }
      if k.Description? || k.Substitute? { return Some(Refused); }
      thrown := BuildNode(k, outcome);
    }

    /** startElement. */
    method HandleStart(k: Kind, localname: string, attrs: seq<XmlAttr>, outcome: Attributes) returns (thrown: Option<Why>)
      requires Valid() && NoNul(attrs)
      modifies this, doc
      ensures doc == old(doc)
      ensures match Step(Env(), old(Modes()), old(doc.state), StartElement(k, localname, attrs, outcome))
              case Next(m, b) => thrown.None? && Valid() && Modes() == m && doc.state == b
              case Throw(w) => thrown == Some(w)
    {
      hide Spine, Tree, Within, CursorOk, CopyStart, StartMarkup;
      thrown := None;
      // Below metadata only the nesting is counted.
      if ignoreDepth > 0 {
        ignoreDepth := ignoreDepth + 1;
        return;
      }

      // A grammar body becomes text, tags and all.
      if inGrammar {
        thrown := CopyElementStart(localname, attrs);
        return;
      }

      // An explicit prompt copies SSML, and of prompts inside it counts only the depth.
      if explicitPrompt > 0 && !EmittedInPrompt(k) {
        if k.Prompt? {
          explicitPrompt := explicitPrompt + 1;
        } else {
          thrown := CopyElementStart(localname, attrs);
        }
        return;
      }

      thrown := StartNode(k, localname, attrs, outcome);
    }

    // The builder element is finished; a grammar or script must have had content or source.
    method CompleteNode(k: Kind) returns (thrown: Option<Why>)
      requires doc.Valid() && !doc.state.Lone?
      modifies this`pcdataImpliesPrompt, this`contentForbidden, doc
      ensures match CompleteElement(old(Modes()), old(doc.state), k)
              case Next(m, b) => thrown.None? && doc.Valid() && doc.state == b && Modes() == m
              case Throw(w) => thrown == Some(w)
    {
      hide Spine, Tree, Within, CursorOk, DT.End, DT.PruneTop;
      AtElement();
      EndsWhileOpen(doc.state);
      if k.Choice? || k.Option? {
        var atElement := doc.pos != NULL;
        if !atElement { return Some(Corrupted); }
        doc.PruneWhitespace();
        pcdataImpliesPrompt := true;
      } else if k == Executable(LOG) {
        pcdataImpliesPrompt := true;
      } else if IsScript(k) || k.Grammar? {
        if IsScript(k) { pcdataImpliesPrompt := true; }
        if contentForbidden != hasContent {
          contentForbidden := false;
        } else {
          return Some(Refused);
        }
      }
      var ok := doc.EndElement();
      if !ok { return Some(Corrupted); }
      thrown := None;
    }

    static lemma EndsWhileOpen(b: DT.Build)
      requires b.Ok()
      ensures DT.End(b).Some? <==> b.Open?
    {
    }

    // The cursor is set exactly while an element is open.
    lemma AtElement()
      requires doc.Valid() && !doc.state.Lone?
      ensures doc.pos != NULL <==> doc.state.Open?
    {
      if doc.state.Open? { doc.Cursor(); }
    }

    method EndNode(k: Kind, localname: string) returns (thrown: Option<Why>)
      requires Valid()
      modifies this, doc
      ensures doc == old(doc)
      ensures match EndMarkup(old(Modes()), old(doc.state), k, localname)
              case Next(m, b) => thrown.None? && doc.Valid() && Modes() == m && doc.state == b
              case Throw(w) => thrown == Some(w)
    {
      hide Spine, Tree, Within, CursorOk, CopyClose, CompleteElement, ImplicitEnd, EndMarkup;
      EndMarkupIs(Modes(), doc.state, k, localname);
      if k.Unknown? { return Some(Refused); }

      // Which ends leave the implicit prompt open, and which close it first.
      if implicitPrompt {
        if k.Audio? || k.Value? || k.Enumerate? {
        } else if k.Speech? {
          thrown := CopyElementClose(localname);
          return;
        } else if k.Prompt? {
          return None;
        } else if k.Foreach? {
          foreachImplicit := false;
        } else if (k.Executable? || k.Mark?) && foreachImplicit {
        } else {
          thrown := EndImplicitPrompt();
          if thrown.Some? { return; }
        }
      }
      thrown := CompleteNode(k);
    }

    // An end tag outside grammars and metadata. The outermost prompt writes its closing tag and goes
    // on to be completed.
    method EndOutsideGrammar(k: Kind, localname: string) returns (thrown: Option<Why>)
      requires Valid()
      modifies this, doc
      ensures doc == old(doc)
      ensures match EndOutside(old(Modes()), old(doc.state), k, localname)
              case Next(m, b) => thrown.None? && Valid() && Modes() == m && doc.state == b
              case Throw(w) => thrown == Some(w)
    {
      hide Spine, Tree, Within, CursorOk, CopyClose, EndMarkup, DT.Text;
      thrown := None;
      if explicitPrompt > 0 {
        if k.Prompt? {
          if foreachImplicit { return; }
          explicitPrompt := explicitPrompt - 1;
          if explicitPrompt > 0 { return; }
          TextFails(doc.state, SPEAK_CLOSE, SPEAK_CLOSE);
          var ok := doc.AddContent(SPEAK_CLOSE);
          if !ok { return Some(Corrupted); }
        } else if !EmittedInPrompt(k) {
          thrown := CopyElementClose(localname);
          return;
        }
      }
      thrown := EndNode(k, localname);
    }

    /** endElement. */
    method HandleEnd(k: Kind, localname: string) returns (thrown: Option<Why>)
      requires Valid()
      modifies this, doc
      ensures doc == old(doc)
      ensures match Step(Env(), old(Modes()), old(doc.state), EndElement(k, localname))
              case Next(m, b) => thrown.None? && Valid() && Modes() == m && doc.state == b
              case Throw(w) => thrown == Some(w)
    {
      hide Spine, Tree, Within, CursorOk, CopyClose, EndOutside;
      thrown := None;
      // Below metadata only the nesting is counted.
      if ignoreDepth > 0 {
        ignoreDepth := ignoreDepth - 1;
        return;
      }

      // The end tag that matches no copied one is the grammar's own.
      if inGrammar && copyDepth == 0 { inGrammar := false; }
      if inGrammar {
        thrown := CopyElementClose(localname);
        return;
      }

      thrown := EndOutsideGrammar(k, localname);
    }

    /** characters. */
    method HandleCharacters(chars: string) returns (thrown: Option<Why>)
      requires Valid()
      modifies this, doc
      ensures doc == old(doc)
      ensures match Step(Env(), old(Modes()), old(doc.state), Characters(chars))
              case Next(m, b) => thrown.None? && Valid() && Modes() == m && doc.state == b
              case Throw(w) => thrown == Some(w)
    {
      hide Spine, Tree, Within, CursorOk, ImplicitStart;
      if chars == "" || ignoreDepth > 0 { return None; }

      // The first visible character, if there is one.
      var l := 0;
      while l < |chars| && (chars[l] == ' ' || chars[l] == '\n' || chars[l] == '\r' || chars[l] == '\t')
        invariant 0 <= l <= |chars|
        invariant forall i :: 0 <= i < l ==> IsBlank(chars[i])
      {
        l := l + 1;
      }
      if l == |chars| { return None; }
      assert !AllBlank(chars);

      // Text outside every prompt starts one.
      if pcdataImpliesPrompt && explicitPrompt == 0 && !implicitPrompt && !inGrammar {
        thrown := StartImplicitPrompt();
        if thrown.Some? { return; }
      }

      hasContent := true;
      var ok := doc.AddContent(chars);
      if !ok { return Some(Corrupted); }
      thrown := None;
    }

    /** A whole parse: the events in order, until one is refused. */
    method HandleEvents(es: seq<Event>) returns (thrown: Option<Why>)
      requires Valid() && forall e :: e in es && e.StartElement? ==> NoNul(e.attrs)
      modifies this, doc
      ensures match Run(Env(), old(Modes()), old(doc.state), es)
              case Next(m, b) => thrown.None? && Valid() && Modes() == m && doc.state == b
              case Throw(w) => thrown == Some(w)
    {
      hide Spine, Tree, Within, CursorOk, Step, Inv;
      ghost var d := doc;
      assert es[0..] == es;
      var i := 0;
      while i < |es|
        invariant 0 <= i <= |es|
        invariant doc == d && Valid()
        invariant Run(Env(), old(Modes()), old(doc.state), es) == Run(Env(), Modes(), doc.state, es[i..])
      {
        assert es[i..][1..] == es[i + 1..] && es[i] in es;
        match es[i] {
          case StartElement(k, name, attrs, outcome) => thrown := HandleStart(k, name, attrs, outcome);
          case Characters(s) => thrown := HandleCharacters(s);
          case EndElement(k, name) => thrown := HandleEnd(k, name);
        }
        if thrown.Some? { return; }
        i := i + 1;
      }
      thrown := None;
    }
  }

  lemma JustAdded(b: DT.Build, s: string)
    requires b.Ok() && DT.Text(b, s).Some?
    ensures Added(b, s, DT.Text(b, s).value)
  {
  }

  lemma AddedAll(b0: DT.Build, s: string, b: DT.Build)
    requires Added(b0, s, b)
    ensures b0.Ok() && DT.Text(b0, s) == Some(b)
  {
  }

  // Which ends close the implicit prompt first, which leave it open, and which are not the builder's.
  lemma EndMarkupIs(m: Modes, b: DT.Build, k: Kind, name: string)
    requires Inv(m, b)
    ensures b.Ok() && !b.Lone? && (m.implicitPrompt ==> !b.Empty?)
    ensures k.Unknown? ==> EndMarkup(m, b, k, name) == Throw(Refused)
    ensures !m.implicitPrompt && !k.Unknown? ==> EndMarkup(m, b, k, name) == CompleteElement(m, b, k)
    ensures m.implicitPrompt && !k.Unknown? ==>
              EndMarkup(m, b, k, name)
              == if k.Audio? || k.Value? || k.Enumerate? then CompleteElement(m, b, k)
                 else if k.Speech? then CopyClose(m, b, name)
                 else if k.Prompt? then Next(m, b)
                 else if k.Foreach? then CompleteElement(m.(foreachImplicit := false), b, k)
                 else if (k.Executable? || k.Mark?) && m.foreachImplicit then CompleteElement(m, b, k)
                 else if ImplicitEnd(b).None? then Throw(Corrupted)
                 else CompleteElement(m.(implicitPrompt := false, foreachImplicit := false), ImplicitEnd(b).value, k)
  {
    hide CompleteElement, CopyClose, ImplicitEnd;
  }

  lemma NoSource()
    ensures !HasSource([])
  {
  }

  lemma SourceStep(attributes: seq<DT.Attribute>, i: nat)
    requires i < |attributes|
    ensures HasSource(attributes[..i + 1]) <==>
            HasSource(attributes[..i]) || attributes[i].key == ATTRIBUTE_SRC || attributes[i].key == ATTRIBUTE_SRCEXPR
  {
    assert attributes[..i + 1] == attributes[..i] + [attributes[i]];
    assert attributes[i] in attributes[..i + 1];
  }

  lemma EscapeNothing(value: string)
    ensures value[..0] == "" && Escape(value[..0], COPY_SPECIALS) == ""
  {
  }

  lemma EscapeRun(value: string, start: nat, pos: nat)
    requires start <= pos <= |value| && forall i :: start <= i < pos ==> value[i] !in COPY_SPECIALS
    ensures Escape(value[..start], COPY_SPECIALS) + value[start..pos] == Escape(value[..pos], COPY_SPECIALS)
  {
    assert value[..pos] == value[..start] + value[start..pos];
    EscapeFree(value[start..pos], COPY_SPECIALS);
    EscapeAppend(value[..start], value[start..pos], COPY_SPECIALS);
  }

  lemma EscapeSpecial(value: string, pos: nat)
    requires pos < |value| && value[pos] in COPY_SPECIALS
    ensures Escape(value[..pos], COPY_SPECIALS) + Entity(value[pos]) == Escape(value[..pos + 1], COPY_SPECIALS)
  {
    assert value[..pos + 1] == value[..pos] + [value[pos]];
    EscapeAppend(value[..pos], [value[pos]], COPY_SPECIALS);
    assert Escape([value[pos]], COPY_SPECIALS) == Entity(value[pos]) + Escape([value[pos]][1..], COPY_SPECIALS);
  }

  lemma EntityText(c: char)
    requires c == '<' || c == '>' || c == '&'
    ensures Entity(c) == if c == '<' then "&lt;" else if c == '>' then "&gt;" else "&amp;"
  {
  }

  lemma AttrsNothing(attrs: seq<XmlAttr>)
    ensures attrs[..0] == [] && AttrsText(attrs[..0]) == ""
  {
  }

  lemma {:induction false} AttrsTextAppend(a: seq<XmlAttr>, b: seq<XmlAttr>)
    ensures AttrsText(a + b) == AttrsText(a) + AttrsText(b)
  {
    if a == [] {
      assert a + b == b;
    } else {
      assert (a + b)[1..] == a[1..] + b;
      AttrsTextAppend(a[1..], b);
    }
  }

  lemma AttrsTextStep(attrs: seq<XmlAttr>, index: nat, head: string)
    requires index < |attrs|
    ensures var a := attrs[index];
            head + AttrsText(attrs[..index]) + AttrText(a) == head + AttrsText(attrs[..index + 1])
  {
    hide AttrText;
    assert attrs[..index + 1] == attrs[..index] + [attrs[index]];
    AttrsTextAppend(attrs[..index], [attrs[index]]);
    assert AttrsText([attrs[index]]) == AttrText(attrs[index]) + AttrsText([attrs[index]][1..]);
  }

  lemma OpenTagStarts(name: string, attrs: seq<XmlAttr>)
    ensures OpenTag(name, attrs) != ""
  {
  }

  // Adding visible text fails exactly when the tree is finished, whatever the text.
  lemma TextFails(b: DT.Build, s: string, t: string)
    requires b.Ok() && s != "" && t != "" && !b.Empty? && !b.Lone?
    ensures DT.Text(b, s).None? <==> DT.Text(b, t).None?
    ensures DT.Text(b, t).Some? ==> DT.Text(b, t).value.Open?
  {
  }

  lemma TextOpen(b: DT.Build, s: string)
    requires b.Open? && b.Ok()
    ensures DT.Text(b, s).Some?
  {
  }

  lemma TextNothing(b: DT.Build)
    requires b.Ok()
    ensures DT.Text(b, "") == Some(b)
  {
  }
}
