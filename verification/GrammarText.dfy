/** Reading back the text a grammar body is flattened to: it yields the events of the body again,
    with blank text dropped and neighbouring text joined. */
module GrammarText {
  import opened Escaping
  import opened Whitespace
  import opened Markup

  datatype Token = Open(name: string, attrs: seq<(string, string)>) | Close(name: string) | Chars(text: string)

  // ----- The body as tokens -----

  function AttrPairs(attrs: seq<XmlAttr>): seq<(string, string)> {
    if attrs == [] then [] else [(AttrName(attrs[0]), attrs[0].value)] + AttrPairs(attrs[1..])
  }

  function Tokens(x: Xml): seq<Token>
    decreases x, 1
  {
    match x
    case Text(s) => if AllBlank(s) then [] else [Chars(s)]
    case Elem(_, n, a, _, cs) => [Open(n, AttrPairs(a))] + TokensAll(cs) + [Close(n)]
  }

  function TokensAll(xs: seq<Xml>): seq<Token>
    decreases xs, 0
  {
    if xs == [] then [] else Tokens(xs[0]) + TokensAll(xs[1..])
  }

  /** Neighbouring text joined. */
  function Joined(ts: seq<Token>): seq<Token>
    decreases |ts|
  {
    if |ts| < 2 then ts
    else if ts[0].Chars? && ts[1].Chars? then Joined([Chars(ts[0].text + ts[1].text)] + ts[2..])
    else [ts[0]] + Joined(ts[1..])
  }

  // ----- Writing and reading tokens -----

  function WriteAttrs(attrs: seq<(string, string)>): string {
    if attrs == [] then ""
    else " " + attrs[0].0 + "=\"" + Escape(attrs[0].1, COPY_SPECIALS) + "\"" + WriteAttrs(attrs[1..])
  }

  function Write(t: Token): string {
    match t
    case Open(n, a) => "<" + n + WriteAttrs(a) + ">"
    case Close(n) => "</" + n + ">"
    case Chars(s) => s
  }

  function WriteAll(ts: seq<Token>): string {
    if ts == [] then "" else Write(ts[0]) + WriteAll(ts[1..])
  }

  /** The characters before the first stop. */
  function Until(s: string, stops: set<char>): (r: string)
    ensures r <= s
  {
    if s == "" || s[0] in stops then "" else [s[0]] + Until(s[1..], stops)
  }

  function Drop(s: string, n: nat): (r: string)
    ensures |r| <= |s| && (n > 0 && s != "" ==> |r| < |s|)
  {
    if n <= |s| then s[n..] else ""
  }

  /** Attributes, each after a space, and what follows them. */
  function ReadAttrs(s: string): (r: (seq<(string, string)>, string))
    ensures |r.1| <= |s|
    decreases |s|
  {
    if s == "" || s[0] != ' ' then ([], s)
    else
      var name := Until(s[1..], {'='});
      var after := Drop(s, |name| + 3);
      var value := Until(after, {'"'});
      var more := ReadAttrs(Drop(after, |value| + 1));
      ([(name, Unescape(value))] + more.0, more.1)
  }

  /** A reader of element markup. */
  function Read(s: string): seq<Token>
    decreases |s|
  {
    if s == "" then []
    else if s[0] == '<' then
      if |s| > 1 && s[1] == '/' then
        var name := Until(s[2..], {'>'});
        [Close(name)] + Read(Drop(s, |name| + 3))
      else
        var name := Until(s[1..], {' ', '>'});
        var r := ReadAttrs(s[1 + |name|..]);
        [Open(name, r.0)] + Read(Drop(r.1, 1))
    else
      var text := Until(s, {'<'});
      [Chars(Unescape(text))] + Read(Drop(s, |text|))
  }

  // ----- Conditions -----

  const NAME_STOPS: set<char> := {' ', '<', '>', '/', '=', '"', '&'}

  predicate Nameable(n: string) {
    n != "" && Free(n, NAME_STOPS)
  }

  /** What the parser guarantees: tags and attributes have names, and text is not empty. */
  predicate Named(t: Token) {
    match t
    case Open(n, a) => Nameable(n) && forall i :: 0 <= i < |a| ==> Nameable(a[i].0)
    case Close(n) => Nameable(n)
    case Chars(s) => s != ""
  }

  predicate NamedAll(ts: seq<Token>) {
    forall i :: 0 <= i < |ts| ==> Named(ts[i])
  }

  predicate PlainValues(attrs: seq<(string, string)>) {
    forall i :: 0 <= i < |attrs| ==> Free(attrs[i].1, {'"'})
  }

  predicate StartsEntity(s: string) {
    "&quot;" <= s || "&lt;" <= s || "&gt;" <= s || "&amp;" <= s
  }

  /** None of the four predefined entities occurs anywhere in s. */
  predicate EntityFree(s: string) {
    forall i :: 0 <= i <= |s| ==> !StartsEntity(s[i..])
  }

  /** No attribute value has a double quote, and text has no `<` and no predefined entity. */
  predicate Restorable(t: Token) {
    match t
    case Open(_, a) => PlainValues(a)
    case Close(_) => true
    case Chars(s) => Free(s, {'<'}) && EntityFree(s)
  }

  predicate RestorableAll(ts: seq<Token>) {
    forall i :: 0 <= i < |ts| ==> Restorable(ts[i])
  }

  predicate NoNeighbours(ts: seq<Token>) {
    forall i :: 0 < i < |ts| ==> !(ts[i - 1].Chars? && ts[i].Chars?)
  }

  // ----- Pieces -----

  lemma {:induction false} UntilFree(a: string, rest: string, stops: set<char>)
    requires Free(a, stops) && (rest != "" ==> rest[0] in stops)
    ensures Until(a + rest, stops) == a
  {
    if a == "" {
      assert a + rest == rest;
    } else {
      assert (a + rest)[1..] == a[1..] + rest;
      UntilFree(a[1..], rest, stops);
    }
  }

  lemma {:induction false} UnescapePlain(s: string)
    requires Free(s, {'&'})
    ensures Unescape(s) == s
  {
    if s != "" {
      UnescapePlain(s[1..]);
      assert s[0] != '&' && "&quot;"[0] == '&' && "&lt;"[0] == '&' && "&gt;"[0] == '&' && "&amp;"[0] == '&';
    }
  }

  lemma {:induction false} UnescapeShrinks(s: string)
    ensures |Unescape(s)| <= |s|
    decreases |s|
  {
    if s != "" {
      UnescapeShrinks(s[1..]);
      if "&quot;" <= s { UnescapeShrinks(s[6..]); }
      if "&lt;" <= s || "&gt;" <= s { UnescapeShrinks(s[4..]); }
      if "&amp;" <= s { UnescapeShrinks(s[5..]); }
    }
  }

  /** Unescaping leaves exactly those texts alone in which no entity occurs. */
  lemma {:induction false} UnescapeKeeps(s: string)
    ensures Unescape(s) == s <==> EntityFree(s)
    decreases |s|
  {
    if s == "" {
      assert forall i :: 0 <= i <= |s| ==> |s[i..]| == 0;
    } else {
      assert s[0..] == s;
      if StartsEntity(s) {
        EntityShortens(s);
      } else {
        UnescapeKeeps(s[1..]);
        EntityFreeStep(s);
        assert s == [s[0]] + s[1..];
      }
    }
  }

  lemma EntityFreeStep(s: string)
    requires s != "" && !StartsEntity(s)
    ensures EntityFree(s) <==> EntityFree(s[1..])
  {
    hide StartsEntity;
    assert s[0..] == s;
    forall i | 0 <= i <= |s| - 1 ensures s[1..][i..] == s[i + 1..] {}
    if EntityFree(s[1..]) {
      forall i | 0 <= i <= |s| ensures !StartsEntity(s[i..]) {
        if i > 0 { assert s[1..][i - 1..] == s[i..]; }
      }
    }
  }

  lemma EntityShortens(s: string)
    requires StartsEntity(s)
    ensures |Unescape(s)| < |s|
  {
    if "&quot;" <= s { UnescapeShrinks(s[6..]); }
    if "&lt;" <= s || "&gt;" <= s { UnescapeShrinks(s[4..]); }
    if "&amp;" <= s { UnescapeShrinks(s[5..]); }
  }

  // An attribute value is read up to its first double quote.
  lemma {:induction false} ValueReads(v: string, more: string)
    ensures var r := Until(Escape(v, COPY_SPECIALS) + "\"" + more, {'"'});
            && Unescape(r) == Until(v, {'"'})
            && (Free(v, {'"'}) ==> r == Escape(v, COPY_SPECIALS))
    ensures Until(v, {'"'}) == v <==> Free(v, {'"'})
  {
    hide Escape, Unescape, Until;
    var u := Until(v, {'"'});
    UntilSplits(v, {'"'});
    EscapeKeepsQuoteFree(u);
    UnescapeEscape(u, COPY_SPECIALS);
    var e := Escape(u, COPY_SPECIALS);
    if u == v {
      assert e + "\"" + more == e + ("\"" + more);
      UntilFree(e, "\"" + more, {'"'});
    } else {
      var rest := v[|u|..];
      EscapeAppend(u, rest, COPY_SPECIALS);
      assert u + rest == v;
      var tail := Escape(rest, COPY_SPECIALS) + "\"" + more;
      QuoteFirst(rest);
      assert Escape(v, COPY_SPECIALS) + "\"" + more == e + tail;
      UntilFree(e, tail, {'"'});
    }
  }

  lemma QuoteFirst(s: string)
    requires s != "" && s[0] == '"'
    ensures var e := Escape(s, COPY_SPECIALS); e != "" && e[0] == '"'
  {
    assert '"' !in COPY_SPECIALS;
  }

  lemma {:induction false} UntilSplits(s: string, stops: set<char>)
    ensures var u := Until(s, stops);
            Free(u, stops) && (|u| < |s| ==> s[|u|] in stops) && (u == s <==> Free(s, stops))
  {
    if s != "" && s[0] !in stops { UntilSplits(s[1..], stops); }
  }

  lemma {:induction false} EscapeKeepsQuoteFree(v: string)
    requires Free(v, {'"'})
    ensures Free(Escape(v, COPY_SPECIALS), {'"'})
  {
    if v != "" { EscapeKeepsQuoteFree(v[1..]); }
  }

  // What the first attribute of a written list reads as.
  lemma FirstAttr(name: string, text: string, more: string)
    requires Nameable(name)
    ensures var s := " " + name + "=\"" + text + "\"" + more;
            var value := Until(text + "\"" + more, {'"'});
            var r := ReadAttrs(Drop(text + "\"" + more, |value| + 1));
            ReadAttrs(s) == ([(name, Unescape(value))] + r.0, r.1)
  {
    hide Unescape;
    var s := " " + name + "=\"" + text + "\"" + more;
    var after := "=\"" + text + "\"" + more;
    assert s[1..] == name + after;
    UntilFree(name, after, {'='});
    assert Drop(s, |name| + 3) == text + "\"" + more;
  }

  lemma {:induction false} ReadsAttrs(attrs: seq<(string, string)>, rest: string)
    requires (forall i :: 0 <= i < |attrs| ==> Nameable(attrs[i].0)) && rest != "" && rest[0] != ' '
    ensures var r := ReadAttrs(WriteAttrs(attrs) + rest);
            && (r.0 == attrs <==> PlainValues(attrs))
            && (PlainValues(attrs) ==> r.1 == rest)
  {
    hide Unescape, Escape, Until, Drop, Nameable, ReadAttrs, PlainValues, WriteAttrs;
    if attrs == [] {
      NoAttrs(rest);
      assert "" + rest == rest;
    } else {
      var name, value := attrs[0].0, attrs[0].1;
      var text := Escape(value, COPY_SPECIALS);
      var more := WriteAttrs(attrs[1..]) + rest;
      var s := WriteAttrs(attrs) + rest;
      AttrsShape(attrs, rest);
      FirstAttr(name, text, more);
      ValueReads(value, more);
      assert ReadAttrs(s).0[0] == (name, Unescape(Until(text + "\"" + more, {'"'})));
      PlainFirst(attrs);
      if Free(value, {'"'}) {
        Dropped(text, more);
        ReadsAttrs(attrs[1..], rest);
        assert ReadAttrs(s).0[1..] == ReadAttrs(more).0;
        assert (name, value) == attrs[0];
        assert attrs == [attrs[0]] + attrs[1..];
      }
    }
  }

  lemma AttrsShape(attrs: seq<(string, string)>, rest: string)
    requires attrs != []
    ensures WriteAttrs(attrs) + rest
            == " " + attrs[0].0 + "=\"" + Escape(attrs[0].1, COPY_SPECIALS) + "\"" + (WriteAttrs(attrs[1..]) + rest)
  {
    hide Escape;
  }

  lemma NoAttrs(rest: string)
    requires rest != "" && rest[0] != ' '
    ensures ReadAttrs(rest) == ([], rest) && PlainValues([]) && WriteAttrs([]) == ""
  {
  }

  lemma PlainFirst(attrs: seq<(string, string)>)
    requires attrs != []
    ensures PlainValues(attrs) <==> Free(attrs[0].1, {'"'}) && PlainValues(attrs[1..])
  {
    assert attrs == [attrs[0]] + attrs[1..];
  }

  lemma Dropped(text: string, more: string)
    ensures Drop(text + "\"" + more, |text| + 1) == more
  {
  }

  lemma ReadsTag(n: string, tail: string)
    requires Nameable(n) && tail != "" && tail[0] in {' ', '>'}
    ensures var r := ReadAttrs(tail);
            Read("<" + (n + tail)) == [Open(n, r.0)] + Read(Drop(r.1, 1))
  {
    hide ReadAttrs, Unescape, Until, Drop;
    var s := "<" + (n + tail);
    assert n[0] in n;
    assert s[0] == '<' && s[1..] == n + tail && s[1] == n[0] && s[1] != '/';
    UntilFree(n, tail, {' ', '>'});
    assert s[1 + |n|..] == tail;
  }

  lemma ReadsOpen(n: string, attrs: seq<(string, string)>, rest: string)
    requires Named(Open(n, attrs))
    ensures var r := Read(Write(Open(n, attrs)) + rest);
            && (PlainValues(attrs) ==> r == [Open(n, attrs)] + Read(rest))
            && (!PlainValues(attrs) ==> r != [] && r[0] != Open(n, attrs))
  {
    hide Unescape, Escape, PlainValues, Read, ReadAttrs, Until, Nameable;
    var tail := WriteAttrs(attrs) + (">" + rest);
    assert Write(Open(n, attrs)) + rest == "<" + (n + tail);
    assert tail[0] in {' ', '>'} by {
      if attrs != [] { assert WriteAttrs(attrs)[0] == ' '; } else { assert tail == ">" + rest; }
    }
    ReadsTag(n, tail);
    ReadsAttrs(attrs, ">" + rest);
    assert Drop(">" + rest, 1) == rest;
  }

  lemma ReadsClose(n: string, rest: string)
    requires Nameable(n)
    ensures Read(Write(Close(n)) + rest) == [Close(n)] + Read(rest)
  {
    var s := Write(Close(n)) + rest;
    assert s == "</" + (n + (">" + rest));
    assert s[2..] == n + (">" + rest);
    UntilFree(n, ">" + rest, {'>'});
    assert Drop(s, |n| + 3) == rest;
  }

  // Text holding a tag start is read as a tag or cut short.
  lemma ReadsChars(t: string, rest: string)
    requires t != "" && (rest != "" ==> rest[0] == '<')
    ensures var r := Read(t + rest);
            && (Free(t, {'<'}) ==> r == [Chars(Unescape(t))] + Read(rest))
            && (!Free(t, {'<'}) ==> r != [] && r[0] != Chars(t))
  {
    hide Unescape;
    assert (t + rest)[0] == t[0];
    if Free(t, {'<'}) {
      UntilFree(t, rest, {'<'});
      assert Drop(t + rest, |t|) == rest;
    } else if t[0] != '<' {
      UntilSplits(t, {'<'});
      var u := Until(t, {'<'});
      assert t + rest == u + (t[|u|..] + rest);
      UntilFree(u, t[|u|..] + rest, {'<'});
      UnescapeShrinks(u);
      assert Read(t + rest)[0] == Chars(Unescape(u));
    }
  }

  /** The reader undoes the writer on exactly the restorable tokens. */
  lemma {:induction false} ReadsBack(ts: seq<Token>)
    requires NamedAll(ts) && NoNeighbours(ts)
    ensures Read(WriteAll(ts)) == ts <==> RestorableAll(ts)
  {
    hide Read, Write, Named, Restorable;
    if ts == [] {
      ReadsNothing();
    } else {
      var rest := WriteAll(ts[1..]);
      ReadsBack(ts[1..]);
      assert Named(ts[0]);
      assert RestorableAll(ts) <==> Restorable(ts[0]) && RestorableAll(ts[1..]) by {
        assert ts == [ts[0]] + ts[1..];
      }
      if |ts| > 1 && !ts[1].Chars? { StartsWithTag(ts[1..]); }
      assert rest != "" && ts[0].Chars? ==> |ts| > 1 && !ts[1].Chars?;
      ReadsFirst(ts[0], rest);
      assert ts == [ts[0]] + ts[1..];
      if Restorable(ts[0]) {
        assert Read(WriteAll(ts))[1..] == Read(rest);
      }
    }
  }

  lemma ReadsFirst(t: Token, rest: string)
    requires Named(t) && (t.Chars? && rest != "" ==> rest[0] == '<')
    ensures var r := Read(Write(t) + rest);
            if Restorable(t) then r == [t] + Read(rest) else r == [] || r[0] != t
  {
    hide Read, Unescape, PlainValues, EntityFree;
    match t {
      case Open(n, a) => ReadsOpen(n, a, rest);
      case Close(n) => ReadsClose(n, rest);
      case Chars(s) =>
        UnescapeKeeps(s);
        ReadsChars(s, rest);
    }
  }

  lemma ReadsNothing()
    ensures Read("") == []
  {
  }

  lemma StartsWithTag(ts: seq<Token>)
    requires ts != [] && !ts[0].Chars?
    ensures WriteAll(ts) != "" && WriteAll(ts)[0] == '<'
  {
    assert Write(ts[0])[0] == '<';
  }

  // ----- Joining -----

  lemma {:induction false} JoinedSame(ts: seq<Token>)
    requires NamedAll(ts)
    ensures WriteAll(Joined(ts)) == WriteAll(ts) && NamedAll(Joined(ts)) && NoNeighbours(Joined(ts))
    ensures ts != [] ==> Joined(ts) != [] && (Joined(ts)[0].Chars? <==> ts[0].Chars?)
    decreases |ts|
  {
    hide Write;
    if |ts| >= 2 {
      if ts[0].Chars? && ts[1].Chars? {
        var us := [Chars(ts[0].text + ts[1].text)] + ts[2..];
        assert Named(ts[0]) && forall i :: 0 < i < |us| ==> us[i] == ts[i + 1];
        JoinedSame(us);
        JoinsTwo(ts);
      } else {
        JoinedSame(ts[1..]);
        JoinsNone(ts);
      }
    }
  }

  lemma WrittenFirst(t: Token, ts: seq<Token>)
    ensures WriteAll([t] + ts) == Write(t) + WriteAll(ts)
  {
    hide Write;
    assert ([t] + ts)[1..] == ts;
  }

  lemma Associates(a: string, b: string, c: string)
    ensures a + (b + c) == (a + b) + c
  {
  }

  lemma JoinsTwo(ts: seq<Token>)
    requires |ts| >= 2 && ts[0].Chars? && ts[1].Chars?
    ensures WriteAll([Chars(ts[0].text + ts[1].text)] + ts[2..]) == WriteAll(ts)
  {
    hide WriteAll;
    assert ts == [ts[0]] + ([ts[1]] + ts[2..]);
    WrittenFirst(ts[0], [ts[1]] + ts[2..]);
    WrittenFirst(ts[1], ts[2..]);
    WrittenFirst(Chars(ts[0].text + ts[1].text), ts[2..]);
    Associates(ts[0].text, ts[1].text, WriteAll(ts[2..]));
  }

  lemma JoinsNone(ts: seq<Token>)
    requires |ts| >= 2 && !(ts[0].Chars? && ts[1].Chars?)
    ensures WriteAll(Joined(ts)) == Write(ts[0]) + WriteAll(Joined(ts[1..]))
  {
    assert ([ts[0]] + Joined(ts[1..]))[1..] == Joined(ts[1..]);
  }

  /** Attribute values have no double quote and text has no markup characters. */
  predicate Clean(t: Token) {
    match t
    case Open(_, a) => PlainValues(a)
    case Close(_) => true
    case Chars(s) => Free(s, {'<', '&'})
  }

  predicate CleanAll(ts: seq<Token>) {
    forall i :: 0 <= i < |ts| ==> Clean(ts[i])
  }

  lemma {:induction false} JoinedClean(ts: seq<Token>)
    requires CleanAll(ts)
    ensures CleanAll(Joined(ts)) && RestorableAll(Joined(ts))
    decreases |ts|
  {
    if |ts| >= 2 && ts[0].Chars? && ts[1].Chars? {
      var us := [Chars(ts[0].text + ts[1].text)] + ts[2..];
      assert Clean(ts[0]) && Clean(ts[1]) && forall i :: 0 < i < |us| ==> us[i] == ts[i + 1];
      JoinedClean(us);
    } else if ts != [] {
      if |ts| >= 2 { JoinedClean(ts[1..]); }
      assert Clean(ts[0]);
      if ts[0].Chars? {
        UnescapePlain(ts[0].text);
        UnescapeKeeps(ts[0].text);
      }
    }
  }

  // ----- The flattened text -----

  lemma {:induction false} AttrsWritten(attrs: seq<XmlAttr>)
    ensures AttrsText(attrs) == WriteAttrs(AttrPairs(attrs))
  {
    hide Escape, AttrName;
    if attrs != [] {
      AttrsWritten(attrs[1..]);
      var p := AttrPairs(attrs);
      assert p[0] == (AttrName(attrs[0]), attrs[0].value) && p[1..] == AttrPairs(attrs[1..]);
    }
  }

  lemma {:induction false} WriteAllAppend(ts: seq<Token>, us: seq<Token>)
    ensures WriteAll(ts + us) == WriteAll(ts) + WriteAll(us)
  {
    hide Write;
    if ts == [] {
      assert ts + us == us;
    } else {
      assert (ts + us)[1..] == ts[1..] + us;
      WriteAllAppend(ts[1..], us);
    }
  }

  lemma {:induction false} PrettyIsWritten(x: Xml)
    ensures Pretty(x) == WriteAll(Tokens(x))
    decreases x, 1
  {
    hide AttrsText, WriteAttrs;
    if x.Elem? {
      PrettyAllIsWritten(x.children);
      AttrsWritten(x.attrs);
      var open, close := [Open(x.name, AttrPairs(x.attrs))], [Close(x.name)];
      WriteAllAppend(open, TokensAll(x.children));
      WriteAllAppend(open + TokensAll(x.children), close);
      WritesOne(open[0]);
      WritesOne(close[0]);
    } else {
      WritesOne(Chars(x.s));
    }
  }

  lemma WritesOne(t: Token)
    ensures WriteAll([t]) == Write(t)
  {
    assert [t][1..] == [];
    assert Write(t) + "" == Write(t);
  }

  lemma {:induction false} PrettyAllIsWritten(xs: seq<Xml>)
    ensures PrettyAll(xs) == WriteAll(TokensAll(xs))
    decreases xs, 0
  {
    hide Pretty, Tokens;
    if xs != [] {
      PrettyIsWritten(xs[0]);
      PrettyAllIsWritten(xs[1..]);
      WriteAllAppend(Tokens(xs[0]), TokensAll(xs[1..]));
    }
  }

  /** Every element and attribute of the body has a name. */
  predicate WellNamed(x: Xml)
    decreases x
  {
    match x
    case Text(_) => true
    case Elem(_, n, attrs, _, cs) =>
      && Nameable(n) && (forall i :: 0 <= i < |attrs| ==> Nameable(AttrName(attrs[i])))
      && forall c :: c in cs ==> WellNamed(c)
  }

  lemma {:induction false} NamedPairs(attrs: seq<XmlAttr>)
    ensures |AttrPairs(attrs)| == |attrs|
    ensures forall i :: 0 <= i < |attrs| ==> AttrPairs(attrs)[i].0 == AttrName(attrs[i])
  {
    hide AttrName;
    if attrs != [] { NamedPairs(attrs[1..]); }
  }

  lemma {:induction false} NamedTokens(x: Xml)
    requires WellNamed(x)
    ensures NamedAll(Tokens(x))
    decreases x, 1
  {
    if x.Elem? {
      NamedPairs(x.attrs);
      NamedTokensAll(x.children);
    }
  }

  lemma {:induction false} NamedTokensAll(xs: seq<Xml>)
    requires forall x :: x in xs ==> WellNamed(x)
    ensures NamedAll(TokensAll(xs))
    decreases xs, 0
  {
    if xs != [] {
      NamedTokens(xs[0]);
      NamedTokensAll(xs[1..]);
    }
  }

  /** Reading the flattened text of a grammar body gives its tags and its visible text again, in
      order, if and only if no attribute value has a double quote and no run of text has a `<` or
      something that reads as an entity. */
  lemma GrammarReadsBack(xs: seq<Xml>)
    requires forall x :: x in xs ==> WellNamed(x)
    ensures Read(PrettyAll(xs)) == Joined(TokensAll(xs)) <==> RestorableAll(Joined(TokensAll(xs)))
    ensures CleanAll(TokensAll(xs)) ==> Read(PrettyAll(xs)) == Joined(TokensAll(xs))
  {
    hide Read, WellNamed;
    PrettyAllIsWritten(xs);
    NamedTokensAll(xs);
    JoinedSame(TokensAll(xs));
    ReadsBack(Joined(TokensAll(xs)));
    if CleanAll(TokensAll(xs)) { JoinedClean(TokensAll(xs)); }
  }

  /** Text is not escaped, so text that looks like markup is read as markup. */
  lemma MarkupInTextIsReadAsMarkup()
    ensures Read(PrettyAll([Text("<a>")])) == [Open("a", [])]
    ensures Joined(TokensAll([Text("<a>")])) == [Chars("<a>")]
  {
    var xs := [Text("<a>")];
    assert xs[1..] == [];
    assert PrettyAll(xs) == "<a>" by { assert !AllBlank("<a>") by { assert "<a>"[0] == '<'; } }
    ReadsOpen("a", [], "");
    assert Write(Open("a", [])) + "" == "<a>";
    ReadsNothing();
  }
}
