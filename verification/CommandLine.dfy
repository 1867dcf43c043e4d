/** Command lines made of quoted arguments: each is one printable frame that decodes to exactly the
    arguments it was made from. */
module CommandLine {
  import opened Wrappers
  import opened IpcChannel
  import opened Satc
  import Whitespace

  const SPACE: octet := ' '

  function Tail(args: seq<Bytes>): Bytes {
    if args == [] then [] else [SPACE] + Quoted(args[0]) + Tail(args[1..])
  }

  function Command(name: Bytes, args: seq<Bytes>): Bytes {
    name + Tail(args)
  }

  predicate Plain(c: octet) {
    !IsSpace(c) && c != TICK && c != QUOTE && c != BACKSLASH
  }

  predicate PlainWord(w: Bytes) {
    w != [] && forall c :: c in w ==> Plain(c)
  }

  // ----- One character -----

  lemma HexRoundTrip(c: octet)
    ensures HexValue(HexDigit(c as int / 16)) == c as int / 16 && HexValue(HexDigit(c as int % 16)) == c as int % 16
    ensures (HexValue(HexDigit(c as int / 16)) * 16 + HexValue(HexDigit(c as int % 16))) as char == c
  {
  }

  lemma EscapedReads(c: octet, rest: Bytes)
    requires Escaped(c)[0] == BACKSLASH
    ensures Unescape(Escaped(c) + rest) == Escape(c, |Escaped(c)|)
  {
    HexRoundTrip(c);
  }

  /** Inside a quoted argument, the escape of a character adds that character. */
  lemma ScanOne(st: State, c: octet, rest: Bytes)
    requires st.field.Some? && st.quote == QUOTE
    ensures Parse(st, Escaped(c) + rest) == Parse(st.(field := Some(st.field.value + [c])), rest)
  {
    hide Unescape;
    assert (Escaped(c) + rest)[|Escaped(c)|..] == rest;
    assert (Escaped(c) + rest)[0] == Escaped(c)[0];
    if Escaped(c)[0] == BACKSLASH {
      EscapedReads(c, rest);
    } else {
      assert Escaped(c) == [c];
    }
  }

  lemma {:induction false} ScanEscaped(st: State, a: Bytes, rest: Bytes)
    requires st.field.Some? && st.quote == QUOTE
    ensures Parse(st, EscapedAll(a) + rest) == Parse(st.(field := Some(st.field.value + a)), rest)
    decreases a
  {
    hide Escaped, Parse;
    if a == [] {
      assert EscapedAll(a) + rest == rest;
      assert st.field.value + a == st.field.value;
    } else {
      var next := st.(field := Some(st.field.value + [a[0]]));
      assert EscapedAll(a) + rest == Escaped(a[0]) + (EscapedAll(a[1..]) + rest);
      ScanOne(st, a[0], EscapedAll(a[1..]) + rest);
      ScanEscaped(next, a[1..], rest);
      assert st.field.value + [a[0]] + a[1..] == st.field.value + a;
    }
  }

  lemma FeedStep(st: State, c: octet, rest: Bytes)
    requires c != BACKSLASH
    ensures Parse(st, [c] + rest) == Parse(Feed(st, c), rest)
  {
    assert ([c] + rest)[1..] == rest;
  }

  /** A quoted argument between fields becomes the field at hand. */
  lemma ScanQuoted(fields: seq<Bytes>, a: Bytes, rest: Bytes)
    ensures Parse(State(fields, None, NUL), Quoted(a) + rest) == Parse(State(fields, Some(a), NUL), rest)
  {
    hide Parse, EscapedAll;
    var body := EscapedAll(a);
    assert Quoted(a) + rest == [QUOTE] + (body + ([QUOTE] + rest));
    FeedStep(State(fields, None, NUL), QUOTE, body + ([QUOTE] + rest));
    ScanEscaped(State(fields, Some([]), QUOTE), a, [QUOTE] + rest);
    assert [] + a == a;
    FeedStep(State(fields, Some(a), QUOTE), QUOTE, rest);
  }

  lemma {:induction false} ScanPlain(st: State, w: Bytes, rest: Bytes)
    requires st.field.Some? && st.quote == NUL && forall c :: c in w ==> Plain(c)
    ensures Parse(st, w + rest) == Parse(st.(field := Some(st.field.value + w)), rest)
    decreases w
  {
    hide Parse;
    if w == [] {
      assert w + rest == rest;
      assert st.field.value + w == st.field.value;
    } else {
      assert w + rest == [w[0]] + (w[1..] + rest);
      assert Plain(w[0]);
      FeedStep(st, w[0], w[1..] + rest);
      ScanPlain(Feed(st, w[0]), w[1..], rest);
      assert st.field.value + [w[0]] + w[1..] == st.field.value + w;
    }
  }

  // The first character of a field begins it.
  lemma BeginField(fields: seq<Bytes>, s: Bytes)
    requires s != [] && !IsSpace(s[0]) && s[0] != BACKSLASH
    ensures Parse(State(fields, None, NUL), s) == Parse(State(fields, Some([]), NUL), s)
  {
    assert Feed(State(fields, None, NUL), s[0]) == Feed(State(fields, Some([]), NUL), s[0]);
  }

  lemma EndField(fields: seq<Bytes>, a: Bytes, rest: Bytes)
    ensures Parse(State(fields, Some(a), NUL), [SPACE] + rest) == Parse(State(fields + [a], None, NUL), rest)
  {
    FeedStep(State(fields, Some(a), NUL), SPACE, rest);
  }

  // ----- Lines of any origin -----

  // The words of what follows, the first of them joined to the field at hand.
  function Resumed(field: Option<Bytes>, s: Bytes): seq<string> {
    var ws := Whitespace.Words(s);
    if field.None? then ws
    else if s == [] || Whitespace.IsBlank(s[0]) then [field.value] + ws
    else [field.value + ws[0]] + ws[1..]
  }

  predicate NoQuotes(s: Bytes) {
    forall i :: 0 <= i < |s| ==> s[i] != '\'' && s[i] != '"' && s[i] != '\\'
  }

  lemma OneResumed(st: State, s: Bytes)
    requires s != [] && NoQuotes(s) && st.quote == NUL
    ensures var next := Feed(st, s[0]);
            next.quote == NUL && st.fields + Resumed(st.field, s) == next.fields + Resumed(next.field, s[1..])
  {
    var next, c, rest := Feed(st, s[0]), s[0], s[1..];
    var ws, more := Whitespace.Words(s), Whitespace.Words(rest);
    assert IsSpace(c) <==> Whitespace.IsBlank(c);
    if Whitespace.IsBlank(c) {
      assert ws == more;
      if st.field.Some? { assert st.fields + [st.field.value] + more == st.fields + ([st.field.value] + more); }
    } else if rest == [] || Whitespace.IsBlank(rest[0]) {
      assert ws == [[c]] + more && ws[1..] == more;
      assert [] + [c] == [c];
    } else {
      assert ws == [[c] + more[0]] + more[1..] && ws[1..] == more[1..];
      if st.field.Some? { assert st.field.value + [c] + more[0] == st.field.value + ([c] + more[0]); }
      assert [] + [c] == [c];
    }
  }

  lemma {:induction false} SplitAtBlanks(fields: seq<Bytes>, field: Option<Bytes>, s: Bytes)
    requires NoQuotes(s)
    ensures var r := Parse(State(fields, field, NUL), s); r.Ok? && r.fields == fields + Resumed(field, s)
    decreases |s|
  {
    hide Parse;
    var st := State(fields, field, NUL);
    if s == [] {
      ParseEnds(st);
      assert Whitespace.Words(s) == [];
    } else {
      var rest := s[1..];
      assert s == [s[0]] + rest;
      FeedStep(st, s[0], rest);
      var next := Feed(st, s[0]);
      SplitAtBlanks(next.fields, next.field, rest);
      OneResumed(st, s);
    }
  }

  /** A line without quotes and backslashes is split into its words. */
  lemma BareLine(s: Bytes)
    requires NoQuotes(s)
    ensures Parse(START, s).Ok? && Parse(START, s).fields == Whitespace.Words(s)
  {
    hide Parse;
    SplitAtBlanks([], None, s);
  }

  lemma {:induction false} ScanInside(fields: seq<Bytes>, cur: Bytes, q: octet, s: Bytes, rest: Bytes)
    requires q != NUL && q !in s && '\\' !in s
    ensures Parse(State(fields, Some(cur), q), s + rest) == Parse(State(fields, Some(cur + s), q), rest)
    decreases s
  {
    hide Parse;
    if s == [] {
      assert s + rest == rest && cur + s == cur;
    } else {
      assert s[0] in s && s + rest == [s[0]] + (s[1..] + rest);
      FeedStep(State(fields, Some(cur), q), s[0], s[1..] + rest);
      ScanInside(fields, cur + [s[0]], q, s[1..], rest);
      assert cur + [s[0]] + s[1..] == cur + s;
    }
  }

  /** Either kind of quote keeps everything up to the next of its kind, backslashes aside. */
  lemma QuotedField(q: octet, s: Bytes)
    requires (q == '"' || q == '\'') && q !in s && '\\' !in s
    ensures Parse(START, [q] + s + [q]) == Ok([s])
  {
    hide Parse;
    assert [q] + s + [q] == [q] + (s + [q]);
    FeedStep(START, q, s + [q]);
    ScanInside([], [], q, s, [q]);
    assert [] + s == s && [q] + [] == [q];
    FeedStep(State([], Some(s), q), q, []);
    ParseEnd([], s);
    assert [] + [s] == [s];
  }

  /** The escapes there are: n for a newline, a backslash or quote for itself, x and two digits. */
  lemma EscapesRead(s: Bytes)
    requires |s| >= 2 && s[0] == '\\'
    ensures s[1] == 'n' ==> Unescape(s) == Escape('\n', 2)
    ensures s[1] in "\\'\"" ==> Unescape(s) == Escape(s[1], 2)
    ensures s[1] !in "nx\\'\"" ==> Unescape(s).Bad?
  {
  }

  // ----- Whole commands -----

  lemma AllButLast(fields: seq<Bytes>, args: seq<Bytes>)
    requires args != []
    ensures fields + args[..|args| - 1] == if |args| == 1 then fields else fields + [args[0]] + args[1..][..|args| - 2]
  {
    if |args| > 1 { assert args[..|args| - 1] == [args[0]] + args[1..][..|args| - 2]; }
  }

  lemma {:induction false} ScanTail(fields: seq<Bytes>, last: Bytes, args: seq<Bytes>, rest: Bytes)
    ensures Parse(State(fields, Some(last), NUL), Tail(args) + rest)
            == if args == [] then Parse(State(fields, Some(last), NUL), rest)
               else Parse(State(fields + [last] + args[..|args| - 1], Some(args[|args| - 1]), NUL), rest)
    decreases args
  {
    hide Parse, Quoted;
    if args == [] {
      assert Tail(args) + rest == rest;
    } else {
      var after := Tail(args[1..]) + rest;
      assert Tail(args) + rest == [SPACE] + (Quoted(args[0]) + after);
      EndField(fields, last, Quoted(args[0]) + after);
      ScanQuoted(fields + [last], args[0], after);
      ScanTail(fields + [last], args[0], args[1..], rest);
      AllButLast(fields + [last], args);
    }
  }

  /** A command decodes to its name and its arguments, whatever bytes the arguments hold. */
  lemma CommandDecodes(name: Bytes, args: seq<Bytes>)
    requires PlainWord(name)
    ensures Parse(START, Command(name, args)) == Ok([name] + args)
  {
    hide Parse, Tail;
    var line := Command(name, args);
    assert line[0] == name[0] && Plain(name[0]);
    BeginField([], line);
    ScanPlain(State([], Some([]), NUL), name, Tail(args));
    assert [] + name == name;
    ScanTail([], name, args, []);
    assert Tail(args) + [] == Tail(args);
    var n := |args|;
    if n > 0 {
      ParseEnd([] + [name] + args[..n - 1], args[n - 1]);
      assert [] + [name] + args[..n - 1] + [args[n - 1]] == [name] + args;
    } else {
      ParseEnd([], name);
    }
  }

  lemma ParseEnd(fields: seq<Bytes>, last: Bytes)
    ensures Parse(State(fields, Some(last), NUL), []) == Ok(fields + [last])
  {
  }

  /** So two commands that read the same are the same. */
  lemma CommandIsUnique(name: Bytes, args: seq<Bytes>, name2: Bytes, args2: seq<Bytes>)
    requires PlainWord(name) && PlainWord(name2) && Command(name, args) == Command(name2, args2)
    ensures name == name2 && args == args2
  {
    hide Parse, Command;
    CommandDecodes(name, args);
    CommandDecodes(name2, args2);
    assert ([name] + args)[0] == name && ([name2] + args2)[0] == name2;
    assert ([name] + args)[1..] == args && ([name2] + args2)[1..] == args2;
  }

  predicate Printable(s: Bytes) {
    forall c :: c in s ==> ' ' <= c <= '~'
  }

  lemma {:induction false} EscapedIsPrintable(s: Bytes)
    ensures Printable(EscapedAll(s))
  {
    if s != [] { EscapedIsPrintable(s[1..]); }
  }

  lemma {:induction false} TailIsPrintable(args: seq<Bytes>)
    ensures Printable(Tail(args))
  {
    if args != [] {
      EscapedIsPrintable(args[0]);
      TailIsPrintable(args[1..]);
    }
  }

  /** A command is printable, so it holds no newline and no NUL and makes one frame. */
  lemma CommandIsOneFrame(name: Bytes, args: seq<Bytes>)
    requires Printable(name)
    ensures Printable(Command(name, args)) && '\n' !in Command(name, args) && '\0' !in Command(name, args)
  {
    TailIsPrintable(args);
  }

  /** A command built from C strings, sent over an idle channel and parsed at the other end. */
  method Call(ch: Channel, name: Bytes, args: seq<Bytes>) returns (r: Option<Result>)
    requires ch.pending == [] && PlainWord(name) && Printable(name)
    requires forall a :: a in args ==> NUL !in a
    modifies ch
    ensures Failed !in old(ch.attempts) ==> r == Some(Ok([name] + args)) && ch.pending == []
  {
    var line := name;
    var i := 0;
    while i < |args|
      invariant 0 <= i <= |args| && line == Command(name, args[..i])
      invariant ch.pending == [] && ch.attempts == old(ch.attempts)
    {
      var quoted := EscapeSatcString(args[i]);
      WholeCString(args[i]);
      TailOneMore(args, i);
      line := line + [SPACE] + quoted;
      i := i + 1;
    }
    assert args[..i] == args;
    CommandIsOneFrame(name, args);
    CommandDecodes(name, args);
    var received := Exchange(ch, line);
    if received.None? { return None; }
    var buf := new octet[|received.value|](k requires 0 <= k < |received.value| => received.value[k]);
    assert buf[..] == received.value;
    var fields := ParseSatcFields(buf);
    r := Some(fields);
  }

  lemma {:induction false} TailOneMore(args: seq<Bytes>, i: nat)
    requires i < |args|
    ensures Tail(args[..i + 1]) == Tail(args[..i]) + [SPACE] + Quoted(args[i])
  {
    hide Quoted;
    if i > 0 {
      TailOneMore(args[1..], i - 1);
      assert args[..i + 1][1..] == args[1..][..i] && args[..i][1..] == args[1..][..i - 1];
    } else {
      assert args[..1][1..] == [];
    }
  }
}
