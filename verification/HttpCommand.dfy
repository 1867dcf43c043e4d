/** The HttpGet command line: its method and URL are quoted, its post data is not, and URL coding
    leaves the apostrophe as it is. */
module HttpCommand {
  import opened Wrappers
  import opened IpcChannel
  import opened Satc
  import opened CommandLine
  import opened UrlCoding

  const NAME: Bytes := ['H', 't', 't', 'p', 'G', 'e', 't']

  function PostField(pairs: seq<Pair>): Bytes {
    if Query(pairs) == [] then [QUOTE, QUOTE] else Query(pairs)
  }

  function HttpGetLine(verb: Bytes, url: Bytes, pairs: seq<Pair>, flag: Bytes): Bytes {
    Command(NAME, [verb, url]) + [SPACE] + PostField(pairs) + [SPACE] + flag
  }

  /** The message voiceglue_http_get builds, without its newline. */
  method BuildHttpGet(verb: Bytes, url: Bytes, pairs: seq<Pair>, flag: Bytes) returns (line: Bytes)
    requires NUL !in verb && NUL !in url && forall p :: p in pairs ==> NUL !in p.0 && NUL !in p.1
    ensures line == HttpGetLine(verb, url, pairs, flag)
  {
    hide Query, Quoted;
    var post: Bytes := [QUOTE, QUOTE];
    if pairs != [] {
      post := BuildQuery(pairs);
      if |post| == 0 { post := [QUOTE, QUOTE]; }
    } else {
      QueryNone();
    }
    var v := EscapeSatcString(verb);
    var u := EscapeSatcString(url);
    WholeCString(verb);
    WholeCString(url);
    line := NAME + [SPACE] + v + [SPACE] + u + [SPACE] + post + [SPACE] + flag;
    assert Tail([verb, url][1..]) == [SPACE] + Quoted(url) + Tail([]);
    assert Command(NAME, [verb, url]) == NAME + [SPACE] + v + [SPACE] + u;
  }

  // ----- Apostrophes in a bare field -----

  /** A character that only opens or closes an apostrophe quote, or stands for itself. */
  predicate Bare(c: octet) {
    !IsSpace(c) && c != QUOTE && c != BACKSLASH
  }

  function Stripped(s: Bytes): (r: Bytes)
    ensures |r| <= |s| && (TICK in s ==> |r| < |s|) && (TICK !in s ==> r == s)
  {
    if s == [] then [] else (if s[0] == TICK then [] else [s[0]]) + Stripped(s[1..])
  }

  /** Whether the apostrophes in s leave the quote opposite to what it was. */
  predicate Toggles(s: Bytes) {
    s != [] && ((s[0] == TICK) != Toggles(s[1..]))
  }

  function Toggled(q: octet, on: bool): octet {
    if !on then q else if q == NUL then TICK else NUL
  }

  lemma NoTicks(q: octet)
    ensures Stripped([]) == [] && Toggled(q, Toggles([])) == q
  {
  }

  lemma FirstTick(s: Bytes, q: octet)
    requires s != [] && (q == NUL || q == TICK)
    ensures Toggled(q, true) == NUL || Toggled(q, true) == TICK
    ensures Stripped(s) == if s[0] == TICK then Stripped(s[1..]) else [s[0]] + Stripped(s[1..])
    ensures Toggled(q, Toggles(s)) == Toggled(if s[0] == TICK then Toggled(q, true) else q, Toggles(s[1..]))
  {
  }

  lemma FeedBare(st: State, c: octet)
    requires st.field.Some? && (st.quote == NUL || st.quote == TICK) && Bare(c)
    ensures Feed(st, c) == if c == TICK then st.(quote := Toggled(st.quote, true)) else st.(field := Some(st.field.value + [c]))
  {
  }

  lemma {:induction false} ScanBare(fields: seq<Bytes>, cur: Bytes, q: octet, s: Bytes, rest: Bytes)
    requires q == NUL || q == TICK
    requires forall c :: c in s ==> Bare(c)
    ensures Parse(State(fields, Some(cur), q), s + rest)
            == Parse(State(fields, Some(cur + Stripped(s)), Toggled(q, Toggles(s))), rest)
    decreases s
  {
    hide Parse, Feed, Stripped, Toggles, Toggled;
    if s == [] {
      NoTicks(q);
      assert s + rest == rest && cur + Stripped(s) == cur;
    } else {
      var st := State(fields, Some(cur), q);
      assert s + rest == [s[0]] + (s[1..] + rest);
      assert Bare(s[0]);
      FeedStep(st, s[0], s[1..] + rest);
      FeedBare(st, s[0]);
      FirstTick(s, q);
      if s[0] == TICK {
        ScanBare(fields, cur, Toggled(q, true), s[1..], rest);
      } else {
        ScanBare(fields, cur + [s[0]], q, s[1..], rest);
        assert cur + [s[0]] + Stripped(s[1..]) == cur + Stripped(s);
      }
    }
  }

  /** A quote that is never closed is an error whatever follows. */
  lemma {:induction false} NeverClosed(fields: seq<Bytes>, cur: Bytes, s: Bytes)
    requires forall c :: c in s ==> c != TICK && c != BACKSLASH
    ensures Parse(State(fields, Some(cur), TICK), s) == Err(UnterminatedQuote)
    decreases s
  {
    if s != [] {
      var st := State(fields, Some(cur), TICK);
      assert s[0] in s;
      assert Feed(st, s[0]) == State(fields, Some(cur + [s[0]]), TICK);
      assert forall c :: c in s[1..] ==> c in s;
      NeverClosed(fields, cur + [s[0]], s[1..]);
    }
  }

  // ----- The command line -----

  lemma {:induction false} QueryIsBare(pairs: seq<Pair>)
    ensures forall c :: c in Query(pairs) ==> Bare(c)
  {
    hide EncodedAll;
    if pairs != [] {
      EncodedAlphabet(pairs[0].0);
      EncodedAlphabet(pairs[0].1);
      QueryIsBare(pairs[1..]);
    }
  }

  // What the line reads as up to the post data.
  lemma LineReads(verb: Bytes, url: Bytes, rest: Bytes)
    ensures Parse(START, Command(NAME, [verb, url]) + [SPACE] + rest) == Parse(State([NAME, verb, url], None, NUL), rest)
  {
    hide Parse, Tail;
    var args := [verb, url];
    var line := Command(NAME, args) + [SPACE] + rest;
    assert line == NAME + (Tail(args) + ([SPACE] + rest));
    assert line[0] == NAME[0];
    assert forall c :: c in NAME ==> Plain(c);
    BeginField([], line);
    ScanPlain(State([], Some([]), NUL), NAME, Tail(args) + ([SPACE] + rest));
    assert [] + NAME == NAME;
    ScanTail([], NAME, args, [SPACE] + rest);
    assert [] + [NAME] + args[..1] == [NAME, verb];
    EndField([NAME, verb], url, rest);
    assert [NAME, verb] + [url] == [NAME, verb, url];
  }

  // The flag after the post data ends the line.
  lemma FlagReads(fields: seq<Bytes>, post: Bytes, flag: Bytes)
    requires PlainWord(flag)
    ensures Parse(State(fields, Some(post), NUL), [SPACE] + flag) == Ok(fields + [post] + [flag])
  {
    hide Parse;
    EndField(fields, post, flag);
    assert flag[0] in flag && Plain(flag[0]);
    BeginField(fields + [post], flag);
    assert flag + [] == flag && [] + flag == flag;
    ScanPlain(State(fields + [post], Some([]), NUL), flag, []);
    ParseEnd(fields + [post], flag);
  }

  lemma PostReads(fields: seq<Bytes>, pairs: seq<Pair>, flag: Bytes)
    requires PlainWord(flag)
    ensures Parse(State(fields, None, NUL), PostField(pairs) + [SPACE] + flag)
            == if Toggles(Query(pairs)) then Err(UnterminatedQuote) else Ok(fields + [Stripped(Query(pairs))] + [flag])
  {
    hide Parse, Query;
    var p, tail := Query(pairs), [SPACE] + flag;
    if p == [] {
      ScanQuoted(fields, [], tail);
      assert Quoted([]) == [QUOTE, QUOTE];
      assert PostField(pairs) + [SPACE] + flag == Quoted([]) + tail;
      FlagReads(fields, [], flag);
    } else {
      QueryIsBare(pairs);
      assert p[0] in p && Bare(p[0]);
      assert PostField(pairs) + [SPACE] + flag == p + tail;
      BeginField(fields, p + tail);
      ScanBare(fields, [], NUL, p, tail);
      assert [] + Stripped(p) == Stripped(p);
      if Toggles(p) {
        assert forall c :: c in tail ==> c != TICK && c != BACKSLASH by {
          assert forall c :: c in flag ==> Plain(c);
        }
        NeverClosed(fields, Stripped(p), tail);
      } else {
        FlagReads(fields, Stripped(p), flag);
      }
    }
  }

  /** The HttpGet line decodes to the method, the URL, the query string and the flag if and only if
      no apostrophe is in the query string. With an odd number of them it does not decode at all; with
      an even number they are dropped from the data. */
  lemma HttpGetDecodes(verb: Bytes, url: Bytes, pairs: seq<Pair>, flag: Bytes)
    requires PlainWord(flag)
    ensures var r := Parse(START, HttpGetLine(verb, url, pairs, flag));
            var q := Query(pairs);
            && (r == Ok(["HttpGet", verb, url, q, flag]) <==> '\'' !in q)
            && (Toggles(q) ==> r == Err(UnterminatedQuote))
            && (!Toggles(q) ==> r == Ok(["HttpGet", verb, url, Stripped(q), flag]))
  {
    hide Parse, Query, Command;
    var rest := PostField(pairs) + [SPACE] + flag;
    assert HttpGetLine(verb, url, pairs, flag) == Command(NAME, [verb, url]) + [SPACE] + rest;
    LineReads(verb, url, rest);
    PostReads([NAME, verb, url], pairs, flag);
    var q := Query(pairs);
    assert [NAME, verb, url] + [Stripped(q)] + [flag] == [NAME, verb, url, Stripped(q), flag];
    if Toggles(q) { TogglesHasTick(q); }
    assert [NAME, verb, url, Stripped(q), flag][3] == Stripped(q) && [NAME, verb, url, q, flag][3] == q;
  }

  lemma {:induction false} TogglesHasTick(s: Bytes)
    requires Toggles(s)
    ensures TICK in s
  {
    if s[0] != TICK { TogglesHasTick(s[1..]); }
  }

  /** The apostrophes of the query string are those of the keys and values. */
  lemma {:induction false} TicksComeFromData(pairs: seq<Pair>)
    requires forall i :: 0 <= i < |pairs| ==> Whole(pairs[i].0) && Whole(pairs[i].1)
    ensures TICK in Query(pairs) <==> exists i :: 0 <= i < |pairs| && (TICK in pairs[i].0 || TICK in pairs[i].1)
  {
    hide EncodedAll, Whole;
    if pairs != [] {
      TicksComeFromData(pairs[1..]);
      ItemTicks(pairs[0]);
      assert forall i :: 1 <= i < |pairs| ==> pairs[i] == pairs[1..][i - 1];
      assert forall i :: 0 <= i < |pairs| - 1 ==> pairs[1..][i] == pairs[i + 1];
    }
  }

  lemma ItemTicks(p: Pair)
    requires Whole(p.0) && Whole(p.1)
    ensures TICK in Item(p) <==> TICK in p.0 || TICK in p.1
  {
    EncodedTicks(p.0);
    EncodedTicks(p.1);
  }

  lemma {:induction false} EncodedTicks(s: Bytes)
    ensures TICK in EncodedAll(s) <==> TICK in s
  {
    if s != [] {
      EncodedTicks(s[..|s| - 1]);
      assert s == s[..|s| - 1] + [s[|s| - 1]];
    }
  }
}
