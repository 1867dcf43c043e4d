/** Quoting of command arguments, and the parser at the other end that splits a command line into
    fields, undoing quotes and escapes in place. */
module Satc {
  import opened Wrappers
  import opened IpcChannel

  const QUOTE: octet := '"'
  const TICK: octet := '\''
  const BACKSLASH: octet := '\\'

  // ----- Quoting -----

  function HexDigit(n: nat): octet
    requires n < 16
  {
    if n < 10 then (('0' as int) + n) as char else (('a' as int) + n - 10) as char
  }

  function Escaped(c: octet): (r: Bytes)
    ensures |r| > 0
  {
    if c == BACKSLASH then [BACKSLASH, BACKSLASH]
    else if c == NEWLINE then [BACKSLASH, 'n']
    else if c == TICK then [BACKSLASH, TICK]
    else if c == QUOTE then [BACKSLASH, QUOTE]
    else if c < ' ' || c > '~' then [BACKSLASH, 'x', HexDigit(c as int / 16), HexDigit(c as int % 16)]
    else [c]
  }

  function EscapedAll(s: Bytes): Bytes {
    if s == [] then [] else Escaped(s[0]) + EscapedAll(s[1..])
  }

  function Quoted(s: Bytes): Bytes {
    [QUOTE] + EscapedAll(s) + [QUOTE]
  }

  method AppendEscaped(output: Bytes, c: octet) returns (r: Bytes)
    ensures r == output + Escaped(c)
  {
    r := output;
    if c == BACKSLASH {
      r := r + [BACKSLASH, BACKSLASH];
    } else if c == NEWLINE {
      r := r + [BACKSLASH, 'n'];
    } else if c == TICK {
      r := r + [BACKSLASH, TICK];
    } else if c == QUOTE {
      r := r + [BACKSLASH, QUOTE];
    } else if c < ' ' || c > '~' {
      r := r + [BACKSLASH];
      r := r + ['x'];
      r := r + [HexDigit(c as int / 16), HexDigit(c as int % 16)];
    } else {
      r := r + [c];
    }
  }

  /** Quotes a C string character by character. */
  method EscapeSatcString(input: Bytes) returns (output: Bytes)
    ensures output == Quoted(CString(input))
  {
    hide Escaped;
    var bytes := CString(input);
    output := [QUOTE];
    var ptr := 0;
    while ptr < |bytes|
      invariant 0 <= ptr <= |bytes|
      invariant output == [QUOTE] + EscapedAll(bytes[..ptr])
    {
      var c := bytes[ptr];
      EscapedOneMore(bytes, ptr);
      ptr := ptr + 1;
      output := AppendEscaped(output, c);
    }
    assert bytes[..ptr] == bytes;
    output := output + [QUOTE];
  }

  lemma {:induction false} EscapedOneMore(s: Bytes, i: nat)
    requires i < |s|
    ensures EscapedAll(s[..i + 1]) == EscapedAll(s[..i]) + Escaped(s[i])
  {
    hide Escaped;
    if i > 0 {
      EscapedOneMore(s[1..], i - 1);
      assert s[..i + 1][1..] == s[1..][..i] && s[..i][1..] == s[1..][..i - 1];
    } else {
      assert s[..1][1..] == [];
    }
  }

  // ----- The parser as a function -----

  datatype Error = UnterminatedEscape | UnterminatedHex | BadHexDigits | InvalidEscape | UnterminatedQuote

  datatype Result = Ok(fields: seq<Bytes>) | Err(error: Error)

  /** The fields done, the field at hand if one has begun, and the quote it is in (NUL for none). */
  datatype State = State(fields: seq<Bytes>, field: Option<Bytes>, quote: octet)

  const START := State([], None, NUL)

  predicate IsSpace(c: octet) {
    c == ' ' || c == '\t' || c == '\r' || c == '\n'
  }

  function HexValue(c: octet): int {
    if '0' <= c <= '9' then c as int - 48
    else if 'A' <= c <= 'F' then c as int - 55
    else if 'a' <= c <= 'f' then c as int - 87
    else -1
  }

  datatype Escape = Escape(value: octet, length: nat) | Bad(error: Error)

  /** What the escape at the start of s stands for. */
  function Unescape(s: Bytes): (r: Escape)
    requires s != [] && s[0] == BACKSLASH
    ensures r.Escape? ==> 2 <= r.length <= |s|
  {
    if |s| < 2 then Bad(UnterminatedEscape)
    else if s[1] == 'n' then Escape(NEWLINE, 2)
    else if s[1] == BACKSLASH || s[1] == TICK || s[1] == QUOTE then Escape(s[1], 2)
    else if s[1] == 'x' then
      if |s| < 4 then Bad(UnterminatedHex)
      else if HexValue(s[2]) == -1 || HexValue(s[3]) == -1 then Bad(BadHexDigits)
      else Escape((HexValue(s[2]) * 16 + HexValue(s[3])) as char, 4)
    else Bad(InvalidEscape)
  }

  /** The state after one character that is no escape. */
  function Feed(st: State, c: octet): State {
    if st.field.None? && IsSpace(c) then st
    else
      var cur := if st.field.None? then [] else st.field.value;
      var q := if st.field.None? then NUL else st.quote;
      if q != NUL && c == q then State(st.fields, Some(cur), NUL)
      else if q == NUL && IsSpace(c) then State(st.fields + [cur], None, q)
      else if q == NUL && (c == TICK || c == QUOTE) then State(st.fields, Some(cur), c)
      else State(st.fields, Some(cur + [c]), q)
  }

  /** The state after an escape that stands for v. */
  function FeedEscape(st: State, v: octet): State {
    if st.field.None? then State(st.fields, Some([v]), NUL) else st.(field := Some(st.field.value + [v]))
  }

  function Parse(st: State, s: Bytes): Result
    decreases |s|
  {
    if s == [] then
      if st.quote != NUL then Err(UnterminatedQuote)
      else Ok(if st.field.Some? then st.fields + [st.field.value] else st.fields)
    else if s[0] == BACKSLASH then
      match Unescape(s)
      case Bad(e) => Err(e)
      case Escape(v, n) => Parse(FeedEscape(st, v), s[n..])
    else Parse(Feed(st, s[0]), s[1..])
  }

  lemma ParseStep(st: State, s: Bytes)
    requires s != []
    ensures s[0] != BACKSLASH ==> Parse(st, s) == Parse(Feed(st, s[0]), s[1..])
    ensures s[0] == BACKSLASH ==>
              Parse(st, s) == if Unescape(s).Bad? then Err(Unescape(s).error)
                              else Parse(FeedEscape(st, Unescape(s).value), s[Unescape(s).length..])
  {
    hide Unescape, Feed, FeedEscape;
  }

  lemma ParseEnds(st: State)
    ensures Parse(st, []) == if st.quote != NUL then Err(UnterminatedQuote)
                             else Ok(if st.field.Some? then st.fields + [st.field.value] else st.fields)
  {
  }

  // The field at hand once it has begun.
  function Current(st: State): Bytes {
    if st.field.None? then [] else st.field.value
  }

  lemma FeedBegun(st: State, c: octet)
    requires (st.field.None? ==> st.quote == NUL) && (st.field.Some? || !IsSpace(c))
    ensures var cur, q := Current(st), st.quote;
            Feed(st, c) == if q != NUL && c == q then State(st.fields, Some(cur), NUL)
                           else if q == NUL && IsSpace(c) then State(st.fields + [cur], None, NUL)
                           else if q == NUL && (c == TICK || c == QUOTE) then State(st.fields, Some(cur), c)
                           else State(st.fields, Some(cur + [c]), q)
  {
  }

  lemma EscapeBegun(st: State, v: octet)
    requires st.field.None? ==> st.quote == NUL
    ensures FeedEscape(st, v) == State(st.fields, Some(Current(st) + [v]), st.quote)
  {
    assert [] + [v] == [v];
  }

  lemma FeedBetween(st: State, c: octet)
    requires st.field.None? && IsSpace(c)
    ensures Feed(st, c) == st && c != BACKSLASH
  {
  }

  // ----- The parser in place -----

  /** The escape whose backslash is at escapeStart. */
  method ReadEscape(bytes: array<octet>, escapeStart: nat) returns (e: Escape)
    requires escapeStart < bytes.Length && bytes[escapeStart] == BACKSLASH
    ensures e == Unescape(bytes[escapeStart..])
  {
    ghost var s := bytes[escapeStart..];
    var ptr := escapeStart + 1;
    if ptr >= bytes.Length { return Bad(UnterminatedEscape); }
    var c := bytes[ptr];
    assert c == s[1];
    if c == 'n' { return Escape(NEWLINE, 2); }
    if c == BACKSLASH || c == TICK || c == QUOTE { return Escape(c, 2); }
    if c != 'x' { return Bad(InvalidEscape); }
    if ptr + 2 >= bytes.Length { return Bad(UnterminatedHex); }
    var dig1, dig2 := HexValue(bytes[ptr + 1]), HexValue(bytes[ptr + 2]);
    assert bytes[ptr + 1] == s[2] && bytes[ptr + 2] == s[3];
    if dig1 == -1 || dig2 == -1 { return Bad(BadHexDigits); }
    e := Escape((dig1 * 16 + dig2) as char, 4);
  }

  /** Splits the buffer into fields. Each field is gathered at its own start in the buffer, which
      undoing quotes and escapes can only shorten, so it never overtakes what is still to be read. */
  method ParseSatcFields(bytes: array<octet>) returns (r: Result)
    modifies bytes
    ensures r == Parse(START, old(bytes[..]))
  {
    hide Unescape, Parse, Feed, FeedEscape, IsSpace;
    ghost var s := bytes[..];
    var fields: seq<Bytes> := [];
    var started := false;
    var fieldStart, fieldEnd := 0, 0;
    var quote := NUL;
    var ptr := 0;
    assert s[0..] == s;
    while ptr < bytes.Length
      invariant 0 <= ptr <= bytes.Length
      invariant bytes[ptr..] == s[ptr..]
      invariant started ==> 0 <= fieldStart <= fieldEnd <= ptr
      invariant !started ==> quote == NUL
      invariant Parse(State(fields, if started then Some(bytes[fieldStart..fieldEnd]) else None, quote), s[ptr..])
                == Parse(START, s)
    {
      ghost var st := State(fields, if started then Some(bytes[fieldStart..fieldEnd]) else None, quote);
      assert bytes[ptr..][0] == bytes[ptr] == s[ptr] == s[ptr..][0] && s[ptr..][1..] == s[ptr + 1..];
      var c := bytes[ptr];
      ParseStep(st, s[ptr..]);
      if started || !IsSpace(c) {
        FeedBegun(st, c);
        if !started {
          started, fieldStart, fieldEnd, quote := true, ptr, ptr, NUL;
        }
        assert bytes[fieldStart..fieldEnd] == Current(st);
        if c == BACKSLASH {
          var e := ReadEscape(bytes, ptr);
          if e.Bad? { return Err(e.error); }
          assert s[ptr..][e.length..] == s[ptr + e.length..];
          EscapeBegun(st, e.value);
          bytes[fieldEnd] := e.value;
          fieldEnd := fieldEnd + 1;
          ptr := ptr + e.length;
          assert bytes[fieldStart..fieldEnd] == Current(st) + [e.value];
          assert State(fields, Some(bytes[fieldStart..fieldEnd]), quote) == FeedEscape(st, e.value);
        } else {
          if quote != NUL && c == quote {
            quote := NUL;
          } else if quote == NUL && IsSpace(c) {
            fields := fields + [bytes[fieldStart..fieldEnd]];
            started := false;
          } else if quote == NUL && (c == TICK || c == QUOTE) {
            quote := c;
          } else {
            if fieldEnd != ptr { bytes[fieldEnd] := c; }
            fieldEnd := fieldEnd + 1;
            assert bytes[fieldStart..fieldEnd] == Current(st) + [c];
          }
          ptr := ptr + 1;
          assert State(fields, if started then Some(bytes[fieldStart..fieldEnd]) else None, quote) == Feed(st, c);
        }
      } else {
        FeedBetween(st, c);
        ptr := ptr + 1;
      }
    }
    ParseEnds(State(fields, if started then Some(bytes[fieldStart..fieldEnd]) else None, quote));
    if quote != NUL { return Err(UnterminatedQuote); }
    if started { fields := fields + [bytes[fieldStart..fieldEnd]]; }
    r := Ok(fields);
  }
}
