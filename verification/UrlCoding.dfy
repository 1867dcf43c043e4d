/** URL coding in character buffers, and the query strings made of it. */
module UrlCoding {
  import opened Wrappers
  import opened IpcChannel
  import opened Satc

  const UINT: nat := 0x1_0000_0000

  const MARKS: Bytes := ['-', '_', '.', '!', '~', '*', '\'', '(', ')']

  predicate IsAlnum(c: octet) {
    '0' <= c <= '9' || 'A' <= c <= 'Z' || 'a' <= c <= 'z'
  }

  function UpperDigit(n: nat): octet
    requires n < 16
  {
    if n < 10 then (('0' as int) + n) as char else (('A' as int) + n - 10) as char
  }

  function Encoded(c: octet): (r: Bytes)
    ensures 1 <= |r| <= 3
  {
    if c == ' ' then ['+']
    else if IsAlnum(c) || c in MARKS then [c]
    else ['%', UpperDigit(c as int / 16), UpperDigit(c as int % 16)]
  }

  function EncodedAll(s: Bytes): (r: Bytes)
    ensures |s| <= |r| <= 3 * |s|
  {
    if s == [] then [] else EncodedAll(s[..|s| - 1]) + Encoded(s[|s| - 1])
  }

  /** The value of two hexadecimal digits, or -1. */
  function HexPair(a: octet, b: octet): (r: int)
    ensures -1 <= r < 256
  {
    if HexValue(a) == -1 || HexValue(b) == -1 then -1 else HexValue(a) * 16 + HexValue(b)
  }

  function DecodedAll(s: Bytes): (r: Bytes)
    ensures |r| <= |s|
    decreases |s|
  {
    if s == [] then []
    else if s[0] == '+' then [' '] + DecodedAll(s[1..])
    else if s[0] == '%' then
      if |s| >= 3 && HexPair(s[1], s[2]) >= 0 then [HexPair(s[1], s[2]) as char] + DecodedAll(s[3..])
      else ['?'] + DecodedAll(s[1..])
    else [s[0]] + DecodedAll(s[1..])
  }

  // ----- Buffers -----

  method HexPairValue(code: Bytes) returns (value: int)
    requires |code| == 2
    ensures value == HexPair(code[0], code[1])
  {
    value := 0;
    var pch := 0;
    while true
      invariant 0 <= pch < 2
      invariant value == if pch == 0 then 0 else HexValue(code[0]) * 16
      invariant pch == 1 ==> HexValue(code[0]) != -1
      decreases 2 - pch
    {
      var digit := code[pch];
      pch := pch + 1;
      if '0' <= digit <= '9' {
        value := value + (digit as int - '0' as int);
      } else if 'A' <= digit <= 'F' {
        value := value + (digit as int - 'A' as int + 10);
      } else if 'a' <= digit <= 'f' {
        value := value + (digit as int - 'a' as int + 10);
      } else {
        return -1;
      }
      if pch == 2 { return; }
      value := value * 16;
    }
  }

  /** The character the switch of UrlDecode yields at a position, and how far it moves on. */
  method DecodeAt(source: Bytes, at: nat) returns (c: octet, used: nat)
    requires at < |source|
    ensures 1 <= used <= |source| - at
    ensures DecodedAll(source[at..]) == [c] + DecodedAll(source[at + used..])
  {
    ghost var rest := source[at..];
    assert rest[1..] == source[at + 1..];
    used := 1;
    if source[at] == '+' {
      c := ' ';
    } else if source[at] == '%' {
      if at + 2 < |source| {
        var value := HexPairValue(source[at + 1..at + 3]);
        assert rest[1] == source[at + 1] && rest[2] == source[at + 2] && rest[3..] == source[at + 3..];
        if value >= 0 {
          c := value as char;
          used := 3;
        } else {
          c := '?';
        }
      } else {
        c := '?';
      }
    } else {
      c := source[at];
    }
  }

  /** Decodes a C string into a buffer with room for it and its terminator. */
  method UrlDecode(source: Bytes, dest: array<octet>) returns (n: nat)
    requires NUL !in source && dest.Length > |source|
    modifies dest
    ensures n == |DecodedAll(source)| && dest[..n] == DecodedAll(source) && dest[n] == NUL
  {
    hide DecodedAll;
    n := 0;
    var at := 0;
    assert source[0..] == source;
    while at < |source|
      invariant 0 <= at <= |source| && n <= at
      invariant dest[..n] + DecodedAll(source[at..]) == DecodedAll(source)
    {
      ghost var done := dest[..n];
      var c, used := DecodeAt(source, at);
      dest[n] := c;
      n := n + 1;
      at := at + used;
      assert dest[..n] == done + [c];
    }
    assert source[at..] == [] && DecodedAll([]) == [];
    dest[n] := NUL;
  }

  /** Writes the code of one character at position n. */
  method PutEncoded(c: octet, dest: array<octet>, n: nat) returns (m: nat)
    requires n + 3 <= dest.Length
    modifies dest
    ensures n < m <= n + 3 && dest[..m] == old(dest[..n]) + Encoded(c)
  {
    if c == ' ' {
      dest[n] := '+';
      m := n + 1;
    } else if IsAlnum(c) || c in MARKS {
      dest[n] := c;
      m := n + 1;
    } else {
      dest[n] := '%';
      dest[n + 1] := UpperDigit(c as int / 16);
      dest[n + 2] := UpperDigit(c as int % 16);
      m := n + 3;
    }
  }

  /** Encodes a C string into a buffer that the caller has made large enough. The count that is
      compared with max stays at zero, so max decides only whether anything is encoded at all:
      nothing is when max is 4. The result is the number of bytes, negated. */
  method UrlEncode(source: Bytes, dest: array<octet>, max: nat) returns (r: int)
    requires NUL !in source && dest.Length > 3 * |source| && max < UINT
    modifies dest
    ensures var e := if max == 4 then [] else EncodedAll(source);
            r == -|e| && dest[..|e|] == e && dest[|e|] == NUL
  {
    hide Encoded;
    var len := 0;
    var n, at := 0, 0;
    while len < (max - 4) % UINT && at < |source|
      invariant 0 <= at <= |source| && n <= 3 * at && len == 0
      invariant n == |EncodedAll(source[..at])| && dest[..n] == EncodedAll(source[..at])
      invariant max == 4 ==> at == 0
      decreases |source| - at
    {
      var c := source[at];
      n := PutEncoded(c, dest, n);
      assert source[..at + 1][..at] == source[..at];
      at := at + 1;
    }
    dest[n] := NUL;
    assert source[..|source|] == source && source[..0] == [];
    r := -n;
  }

  // ----- Strings -----

  /** The one length, up to multiples of 2^32, whose buffer size wraps to 4. */
  const TRUNCATED: nat := 2863311531

  function EncodedString(s: Bytes): Bytes {
    if |s| % UINT == TRUNCATED then [] else EncodedAll(s)
  }

  lemma SizeWraps(n: nat)
    ensures (3 * n + 3) % UINT == 4 <==> n % UINT == TRUNCATED
  {
    var q, m := n / UINT, n % UINT;
    assert 3 * n + 3 == 3 * m + 3 + UINT * (3 * q);
    Wrapping(3 * m + 3, 3 * q);
    assert 0 <= 3 * m + 3 <= 3 * UINT;
  }

  lemma Wrapping(a: nat, k: nat)
    ensures (a + UINT * k) % UINT == a % UINT
  {
  }

  method Copied(buf: array<octet>, n: nat) returns (s: Bytes)
    requires n < buf.Length && buf[n] == NUL
    ensures s == CString(buf[..n])
  {
    s := CString(buf[..n]);
  }

  /** A buffer of 3n + 3 bytes, 64 at least, always suffices. */
  method UrlEncodeString(decoded: Bytes) returns (r: Bytes)
    requires NUL !in decoded
    ensures r == EncodedString(decoded)
  {
    hide EncodedAll;
    var needed := 3 * |decoded| + 3;
    var buf := new octet[if needed > 64 then needed else 64];
    var n := UrlEncode(decoded, buf, needed % UINT);
    SizeWraps(|decoded|);
    EncodedAlphabet(decoded);
    WholeCString(buf[..-n]);
    r := Copied(buf, -n);
  }

  method UrlDecodeString(encoded: Bytes) returns (r: Bytes)
    requires NUL !in encoded
    ensures r == CString(DecodedAll(encoded))
  {
    var needed := |encoded|;
    var pch := 0;
    while pch < |encoded|
      invariant needed >= |encoded|
    {
      if encoded[pch] == '%' { needed := needed + 2; }
      pch := pch + 1;
    }
    needed := needed + 10;
    var buf := new octet[if needed > 64 then needed else 64];
    var n := UrlDecode(encoded, buf);
    r := Copied(buf, n);
  }

  // ----- Laws -----

  predicate UrlCharacter(c: octet) {
    IsAlnum(c) || c in MARKS || c == '+' || c == '%'
  }

  lemma EncodedCharacters(c: octet)
    ensures forall d :: d in Encoded(c) ==> UrlCharacter(d)
    ensures NUL !in Encoded(c) && '&' !in Encoded(c) && '=' !in Encoded(c)
  {
  }

  lemma {:induction false} EncodedAlphabet(s: Bytes)
    ensures forall c :: c in EncodedAll(s) ==> UrlCharacter(c)
    ensures NUL !in EncodedAll(s) && '&' !in EncodedAll(s) && '=' !in EncodedAll(s)
  {
    hide Encoded;
    if s != [] {
      EncodedAlphabet(s[..|s| - 1]);
      EncodedCharacters(s[|s| - 1]);
    }
  }

  lemma DecodeOne(c: octet, rest: Bytes)
    ensures DecodedAll(Encoded(c) + rest) == [c] + DecodedAll(rest)
  {
    var e := Encoded(c);
    assert (e + rest)[|e|..] == rest;
    assert (e + rest)[0] == e[0];
    if |e| == 3 {
      assert (e + rest)[1] == e[1] && (e + rest)[2] == e[2];
      assert HexPair(e[1], e[2]) == c as int;
    }
  }

  lemma {:induction false} DecodeEncodeThen(s: Bytes, rest: Bytes)
    ensures DecodedAll(EncodedAll(s) + rest) == s + DecodedAll(rest)
  {
    hide Encoded, DecodedAll;
    if s == [] {
      assert EncodedAll(s) + rest == rest;
    } else {
      var n := |s| - 1;
      assert EncodedAll(s) + rest == EncodedAll(s[..n]) + (Encoded(s[n]) + rest);
      DecodeEncodeThen(s[..n], Encoded(s[n]) + rest);
      DecodeOne(s[n], rest);
      assert s == s[..n] + [s[n]];
    }
  }

  /** Decoding undoes encoding, for every byte string. */
  lemma DecodeEncode(s: Bytes)
    ensures DecodedAll(EncodedAll(s)) == s
  {
    DecodeEncodeThen(s, []);
    assert EncodedAll(s) + [] == EncodedAll(s);
  }

  /** The characters that stand for themselves. */
  predicate Unreserved(c: char) {
    c in "ABCDEFGHIJKLMNOPQRSTUVWXYZ" || c in "abcdefghijklmnopqrstuvwxyz" || c in "0123456789" || c in "-_.!~*'()"
  }

  function HexCode(c: octet): string {
    ['%', "0123456789ABCDEF"[c as int / 16], "0123456789ABCDEF"[c as int % 16]]
  }

  lemma AreLetters(c: octet)
    ensures c in "ABCDEFGHIJKLMNOPQRSTUVWXYZ" ==> 'A' <= c <= 'Z'
    ensures c in "abcdefghijklmnopqrstuvwxyz" ==> 'a' <= c <= 'z'
  {
  }

  lemma Letters(c: octet)
    ensures 'A' <= c <= 'Z' ==> c in "ABCDEFGHIJKLMNOPQRSTUVWXYZ"
    ensures 'a' <= c <= 'z' ==> c in "abcdefghijklmnopqrstuvwxyz"
  {
    if 'A' <= c <= 'Z' { assert "ABCDEFGHIJKLMNOPQRSTUVWXYZ"[c as int - 65] == c; }
    if 'a' <= c <= 'z' { assert "abcdefghijklmnopqrstuvwxyz"[c as int - 97] == c; }
  }

  lemma UnreservedIs(c: octet)
    ensures Unreserved(c) <==> IsAlnum(c) || c in MARKS
  {
    AreLetters(c);
    Letters(c);
    if '0' <= c <= '9' { assert "0123456789"[c as int - 48] == c; }
  }

  lemma CodeIs(c: octet)
    ensures Encoded(c) == if c == ' ' then "+" else if Unreserved(c) then [c] else HexCode(c)
  {
    hide Unreserved;
    UnreservedIs(c);
  }

  lemma EncodedLast(s: Bytes)
    requires s != []
    ensures EncodedAll(s) == EncodedAll(s[..|s| - 1]) + Encoded(s[|s| - 1])
  {
    hide Encoded;
  }

  /** The code of each character of a string, at its place. */
  lemma {:induction false} EncodedAt(s: Bytes, i: nat)
    requires i < |s|
    ensures EncodedAll(s) == EncodedAll(s[..i]) + (if s[i] == ' ' then "+" else if Unreserved(s[i]) then [s[i]] else HexCode(s[i]))
                             + EncodedAll(s[i + 1..])
  {
    hide Unreserved, HexCode, Encoded, EncodedAll;
    var n := |s| - 1;
    EncodedLast(s);
    if i < n {
      EncodedAt(s[..n], i);
      EncodedLast(s[i + 1..]);
      assert s[..n][..i] == s[..i] && s[..n][i + 1..] == s[i + 1..][..n - i - 1] && s[i + 1..][n - i - 1] == s[n];
    } else {
      CodeIs(s[i]);
      NothingEncoded();
      assert s[i + 1..] == [];
    }
  }

  predicate AllUnreserved(s: Bytes) {
    forall i :: 0 <= i < |s| ==> Unreserved(s[i])
  }

  lemma UnreservedLast(s: Bytes)
    requires s != []
    ensures AllUnreserved(s) <==> AllUnreserved(s[..|s| - 1]) && Unreserved(s[|s| - 1])
  {
    hide Unreserved;
  }

  lemma KeptCode(c: octet)
    ensures Encoded(c) == [c] <==> Unreserved(c)
  {
    hide Unreserved;
    UnreservedIs(c);
  }

  /** Encoding keeps exactly the strings of unreserved characters. */
  lemma {:induction false} EncodedKeeps(s: Bytes)
    ensures EncodedAll(s) == s <==> AllUnreserved(s)
  {
    hide Unreserved, AllUnreserved, Encoded, EncodedAll;
    if s == [] {
      assert EncodedAll(s) == [] by { NothingEncoded(); }
      assert AllUnreserved(s) by { NothingEncoded(); }
    } else {
      var n := |s| - 1;
      EncodedKeeps(s[..n]);
      EncodedLast(s);
      UnreservedLast(s);
      KeptCode(s[n]);
      assert s == s[..n] + [s[n]];
      var e, last := EncodedAll(s[..n]), Encoded(s[n]);
      if e + last == s {
        assert |e| == n && |last| == 1;
        assert e == s[..n] && last == [s[n]] by { assert (e + last)[..n] == e && (e + last)[n..] == last && s[n..] == [s[n]]; }
      }
    }
  }

  lemma NothingEncoded()
    ensures EncodedAll([]) == [] && AllUnreserved([])
  {
  }

  // ----- Query strings -----

  type Pair = (Bytes, Bytes)

  function Item(p: Pair): Bytes {
    EncodedString(p.0) + ['='] + EncodedString(p.1)
  }

  /** key=value items joined by ampersands. */
  function Query(pairs: seq<Pair>): Bytes {
    if pairs == [] then []
    else if |pairs| == 1 then Item(pairs[0])
    else Item(pairs[0]) + ['&'] + Query(pairs[1..])
  }

  /** The bytes before the first separator. */
  function Until(s: Bytes, sep: octet): (r: Bytes)
    ensures r <= s && sep !in r && (|r| < |s| ==> s[|r|] == sep)
  {
    if s == [] || s[0] == sep then [] else [s[0]] + Until(s[1..], sep)
  }

  /** How a form decoder reads a query: split at ampersands, then at the first equals sign. */
  function Unquery(s: Bytes): seq<Pair>
    decreases |s|
  {
    if s == [] then []
    else
      var item := Until(s, '&');
      var key := Until(item, '=');
      var value := if |key| < |item| then item[|key| + 1..] else [];
      [(DecodedAll(key), DecodedAll(value))] + (if |item| < |s| then Unquery(s[|item| + 1..]) else [])
  }

  lemma {:induction false} UntilStops(s: Bytes, sep: octet, rest: Bytes)
    requires sep !in s
    ensures Until(s + [sep] + rest, sep) == s && Until(s, sep) == s
  {
    if s != [] {
      assert (s + [sep] + rest)[1..] == s[1..] + [sep] + rest;
      UntilStops(s[1..], sep, rest);
    }
  }

  function Reread(p: Pair): Pair {
    (DecodedAll(EncodedString(p.0)), DecodedAll(EncodedString(p.1)))
  }

  lemma ItemReads(p: Pair)
    ensures '&' !in Item(p)
    ensures var key := Until(Item(p), '=');
            |key| < |Item(p)| && DecodedAll(key) == Reread(p).0 && DecodedAll(Item(p)[|key| + 1..]) == Reread(p).1
  {
    hide DecodedAll, EncodedAll;
    EncodedAlphabet(p.0);
    EncodedAlphabet(p.1);
    UntilStops(EncodedString(p.0), '=', EncodedString(p.1));
    assert Item(p)[|EncodedString(p.0)| + 1..] == EncodedString(p.1);
  }

  lemma UnqueryNone()
    ensures Unquery([]) == []
  {
  }

  lemma UnqueryItem(p: Pair, rest: Bytes)
    ensures Unquery(Item(p)) == [Reread(p)]
    ensures Unquery(Item(p) + ['&'] + rest) == [Reread(p)] + Unquery(rest)
  {
    hide DecodedAll, Item, Reread, Until;
    ItemReads(p);
    var item := Item(p);
    UntilStops(item, '&', rest);
    assert (item + ['&'] + rest)[|item| + 1..] == rest;
    assert item != [];
  }

  lemma {:induction false} QueryReads(pairs: seq<Pair>)
    ensures |Unquery(Query(pairs))| == |pairs|
    ensures forall i :: 0 <= i < |pairs| ==> Unquery(Query(pairs))[i] == Reread(pairs[i])
  {
    hide DecodedAll, Item, Reread, Unquery;
    UnqueryNone();
    if pairs != [] {
      QueryReads(pairs[1..]);
      var s := Query(pairs);
      if |pairs| == 1 {
        assert Unquery(s) == [Reread(pairs[0])] by { UnqueryItem(pairs[0], []); }
      } else {
        UnqueryItem(pairs[0], Query(pairs[1..]));
        assert Unquery(s) == [Reread(pairs[0])] + Unquery(Query(pairs[1..]));
      }
    }
  }

  predicate Whole(s: Bytes) {
    |s| % UINT != TRUNCATED
  }

  lemma RereadWhole(s: Bytes)
    ensures DecodedAll(EncodedString(s)) == s <==> Whole(s)
  {
    DecodeEncode(s);
  }

  /** A query decodes to the pairs it was built from if and only if no key or value has the length
      at which the buffer size wraps. */
  lemma QueryRoundTrip(pairs: seq<Pair>)
    ensures Unquery(Query(pairs)) == pairs
            <==> forall i :: 0 <= i < |pairs| ==> Whole(pairs[i].0) && Whole(pairs[i].1)
  {
    hide Unquery, Query, DecodedAll, EncodedString, Whole;
    QueryReads(pairs);
    forall i | 0 <= i < |pairs|
      ensures Reread(pairs[i]) == pairs[i] <==> Whole(pairs[i].0) && Whole(pairs[i].1)
    {
      RereadWhole(pairs[i].0);
      RereadWhole(pairs[i].1);
    }
    if Unquery(Query(pairs)) == pairs {
      forall i | 0 <= i < |pairs| ensures Whole(pairs[i].0) && Whole(pairs[i].1) {
        assert Unquery(Query(pairs))[i] == Reread(pairs[i]);
      }
    }
  }

  /** The query string as voiceglue_http_get builds it from a map's entries. */
  method BuildQuery(pairs: seq<Pair>) returns (r: Bytes)
    requires forall p :: p in pairs ==> NUL !in p.0 && NUL !in p.1
    ensures r == Query(pairs)
  {
    hide Query, EncodedString;
    r := [];
    var shown := 0;
    QueryNone();
    while shown < |pairs|
      invariant 0 <= shown <= |pairs| && r == Query(pairs[..shown])
    {
      QueryOneMore(pairs[..shown], pairs[shown]);
      assert pairs[..shown + 1] == pairs[..shown] + [pairs[shown]];
      if shown > 0 { r := r + ['&']; }
      var k := UrlEncodeString(pairs[shown].0);
      var v := UrlEncodeString(pairs[shown].1);
      r := r + (k + ['='] + v);
      shown := shown + 1;
    }
    assert pairs[..shown] == pairs;
  }

  lemma QueryNone()
    ensures Query([]) == []
  {
  }

  lemma {:induction false} QueryOneMore(pairs: seq<Pair>, p: Pair)
    ensures Query(pairs + [p]) == Query(pairs) + (if pairs == [] then [] else ['&']) + Item(p)
  {
    hide Item;
    if pairs == [] {
      assert [] + [p] == [p];
    } else {
      assert (pairs + [p])[1..] == pairs[1..] + [p];
      QueryOneMore(pairs[1..], p);
    }
  }
}
