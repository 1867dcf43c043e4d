/** Framing of messages on an inter-process descriptor: partial writes and reads, retries after
    interruption, and a receive buffer of fixed size. */
module IpcChannel {
  import opened Wrappers

  /** A character of one byte. */
  type octet = c: char | (c as int) < 256 witness ' '
  type Bytes = seq<octet>

  const NUL: octet := '\0'
  const NEWLINE: octet := '\n'
  const BUFSIZE: nat := 1024

  /** How the next write or read goes: interrupted, failed, or moving at most n bytes, but one. */
  datatype Attempt = Interrupted | Failed | Moves(n: nat)

  function Min(a: nat, b: nat): nat {
    if a < b then a else b
  }

  function Moved(a: Attempt, limit: nat): (r: nat)
    requires limit > 0
    ensures 1 <= r <= limit
  {
    if a.Moves? && a.n > 0 then Min(a.n, limit) else limit
  }

  /** The bytes before the terminating NUL. */
  function CString(s: Bytes): (r: Bytes)
    ensures r <= s && NUL !in r && (|r| < |s| ==> s[|r|] == NUL)
  {
    if s == [] || s[0] == NUL then [] else [s[0]] + CString(s[1..])
  }

  /** The descriptor: the bytes written and not yet read, and how the coming attempts go. Once the
      attempts are used up every call moves all it can. */
  class Channel {
    var pending: Bytes
    var attempts: seq<Attempt>

    constructor (attempts: seq<Attempt>)
      ensures pending == [] && this.attempts == attempts
    {
      pending, this.attempts := [], attempts;
    }

    method Write(bytes: Bytes) returns (r: int, interrupted: bool)
      requires bytes != []
      modifies this
      ensures |attempts| <= |old(attempts)| && (r == -1 ==> |attempts| < |old(attempts)|)
      ensures r == -1 ==> pending == old(pending)
      ensures r == -1 && !interrupted ==> Failed in old(attempts)
      ensures r != -1 ==> 1 <= r <= |bytes| && pending == old(pending) + bytes[..r]
      ensures old(attempts) != [] && old(attempts)[0].Interrupted? ==> r == -1 && interrupted
      ensures old(attempts) != [] && old(attempts)[0].Moves? && 1 <= old(attempts)[0].n <= |bytes| ==> r == old(attempts)[0].n
      ensures forall a :: a in attempts ==> a in old(attempts)
    {
      interrupted := false;
      var a := if attempts == [] then Moves(|bytes|) else attempts[0];
      if attempts != [] { attempts := attempts[1..]; }
      if !a.Moves? { return -1, a.Interrupted?; }
      var n := Moved(a, |bytes|);
      pending := pending + bytes[..n];
      r := n;
    }

    /** Would wait for ever on a descriptor with nothing pending. */
    method Read(buf: array<octet>, at: nat) returns (r: int, interrupted: bool)
      requires pending != [] && at < buf.Length
      modifies this, buf
      ensures |attempts| <= |old(attempts)| && (r == -1 ==> |attempts| < |old(attempts)|)
      ensures r == -1 ==> pending == old(pending) && buf[..] == old(buf[..])
      ensures r == -1 && !interrupted ==> Failed in old(attempts)
      ensures r != -1 ==> && 1 <= r <= buf.Length - at && r <= |old(pending)|
                          && pending == old(pending)[r..] && buf[..at + r] == old(buf[..at]) + old(pending)[..r]
      ensures old(attempts) != [] && old(attempts)[0].Interrupted? ==> r == -1 && interrupted
      ensures old(attempts) != [] && old(attempts)[0].Moves? && 1 <= old(attempts)[0].n <= Min(|old(pending)|, buf.Length - at) ==>
                r == old(attempts)[0].n
      ensures forall a :: a in attempts ==> a in old(attempts)
    {
      interrupted := false;
      var a := if attempts == [] then Moves(|pending|) else attempts[0];
      if attempts != [] { attempts := attempts[1..]; }
      if !a.Moves? { return -1, a.Interrupted?; }
      var n := Moved(a, Min(|pending|, buf.Length - at));
      forall k | 0 <= k < n { buf[at + k] := pending[k]; }
      pending := pending[n..];
      r := n;
    }
  }

  /** Writes the whole C string, whatever the channel accepts at a time; 0, or -1 after a failure
      that is not an interruption. */
  method SendIpcMsg(ch: Channel, msg: Bytes) returns (status: int)
    modifies ch
    ensures status == 0 || (status == -1 && Failed in old(ch.attempts))
    ensures status == 0 ==> ch.pending == old(ch.pending) + CString(msg)
    ensures forall a :: a in ch.attempts ==> a in old(ch.attempts)
  {
    hide CString;
    var text := CString(msg);
    var len := |text|;
    var written := 0;
    while written < len
      invariant 0 <= written <= len && ch.pending == old(ch.pending) + text[..written]
      invariant forall a :: a in ch.attempts ==> a in old(ch.attempts)
      decreases len - written, |ch.attempts|
    {
      var r, interrupted := ch.Write(text[written..]);
      if r == -1 {
        if !interrupted { return -1; }
      } else {
        Further(text, written, r);
        written := written + r;
      }
    }
    assert text[..len] == text;
    status := 0;
  }

  lemma Further(text: Bytes, written: nat, r: nat)
    requires written + r <= |text|
    ensures forall p: Bytes :: p + text[..written] + text[written..][..r] == p + text[..written + r]
  {
    assert text[..written] + text[written..][..r] == text[..written + r];
    forall p: Bytes ensures p + text[..written] + text[written..][..r] == p + text[..written + r] {
      assert p + text[..written] + text[written..][..r] == p + (text[..written] + text[written..][..r]);
    }
  }

  /** The last byte is the only newline. */
  predicate OneLine(s: Bytes) {
    s != [] && s[|s| - 1] == NEWLINE && NEWLINE !in s[..|s| - 1]
  }

  /** One read into the buffer at the given place, seen against the message. */
  method ReadOn(ch: Channel, buf: array<octet>, at: nat, ghost all: Bytes, ghost text: Bytes) returns (r: int, interrupted: bool)
    requires ch.pending != [] && at < buf.Length && Collected(all, text, buf[..at], ch.pending)
    modifies ch, buf
    ensures r == -1 || 1 <= r <= buf.Length - at
    ensures Collected(all, text, buf[..if r == -1 then at else at + r], ch.pending)
    ensures if r == -1 then |ch.pending| == |old(ch.pending)| && |ch.attempts| < |old(ch.attempts)| else |ch.pending| < |old(ch.pending)|
    ensures r == -1 && !interrupted ==> Failed in old(ch.attempts)
    ensures forall a :: a in ch.attempts ==> a in old(ch.attempts)
  {
    hide Collected;
    ghost var before, held := ch.pending, buf[..at];
    r, interrupted := ch.Read(buf, at);
    if r == -1 {
      assert buf[..at] == held;
    } else {
      Shift(all, text, held, before, r);
      assert buf[..at + r] == held + before[..r];
    }
  }

  /** Collects bytes until what has just been read ends in a newline. While the channel holds a
      message that ends in a newline, no read waits. What comes back is the message up to a newline
      at which a read happened to end: always the whole message if it holds no other newline. */
  method GetIpcMsg(ch: Channel) returns (msg: Option<Bytes>)
    requires ch.pending != []
    requires ch.pending[|ch.pending| - 1] == NEWLINE
    modifies ch
    ensures msg.None? ==> Failed in old(ch.attempts)
    ensures msg.Some? ==> msg.value + [NEWLINE] + ch.pending == old(ch.pending)
    ensures msg.Some? && OneLine(old(ch.pending)) ==>
              msg.value == old(ch.pending)[..|old(ch.pending)| - 1] && ch.pending == []
  {
    hide Collected, OneLine;
    var buf := new octet[BUFSIZE];
    var bytes_read := 0;
    var text: Bytes := [];
    ghost var all := ch.pending;
    assert buf[..bytes_read] == [];
    NothingCollected(all);
    while bytes_read == 0 || buf[bytes_read - 1] != NEWLINE
      invariant 0 <= bytes_read <= BUFSIZE
      invariant Collected(all, text, buf[..bytes_read], ch.pending)
      invariant forall a :: a in ch.attempts ==> a in old(ch.attempts)
      decreases |ch.pending|, |ch.attempts|
    {
      Emptied(all, text, buf[..bytes_read], ch.pending);
      if bytes_read == BUFSIZE {
        text := text + buf[..bytes_read];
        bytes_read := 0;
        assert buf[..bytes_read] == [];
      }
      var r, interrupted := ReadOn(ch, buf, bytes_read, all, text);
      if r == -1 {
        if !interrupted { return None; }
      } else {
        bytes_read := bytes_read + r;
      }
    }
    ghost var held := buf[..bytes_read];
    assert held[..bytes_read - 1] == buf[..bytes_read - 1];
    WholeMessage(all, text, held, ch.pending);
    msg := Some(text + buf[..bytes_read - 1]);
  }

  /** What has come in so far: the text copied out of the buffer, the buffer, and what is still in
      the channel; the last newline is in the channel or at the end of the buffer. */
  predicate Collected(all: Bytes, text: Bytes, held: Bytes, rest: Bytes) {
    && text + held + rest == all
    && (rest == [] ==> held != [] && held[|held| - 1] == NEWLINE)
    && (rest != [] ==> rest[|rest| - 1] == NEWLINE)
  }

  lemma Emptied(all: Bytes, text: Bytes, held: Bytes, rest: Bytes)
    requires Collected(all, text, held, rest) && (held != [] ==> held[|held| - 1] != NEWLINE)
    ensures Collected(all, text + held, [], rest) && rest != []
  {
    assert text + held + [] + rest == text + held + rest;
  }

  lemma Shift(all: Bytes, text: Bytes, held: Bytes, before: Bytes, r: nat)
    requires Collected(all, text, held, before) && 0 < r <= |before|
    ensures Collected(all, text, held + before[..r], before[r..])
  {
    assert before == before[..r] + before[r..];
    assert text + (held + before[..r]) + before[r..] == text + held + before;
    assert (held + before[..r])[|held| + r - 1] == before[r - 1];
  }

  lemma NothingCollected(all: Bytes)
    requires all != [] && all[|all| - 1] == NEWLINE
    ensures Collected(all, [], [], all)
  {
    assert [] + [] + all == all;
  }

  lemma WholeMessage(all: Bytes, text: Bytes, held: Bytes, rest: Bytes)
    requires Collected(all, text, held, rest) && held != [] && held[|held| - 1] == NEWLINE
    ensures var msg := text + held[..|held| - 1];
            && all == msg + [NEWLINE] + rest
            && (OneLine(all) ==> rest == [] && msg == all[..|all| - 1])
  {
    var msg := text + held[..|held| - 1];
    assert held == held[..|held| - 1] + [NEWLINE];
    assert all == msg + [NEWLINE] + rest;
    if rest != [] {
      assert all[..|all| - 1][|msg|] == NEWLINE;
    }
  }

  /** A body without NUL or newline, sent as a line over an idle channel, is received exactly, for
      every way the writes and reads are split and interrupted. */
  method Exchange(ch: Channel, body: Bytes) returns (msg: Option<Bytes>)
    requires ch.pending == [] && '\0' !in body && '\n' !in body
    modifies ch
    ensures Failed !in old(ch.attempts) ==> msg == Some(body) && ch.pending == []
  {
    var line := body + [NEWLINE];
    WholeCString(line);
    var status := SendIpcMsg(ch, line);
    if status == -1 { return None; }
    assert ch.pending == line && line[..|line| - 1] == body;
    msg := GetIpcMsg(ch);
  }

  lemma {:induction false} WholeCString(s: Bytes)
    requires NUL !in s
    ensures CString(s) == s
  {
    if s != [] { WholeCString(s[1..]); }
  }
}
