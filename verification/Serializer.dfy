/** The byte serialisation of documents: a recursive writer, a reader that replays the stream
    through the builder, and the exact condition under which reading undoes writing. */
module Serializer {
  import opened Wrappers
  import opened DocumentTree
  import opened DocumentBuilder

  type byte = b: int | 0 <= b < 256

  /** sizeof(VXIulong) and sizeof(VXIchar) in bytes. */
  const INT_MULTIPLIER: nat := 8
  const CHAR_MULTIPLIER: nat := 4
  /** The number of characters ReadBlock asks for at a time. */
  const NUM_CHARS: nat := 256

  const TYPE_CONTENT: nat := 0
  const TYPE_ELEMENT: nat := 1

  // ----- Machine words -----

  /** The k low bytes of n, least significant first. */
  function Word(n: nat, k: nat): (r: seq<byte>)
    ensures |r| == k
  {
    if k == 0 then [] else [n % 256] + Word(n / 256, k - 1)
  }

  function Value(bs: seq<byte>): nat {
    if bs == [] then 0 else bs[0] + 256 * Value(bs[1..])
  }

  function Power256(k: nat): nat {
    if k == 0 then 1 else 256 * Power256(k - 1)
  }

  lemma {:induction false} ValueWord(n: nat, k: nat)
    requires n < Power256(k)
    ensures Value(Word(n, k)) == n
  {
    if k > 0 {
      ValueWord(n / 256, k - 1);
      assert Word(n, k)[1..] == Word(n / 256, k - 1);
    }
  }

  const WORD_LIMIT: nat := 0x1_0000_0000_0000_0000
  const ENUM_LIMIT: nat := 0x1_0000_0000

  lemma ValueInt(n: nat)
    requires n < WORD_LIMIT
    ensures Value(Word(n, INT_MULTIPLIER)) == n
  {
    assert Power256(8) == 256 * (256 * (256 * (256 * (256 * (256 * (256 * (256 * Power256(0))))))));
    ValueWord(n, 8);
  }

  function CharBytes(c: char): (r: seq<byte>)
    ensures |r| == CHAR_MULTIPLIER
  {
    Word(c as int, CHAR_MULTIPLIER)
  }

  function CharOf(v: nat): char {
    if v < 0xD800 || 0xE000 <= v < 0x11_0000 then v as char else '\U{FFFD}'
  }

  lemma CharOfBytes(c: char)
    ensures CharOf(Value(CharBytes(c))) == c
  {
    assert Power256(4) == 256 * (256 * (256 * (256 * Power256(0))));
    ValueWord(c as int, 4);
  }

  function StringBytes(s: string): (r: seq<byte>)
    ensures |r| == CHAR_MULTIPLIER * |s|
  {
    if s == "" then [] else CharBytes(s[0]) + StringBytes(s[1..])
  }

  function Chars(bs: seq<byte>): (s: string)
    requires |bs| % CHAR_MULTIPLIER == 0
    ensures |s| == |bs| / CHAR_MULTIPLIER
  {
    if bs == [] then "" else [CharOf(Value(bs[..4]))] + Chars(bs[4..])
  }

  lemma {:induction false} CharsOfString(s: string)
    ensures Chars(StringBytes(s)) == s
  {
    if s != "" {
      CharOfBytes(s[0]);
      CharsOfString(s[1..]);
      assert StringBytes(s)[..4] == CharBytes(s[0]) && StringBytes(s)[4..] == StringBytes(s[1..]);
    }
  }

  lemma {:induction false} CharsAppend(a: seq<byte>, b: seq<byte>)
    requires |a| % CHAR_MULTIPLIER == 0 && |b| % CHAR_MULTIPLIER == 0
    ensures Chars(a + b) == Chars(a) + Chars(b)
  {
    if a == [] {
      assert a + b == b;
    } else {
      assert (a + b)[..4] == a[..4] && (a + b)[4..] == a[4..] + b;
      CharsAppend(a[4..], b);
    }
  }

  /** Conversion of an unsigned word to the signed 32-bit argument of MarkSSMLHeader. */
  function ToInt32(n: nat): int {
    var m := n % ENUM_LIMIT;
    if m < 0x8000_0000 then m else m - ENUM_LIMIT
  }

  // ----- The format -----

  function Block(s: string): seq<byte> {
    Word(|s|, INT_MULTIPLIER) + StringBytes(s)
  }

  function EncodeAttributes(attrs: seq<Attribute>): seq<byte> {
    if attrs == [] then []
    else Word(attrs[0].key, INT_MULTIPLIER) + Block(attrs[0].value) + EncodeAttributes(attrs[1..])
  }

  /** An element without its leading node type, as LoadElement reads it. */
  function EncodeBody(n: Node): seq<byte>
    requires n.Element?
    decreases n, 1
  {
    Word(n.name, INT_MULTIPLIER)
    + (Word(|n.attributes|, INT_MULTIPLIER) + EncodeAttributes(n.attributes))
    + (Word(|n.children|, INT_MULTIPLIER) + EncodeAll(n.children))
  }

  function Encode(n: Node): seq<byte>
    decreases n, 2
  {
    match n
    case Element(_, _, _, _) => Word(TYPE_ELEMENT, INT_MULTIPLIER) + EncodeBody(n)
    case Content(data, headerLen) =>
      Word(TYPE_CONTENT, INT_MULTIPLIER) + Block(data) + Word(headerLen, INT_MULTIPLIER)
  }

  function EncodeAll(ns: seq<Node>): seq<byte>
    decreases ns, 0
  {
    if ns == [] then [] else Encode(ns[0]) + EncodeAll(ns[1..])
  }

  lemma TypeWord(t: nat)
    requires t < 256
    ensures Word(t, 8) == [t, 0, 0, 0, 0, 0, 0, 0]
  {
    ZeroWord(3);
    ZeroWord(5);
    ZeroWord(7);
  }

  lemma ZeroWord(k: nat)
    requires k >= 2
    ensures Word(0, k) == [0, 0] + Word(0, k - 2)
  {
    assert Word(0, k - 1) == [0] + Word(0, k - 2);
  }

  /** A stream begins with the low byte of the node type: 1 for an element, 0 for text. */
  lemma FirstWord(n: Node)
    ensures Encode(n)[..8] == [if n.Element? then 1 else 0, 0, 0, 0, 0, 0, 0, 0]
  {
    hide Word, EncodeBody, Block;
    TypeWord(if n.Element? then 1 else 0);
  }

  /** The signed argument differs from the word by a multiple of 2^32. */
  lemma SignedInt(n: nat)
    ensures -0x8000_0000 <= ToInt32(n) < 0x8000_0000 && (n - ToInt32(n)) % 0x1_0000_0000 == 0
  {
    assert n == n / ENUM_LIMIT * ENUM_LIMIT + n % ENUM_LIMIT;
  }

  // ----- Reading, as a function of the cursor and the bytes left -----

  datatype Error = SerializationError | InternalError

  datatype Loaded = Done(b: Build, rest: seq<byte>) | Fail(error: Error)

  function TakeInt(s: seq<byte>): Option<(nat, seq<byte>)> {
    if |s| < INT_MULTIPLIER then None else Some((Value(s[..INT_MULTIPLIER]), s[INT_MULTIPLIER..]))
  }

  function TakeBlock(s: seq<byte>, size: nat): Option<(string, seq<byte>)> {
    if |s| < CHAR_MULTIPLIER * size then None
    else Some((Chars(s[..CHAR_MULTIPLIER * size]), s[CHAR_MULTIPLIER * size..]))
  }

  function LoadAttributes(b: Build, count: nat, s: seq<byte>): (r: Loaded)
    requires b.Open? && b.Ok()
    ensures r.Done? ==> r.b.Open? && Depth(r.b) == Depth(b) && |r.rest| <= |s|
    ensures r.Fail? && !AtContent(Top(b.frames).children) ==> r.error == SerializationError
    decreases |s|
  {
    if count == 0 then Done(b, s) else
    match TakeInt(s)
    case None => Fail(SerializationError)
    case Some((key, s1)) =>
      match TakeInt(s1)
      case None => Fail(SerializationError)
      case Some((size, s2)) =>
        match TakeBlock(s2, size)
        case None => Fail(SerializationError)
        case Some((value, s3)) =>
          match AddAttr(b, Attribute(key % ENUM_LIMIT, value))
          case None => Fail(InternalError)
          case Some(b1) => LoadAttributes(b1, count - 1, s3)
  }

  /** One child: text with its header length, or an element. */
  function LoadNode(b: Build, s: seq<byte>): (r: Loaded)
    requires b.Open? && b.Ok()
    ensures r.Done? ==> r.b.Open? && Depth(r.b) == Depth(b) && |r.rest| < |s|
    ensures r.Fail? ==> r.error == SerializationError
    decreases |s|, 2
  {
    match TakeInt(s)
    case None => Fail(SerializationError)
    case Some((nodeType, s1)) =>
      if nodeType == TYPE_CONTENT then
        match TakeInt(s1)
        case None => Fail(SerializationError)
        case Some((size, s2)) =>
          match TakeBlock(s2, size)
          case None => Fail(SerializationError)
          case Some((data, s3)) =>
            match TakeInt(s3)
            case None => Fail(SerializationError)
            case Some((len, s4)) => Done(Mark(Text(b, data).value, ToInt32(len)), s4)
      else if nodeType == TYPE_ELEMENT then Load(b, s1)
      else Fail(SerializationError)
  }

  function LoadChildren(b: Build, count: nat, s: seq<byte>): (r: Loaded)
    requires b.Open? && b.Ok()
    ensures r.Done? ==> r.b.Open? && Depth(r.b) == Depth(b) && |r.rest| <= |s|
    ensures r.Fail? ==> r.error == SerializationError
    decreases |s|, 3
  {
    if count == 0 then Done(b, s) else
    match LoadNode(b, s)
    case Fail(e) => Fail(e)
    case Done(b1, s1) => LoadChildren(b1, count - 1, s1)
  }

  function Load(b: Build, s: seq<byte>): (r: Loaded)
    requires b.Ok() && !b.Lone?
    ensures r.Done? ==> r.b.Ok() && !r.b.Lone? && |r.rest| <= |s|
    ensures r.Done? && b.Open? ==> r.b.Open? && Depth(r.b) == Depth(b)
    ensures r.Done? && b.Empty? ==> r.b.Closed?
    ensures r.Fail? && !b.Closed? ==> r.error == SerializationError
    decreases |s|, 4
  {
    match TakeInt(s)
    case None => Fail(SerializationError)
    case Some((name, s1)) =>
      match Start(b, name % ENUM_LIMIT, DOCUMENT)
      case None => Fail(InternalError)
      case Some(b1) =>
        match TakeInt(s1)
        case None => Fail(SerializationError)
        case Some((numAttributes, s2)) =>
          match LoadAttributes(b1, numAttributes, s2)
          case Fail(e) => Fail(e)
          case Done(b2, s3) =>
            match TakeInt(s3)
            case None => Fail(SerializationError)
            case Some((numChildren, s4)) =>
              match LoadChildren(b2, numChildren, s4)
              case Fail(e) => Fail(e)
              case Done(b3, s5) => Done(End(b3).value, s5)
  }

  // ----- What a stream written from a tree reads back as -----

  /** Replaying a finished child list at a cursor that already has `sofar`. */
  function Replay(sofar: seq<Node>, ns: seq<Node>): seq<Node>
    decreases ns, 0
  {
    if ns == [] then sofar
    else
      match ns[0]
      case Content(data, h) => Replay(MarkHeader(AppendText(sofar, data), ToInt32(h)), ns[1..])
      case Element(_, _, _, _) => Replay(sofar + [Reloaded(ns[0])], ns[1..])
  }

  function Reloaded(n: Node): Node
    requires n.Element?
    decreases n, 1
  {
    Element(n.name, n.attributes, DOCUMENT, Replay([], n.children))
  }

  /** The same tree with every document level reset. */
  function Reset(n: Node): (r: Node)
    ensures r.Content? <==> n.Content?
  {
    match n
    case Content(_, _) => n
    case Element(name, attrs, _, children) =>
      Element(name, attrs, DOCUMENT, seq(|children|, i requires 0 <= i < |children| => Reset(children[i])))
  }

  /** Sizes and codes fit the machine words they are written in. */
  ghost predicate Fits(n: Node) {
    match n
    case Content(data, h) => |data| < WORD_LIMIT && h < WORD_LIMIT
    case Element(name, attrs, _, children) =>
      && name < ENUM_LIMIT && |attrs| < WORD_LIMIT && |children| < WORD_LIMIT
      && (forall a :: a in attrs ==> a.key < ENUM_LIMIT && |a.value| < WORD_LIMIT)
      && (forall c :: c in children ==> Fits(c))
  }

  /** The text nodes that survive a trip through the stream: not empty, and with a header length
      that the signed argument of MarkSSMLHeader can carry (or that covers the whole text while
      its low 32 bits read as negative). */
  predicate Survives(data: string, headerLen: nat) {
    && data != ""
    && (headerLen < 0x8000_0000 || (headerLen == |data| && ToInt32(headerLen) < 0))
  }

  ghost predicate Storable(n: Node) {
    match n
    case Content(data, h) => Survives(data, h)
    case Element(_, _, _, children) => forall c :: c in children ==> Storable(c)
  }

  lemma TakeIntWord(n: nat, rest: seq<byte>)
    requires n < WORD_LIMIT
    ensures TakeInt(Word(n, INT_MULTIPLIER) + rest) == Some((n, rest))
  {
    ValueInt(n);
    var s := Word(n, INT_MULTIPLIER) + rest;
    assert s[..INT_MULTIPLIER] == Word(n, INT_MULTIPLIER) && s[INT_MULTIPLIER..] == rest;
  }

  lemma TakeBlockBytes(v: string, rest: seq<byte>)
    ensures TakeBlock(StringBytes(v) + rest, |v|) == Some((v, rest))
  {
    CharsOfString(v);
    var s := StringBytes(v) + rest;
    assert s[..CHAR_MULTIPLIER * |v|] == StringBytes(v) && s[CHAR_MULTIPLIER * |v|..] == rest;
  }

  lemma LoadAttributesStep(b: Build, count: nat, a: Attribute, more: seq<byte>)
    requires b.Open? && b.Ok() && !AtContent(Top(b.frames).children) && count > 0
    requires a.key < ENUM_LIMIT && |a.value| < WORD_LIMIT
    ensures LoadAttributes(b, count, Word(a.key, INT_MULTIPLIER) + Block(a.value) + more)
            == LoadAttributes(AddAttr(b, a).value, count - 1, more)
  {
    hide Word, Value, StringBytes, Chars, CharBytes, TakeInt, TakeBlock, AddAttr;
    var s2 := StringBytes(a.value) + more;
    var s1 := Word(|a.value|, INT_MULTIPLIER) + s2;
    var s := Word(a.key, INT_MULTIPLIER) + Block(a.value) + more;
    TakeIntWord(a.key, s1);
    TakeIntWord(|a.value|, s2);
    TakeBlockBytes(a.value, more);
    SomeAttribute(b, a);
    assert s == Word(a.key, INT_MULTIPLIER) + s1;
    assert a.key % ENUM_LIMIT == a.key;
    LoadAttributesTaken(b, count, s, a, s1, s2, more);
  }

  lemma LoadAttributesTaken(b: Build, count: nat, s: seq<byte>, a: Attribute, s1: seq<byte>, s2: seq<byte>, more: seq<byte>)
    requires b.Open? && b.Ok() && count > 0 && AddAttr(b, a).Some? && a.key % ENUM_LIMIT == a.key
    requires TakeInt(s) == Some((a.key, s1)) && TakeInt(s1) == Some((|a.value|, s2)) && TakeBlock(s2, |a.value|) == Some((a.value, more))
    ensures LoadAttributes(b, count, s) == LoadAttributes(AddAttr(b, a).value, count - 1, more)
  {
    hide TakeInt, TakeBlock, AddAttr;
  }

  lemma SomeAttribute(b: Build, a: Attribute)
    requires b.Open? && b.Ok() && !AtContent(Top(b.frames).children)
    ensures AddAttr(b, a).Some?
  {
  }

  lemma {:induction false} LoadAttributesOf(b: Build, attrs: seq<Attribute>, rest: seq<byte>)
    requires b.Open? && b.Ok() && !AtContent(Top(b.frames).children)
    requires forall a :: a in attrs ==> a.key < ENUM_LIMIT && |a.value| < WORD_LIMIT
    ensures var f := Top(b.frames);
            LoadAttributes(b, |attrs|, EncodeAttributes(attrs) + rest)
            == Done(Open(SetTop(b.frames, f.(attributes := f.attributes + attrs))), rest)
    decreases attrs
  {
    hide Word, Value, StringBytes, Chars, CharBytes, LoadAttributes;
    var f := Top(b.frames);
    if attrs == [] {
      LoadNoAttributes(b, rest);
      assert EncodeAttributes(attrs) + rest == rest;
      assert f.attributes + attrs == f.attributes;
      assert SetTop(b.frames, f) == b.frames;
    } else {
      var a := attrs[0];
      var more := EncodeAttributes(attrs[1..]) + rest;
      assert EncodeAttributes(attrs) + rest == Word(a.key, INT_MULTIPLIER) + Block(a.value) + more;
      LoadAttributesStep(b, |attrs|, a, more);
      var b1 := AddAttr(b, a).value;
      LoadAttributesOf(b1, attrs[1..], rest);
      assert f.attributes + [a] + attrs[1..] == f.attributes + attrs;
      SetTopTwice(b.frames, Top(b1.frames), f.(attributes := f.attributes + attrs));
    }
  }

  lemma LoadNoAttributes(b: Build, s: seq<byte>)
    requires b.Open? && b.Ok()
    ensures LoadAttributes(b, 0, s) == Done(b, s)
  {
  }

  lemma LoadNodeText(b: Build, n: Node, more: seq<byte>)
    requires b.Open? && b.Ok() && n.Content? && Fits(n)
    ensures LoadNode(b, Encode(n) + more) == Done(Mark(Text(b, n.data).value, ToInt32(n.headerLen)), more)
  {
    hide Word, Value, StringBytes, Chars, CharBytes;
    var s4 := Word(n.headerLen, INT_MULTIPLIER) + more;
    var s3 := StringBytes(n.data) + s4;
    var s2 := Word(|n.data|, INT_MULTIPLIER) + s3;
    assert Encode(n) + more == Word(TYPE_CONTENT, INT_MULTIPLIER) + s2;
    TakeIntWord(TYPE_CONTENT, s2);
    TakeIntWord(|n.data|, s3);
    TakeBlockBytes(n.data, s4);
    TakeIntWord(n.headerLen, more);
  }

  // Replaying one finished child.
  function Following(sofar: seq<Node>, n: Node): seq<Node> {
    if n.Content? then MarkHeader(AppendText(sofar, n.data), ToInt32(n.headerLen)) else sofar + [Reloaded(n)]
  }

  lemma {:induction false} LoadChildOf(b: Build, n: Node, more: seq<byte>)
    requires b.Open? && b.Ok() && Fits(n)
    ensures var f := Top(b.frames);
            LoadNode(b, Encode(n) + more) == Done(Open(SetTop(b.frames, f.(children := Following(f.children, n)))), more)
    decreases n, 2
  {
    hide Word, Value, Fits, Load, LoadAttributes, EncodeBody, Reloaded;
    if n.Content? {
      LoadNodeText(b, n, more);
      MarkAfterText(b, n.data, ToInt32(n.headerLen));
    } else {
      assert Encode(n) + more == Word(TYPE_ELEMENT, INT_MULTIPLIER) + (EncodeBody(n) + more);
      TakeIntWord(TYPE_ELEMENT, EncodeBody(n) + more);
      LoadOf(b, n, more);
    }
  }

  /** Reading what was written for a list of siblings replays them at the cursor. */
  lemma {:induction false} LoadChildrenOf(b: Build, ns: seq<Node>, rest: seq<byte>)
    requires b.Open? && b.Ok()
    requires forall c :: c in ns ==> Fits(c)
    ensures var f := Top(b.frames);
            LoadChildren(b, |ns|, EncodeAll(ns) + rest)
            == Done(Open(SetTop(b.frames, f.(children := Replay(f.children, ns)))), rest)
    decreases ns, 0
  {
    hide Encode, LoadNode, Fits, Following;
    var f := Top(b.frames);
    if ns == [] {
      assert EncodeAll(ns) + rest == rest;
      assert SetTop(b.frames, f.(children := f.children)) == b.frames;
    } else {
      var more := EncodeAll(ns[1..]) + rest;
      assert EncodeAll(ns) + rest == Encode(ns[0]) + more;
      LoadChildOf(b, ns[0], more);
      var b1 := Open(SetTop(b.frames, f.(children := Following(f.children, ns[0]))));
      LoadChildrenOf(b1, ns[1..], rest);
      SetTopTwice(b.frames, Top(b1.frames), f.(children := Replay(f.children, ns)));
      ReplayFirst(f.children, ns);
    }
  }

  lemma ReplayFirst(sofar: seq<Node>, ns: seq<Node>)
    requires ns != []
    ensures Replay(sofar, ns) == Replay(Following(sofar, ns[0]), ns[1..])
  {
  }

  lemma SetTopTwice(fs: seq<Frame>, f: Frame, g: Frame)
    requires fs != []
    ensures SetTop(SetTop(fs, f), g) == SetTop(fs, g)
  {
  }

  lemma MarkAfterText(b: Build, data: string, len: int)
    requires b.Open? && b.Ok()
    ensures var f := Top(b.frames);
            Mark(Text(b, data).value, len)
            == Open(SetTop(b.frames, f.(children := MarkHeader(AppendText(f.children, data), len))))
  {
    if data == "" {
      assert AppendText(Top(b.frames).children, data) == Top(b.frames).children;
    } else {
      SetTopTwice(b.frames, Top(Text(b, data).value.frames), Top(Mark(Text(b, data).value, len).frames));
    }
  }

  lemma FitsParts(n: Node)
    requires n.Element? && Fits(n)
    ensures n.name < ENUM_LIMIT && |n.attributes| < WORD_LIMIT && |n.children| < WORD_LIMIT
    ensures forall a :: a in n.attributes ==> a.key < ENUM_LIMIT && |a.value| < WORD_LIMIT
    ensures forall c :: c in n.children ==> Fits(c)
  {
  }

  lemma BodyBytes(n: Node, rest: seq<byte>)
    requires n.Element?
    ensures EncodeBody(n) + rest
            == Word(n.name, INT_MULTIPLIER) + (Word(|n.attributes|, INT_MULTIPLIER)
               + (EncodeAttributes(n.attributes) + (Word(|n.children|, INT_MULTIPLIER) + (EncodeAll(n.children) + rest))))
  {
    hide Word, EncodeAttributes, EncodeAll;
  }

  lemma LoadTaken(b: Build, s: seq<byte>, name: nat, s1: seq<byte>, attributes: nat, s2: seq<byte>, b2: Build,
                  s3: seq<byte>, children: nat, s4: seq<byte>, b3: Build, rest: seq<byte>)
    requires b.Ok() && !b.Lone? && !b.Closed? && name % ENUM_LIMIT == name
    requires TakeInt(s) == Some((name, s1)) && TakeInt(s1) == Some((attributes, s2)) && TakeInt(s3) == Some((children, s4))
    requires LoadAttributes(Start(b, name, DOCUMENT).value, attributes, s2) == Done(b2, s3)
    requires LoadChildren(b2, children, s4) == Done(b3, rest)
    ensures End(b3).Some? && Load(b, s) == Done(End(b3).value, rest)
  {
    hide TakeInt, LoadAttributes, LoadChildren;
  }

  lemma StartedEnds(b: Build, f: Frame)
    requires b.Ok() && !b.Lone? && !b.Closed?
    ensures var b1 := Start(b, f.name, f.level).value;
            End(Open(SetTop(b1.frames, f))) == Some(if b.Open? then Push(b, CloseFrame(f)) else Closed(CloseFrame(f)))
  {
    if b.Open? { assert (b.frames + [f])[..|b.frames|] == b.frames; }
  }

  /** Reading what was written for one element adds the reloaded element at the cursor. */
  lemma {:induction false} LoadOf(b: Build, n: Node, rest: seq<byte>)
    requires b.Ok() && !b.Lone? && !b.Closed? && n.Element? && Fits(n)
    ensures Load(b, EncodeBody(n) + rest)
            == Done(if b.Open? then Push(b, Reloaded(n)) else Closed(Reloaded(n)), rest)
    decreases n, 1
  {
    hide Word, Value, TakeInt, Load, LoadAttributes, LoadChildren, EncodeBody, EncodeAttributes, EncodeAll, Replay, Fits;
    hide End, Push, SetTop;
    FitsParts(n);
    var s4 := EncodeAll(n.children) + rest;
    var s3 := Word(|n.children|, INT_MULTIPLIER) + s4;
    var s2 := EncodeAttributes(n.attributes) + s3;
    var s1 := Word(|n.attributes|, INT_MULTIPLIER) + s2;
    BodyBytes(n, rest);
    TakeIntWord(n.name, s1);
    TakeIntWord(|n.attributes|, s2);
    TakeIntWord(|n.children|, s4);
    var b1 := Start(b, n.name, DOCUMENT).value;
    LoadAttributesOf(b1, n.attributes, s3);
    var f := Frame(n.name, n.attributes, DOCUMENT, []);
    assert [] + n.attributes == n.attributes;
    var b2 := Open(SetTop(b1.frames, f));
    LoadChildrenOf(b2, n.children, rest);
    var g := f.(children := Replay([], n.children));
    SetTopTwice(b1.frames, f, g);
    StartedEnds(b, g);
    LoadTaken(b, EncodeBody(n) + rest, n.name, s1, |n.attributes|, s2, b2, s3, |n.children|, s4, Open(SetTop(b1.frames, g)), rest);
  }

  /** A maximal-run tree reloads as itself (levels reset) exactly when all its text survives. */
  lemma {:induction false} ReloadedExact(n: Node)
    requires n.Element? && Maximal(n)
    ensures Reloaded(n) == Reset(n) <==> Storable(n)
    decreases n, 1
  {
    ReplayExact([], n.children);
    var r := Reset(n).children;
    assert ResetAll(n.children) == r;
    assert [] + r == r;
    assert StorableAll(n.children) <==> Storable(n);
  }

  function ResetAll(ns: seq<Node>): (r: seq<Node>)
    ensures |r| == |ns| && forall i :: 0 <= i < |ns| ==> r[i] == Reset(ns[i])
  {
    if ns == [] then [] else [Reset(ns[0])] + ResetAll(ns[1..])
  }

  ghost predicate StorableAll(ns: seq<Node>) {
    forall c :: c in ns ==> Storable(c)
  }

  // Replay only ever changes the last text already there, and never shortens the list.
  /** b extends a, except that the last node of a may have changed if it is text. */
  ghost predicate Grows(a: seq<Node>, b: seq<Node>) {
    && |a| <= |b|
    && (forall i :: 0 <= i < |a| - 1 ==> b[i] == a[i])
    && (a != [] && a[|a| - 1].Element? ==> b[|a| - 1] == a[|a| - 1])
  }

  lemma GrowsThrough(a: seq<Node>, b: seq<Node>, c: seq<Node>)
    requires Grows(a, b) && Grows(b, c)
    ensures Grows(a, c)
  {
  }

  lemma {:induction false} ReplayGrows(sofar: seq<Node>, ns: seq<Node>)
    ensures |Replay(sofar, ns)| <= |sofar| + |ns|
    ensures Grows(sofar, Replay(sofar, ns))
    decreases ns
  {
    hide Following, Grows;
    if ns == [] {
      GrowsItself(sofar);
    } else {
      ReplayFirst(sofar, ns);
      FollowingGrows(sofar, ns[0]);
      ReplayGrows(Following(sofar, ns[0]), ns[1..]);
      GrowsThrough(sofar, Following(sofar, ns[0]), Replay(sofar, ns));
    }
  }

  lemma GrowsItself(a: seq<Node>)
    ensures Grows(a, a)
  {
  }

  lemma FollowingGrows(sofar: seq<Node>, n: Node)
    ensures Grows(sofar, Following(sofar, n)) && |Following(sofar, n)| <= |sofar| + 1
  {
    hide Reloaded;
  }

  lemma {:induction false} ReplayExact(sofar: seq<Node>, ns: seq<Node>)
    requires MaximalAll(ns) && (ns != [] && ns[0].Content? ==> !AtContent(sofar))
    ensures Replay(sofar, ns) == sofar + ResetAll(ns) <==> StorableAll(ns)
    decreases ns, 0
  {
    hide Following, Storable, Maximal, Reset, Reloaded;
    var r := ResetAll(ns);
    if ns == [] {
      assert sofar + r == sofar;
    } else {
      assert Maximal(ns[0]);
      assert MaximalAll(ns[1..]) by {
        forall i | 0 <= i < |ns[1..]| - 1 && ns[1..][i].Content? ensures !ns[1..][i + 1].Content? {
          assert ns[i + 1].Content?;
        }
      }
      assert StorableAll(ns) <==> Storable(ns[0]) && StorableAll(ns[1..]) by {
        assert ns == [ns[0]] + ns[1..];
      }
      var next := Following(sofar, ns[0]);
      if ns[0].Element? { ReloadedExact(ns[0]); }
      NextIsReady(sofar, ns);
      ReplayFirst(sofar, ns);
      ReplayExact(next, ns[1..]);
      NextExact(sofar, ns[0], ResetAll(ns[1..]));
      assert r == [Reset(ns[0])] + ResetAll(ns[1..]);
      if !Storable(ns[0]) {
        ReplayMiss(sofar, ns, next);
      }
    }
  }

  // After a text node comes an element, so the next text starts a node of its own.
  lemma NextIsReady(sofar: seq<Node>, ns: seq<Node>)
    requires MaximalAll(ns) && ns != []
    ensures |ns| > 1 && ns[1].Content? ==> !AtContent(Following(sofar, ns[0]))
  {
    hide Maximal, Following;
    if ns[0].Element? {
      FollowingElement(sofar, ns[0]);
    } else if |ns| > 1 {
      assert !ns[0 + 1].Content?;
    }
  }

  lemma NextExact(sofar: seq<Node>, n: Node, r: seq<Node>)
    requires n.Content? ==> !AtContent(sofar)
    requires n.Element? ==> (Reloaded(n) == Reset(n) <==> Storable(n))
    ensures Following(sofar, n) + r == sofar + ([Reset(n)] + r) <==> Storable(n)
  {
    hide Replay, Maximal, Reloaded, Following, AppendText, MarkHeader, HeaderRead, Storable, Reset;
    if n.Element? {
      FollowingElement(sofar, n);
      SwapOne(sofar, Reloaded(n), Reset(n), r);
    } else {
      FollowingContent(sofar, n);
      ContentExact(n);
      if n.data == "" {
        assert |Following(sofar, n) + r| < |sofar + ([Reset(n)] + r)|;
      } else {
        SwapOne(sofar, Content(n.data, HeaderRead(n)), Reset(n), r);
      }
    }
  }

  function HeaderRead(n: Node): nat
    requires n.Content?
  {
    if ToInt32(n.headerLen) < 0 then |n.data| else ToInt32(n.headerLen)
  }

  lemma ContentExact(n: Node)
    requires n.Content?
    ensures Storable(n) <==> n.data != "" && Content(n.data, HeaderRead(n)) == Reset(n)
  {
  }

  lemma FollowingContent(sofar: seq<Node>, n: Node)
    requires n.Content? && !AtContent(sofar)
    ensures Following(sofar, n) == if n.data == "" then sofar else sofar + [Content(n.data, HeaderRead(n))]
  {
  }

  lemma FollowingElement(sofar: seq<Node>, n: Node)
    requires n.Element?
    ensures Following(sofar, n) == sofar + [Reloaded(n)] && Reloaded(n).Element?
  {
  }

  lemma SwapOne(a: seq<Node>, x: Node, y: Node, r: seq<Node>)
    ensures (a + [x]) + r == a + ([y] + r) <==> x == y
  {
    assert ((a + [x]) + r)[|a|] == x && (a + ([y] + r))[|a|] == y;
    assert (a + [x]) + r == a + ([x] + r);
  }

  lemma DiffersAt(sofar: seq<Node>, ns: seq<Node>, r: seq<Node>)
    requires ns != [] && |r| > |sofar| && r[|sofar|] != Reset(ns[0])
    ensures r != sofar + ResetAll(ns)
  {
    hide Reset;
    assert (sofar + ResetAll(ns))[|sofar|] == Reset(ns[0]);
  }

  // What is there stays when an element comes next, or nothing.
  lemma StaysAt(sofar: seq<Node>, x: Node, ns: seq<Node>)
    requires x.Element? || ns == [] || ns[0].Element?
    ensures var r := Replay(sofar + [x], ns); |r| > |sofar| && r[|sofar|] == x
  {
    hide Following, Reloaded;
    if ns != [] {
      ReplayGrows(sofar + [x], ns);
      if ns[0].Element? { ReplayGrows(sofar + [x] + [Reloaded(ns[0])], ns[1..]); }
    }
  }

  // A node that does not survive leaves a difference that later siblings cannot repair.
  lemma ReplayMiss(sofar: seq<Node>, ns: seq<Node>, next: seq<Node>)
    requires ns != [] && next == Following(sofar, ns[0]) && MaximalAll(ns)
    requires ns[0].Content? ==> !AtContent(sofar)
    requires ns[0].Element? ==> Reloaded(ns[0]) != Reset(ns[0])
    requires !Storable(ns[0])
    ensures Replay(next, ns[1..]) != sofar + ResetAll(ns)
  {
    hide Replay, ResetAll, Following, Storable, Reset, Reloaded, Maximal, Grows, HeaderRead;
    var n, rest := ns[0], ns[1..];
    if n.Element? {
      FollowingElement(sofar, n);
      StaysAt(sofar, Reloaded(n), rest);
      DiffersAt(sofar, ns, Replay(next, rest));
    } else {
      FollowingContent(sofar, n);
      ContentExact(n);
      if n.data == "" {
        ReplayGrows(next, rest);
      } else {
        assert |ns| > 1 ==> !ns[0 + 1].Content?;
        StaysAt(sofar, Content(n.data, HeaderRead(n)), rest);
        DiffersAt(sofar, ns, Replay(next, rest));
      }
    }
  }

  /** Reading undoes writing: the document read back from the bytes of a builder-made document is
      that document with levels reset, if and only if every text node survives. */
  lemma RoundTrip(n: Node)
    requires n.Element? && Maximal(n) && Fits(n)
    ensures Load(Empty, EncodeBody(n)).Done? && Load(Empty, EncodeBody(n)).rest == []
    ensures Load(Empty, EncodeBody(n)).b == Closed(Reset(n)) <==> Storable(n)
  {
    LoadOf(Empty, n, []);
    assert EncodeBody(n) + [] == EncodeBody(n);
    ReloadedExact(n);
  }
}
