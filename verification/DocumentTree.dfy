/** Document trees as values, and the document builder as a pure cursor: the specification that
    the in-place builder of DocumentBuilder.dfy is proved against. */
module DocumentTree {
  import opened Wrappers
  import Whitespace

  datatype DocumentLevel = DOCUMENT | APPLICATION | DEFAULTS

  datatype Attribute = Attribute(key: nat, value: string)

  datatype Node =
    | Element(name: nat, attributes: seq<Attribute>, level: DocumentLevel, children: seq<Node>)
    | Content(data: string, headerLen: nat)

  /** An element still being built: everything but the child that is open inside it. */
  datatype Frame = Frame(name: nat, attributes: seq<Attribute>, level: DocumentLevel, children: seq<Node>)

  /** What a builder holds: nothing yet, the open elements from the root inwards, a finished tree,
      or a root made of text alone (text added before any element). */
  datatype Build =
    | Empty
    | Open(frames: seq<Frame>)
    | Closed(root: Node)
    | Lone(data: string, headerLen: nat)
  {
    predicate Ok() { Open? ==> frames != [] }
  }

  /** The value of the first attribute with this key. */
  function FindAttribute(attributes: seq<Attribute>, key: nat): Option<string> {
    if attributes == [] then None
    else if attributes[0].key == key then Some(attributes[0].value)
    else FindAttribute(attributes[1..], key)
  }

  /** v is the value of the first attribute with this key. */
  predicate FirstIs(attributes: seq<Attribute>, key: nat, v: string) {
    exists j :: 0 <= j < |attributes| && attributes[j] == Attribute(key, v) && forall k :: 0 <= k < j ==> attributes[k].key != key
  }

  predicate NoneHas(attributes: seq<Attribute>, key: nat) {
    forall k :: 0 <= k < |attributes| ==> attributes[k].key != key
  }

  /** An attribute is found exactly when some has the key, and it is then the first of these. */
  lemma {:induction false} FindsFirst(attributes: seq<Attribute>, key: nat)
    ensures FindAttribute(attributes, key) == None <==> NoneHas(attributes, key)
    ensures forall v :: FindAttribute(attributes, key) == Some(v) <==> FirstIs(attributes, key, v)
  {
    if attributes != [] {
      var rest := attributes[1..];
      FindsFirst(rest, key);
      assert forall k :: 0 <= k < |rest| ==> rest[k] == attributes[k + 1];
      if attributes[0].key != key {
        forall v ensures FirstIs(attributes, key, v) <==> FirstIs(rest, key, v) { FirstLater(attributes, key, v); }
        assert NoneHas(rest, key) ==> NoneHas(attributes, key);
      } else {
        forall v ensures FirstIs(attributes, key, v) <==> v == attributes[0].value {
          assert v == attributes[0].value ==> attributes[0] == Attribute(key, v);
        }
      }
    }
  }

  lemma FirstLater(attributes: seq<Attribute>, key: nat, v: string)
    requires attributes != [] && attributes[0].key != key
    ensures FirstIs(attributes, key, v) <==> FirstIs(attributes[1..], key, v)
  {
    var rest := attributes[1..];
    if FirstIs(attributes, key, v) {
      var j :| 0 <= j < |attributes| && attributes[j] == Attribute(key, v) && forall k :: 0 <= k < j ==> attributes[k].key != key;
      assert j > 0 && rest[j - 1] == Attribute(key, v);
    }
    if FirstIs(rest, key, v) {
      var j :| 0 <= j < |rest| && rest[j] == Attribute(key, v) && forall k :: 0 <= k < j ==> rest[k].key != key;
      assert attributes[j + 1] == Attribute(key, v);
      forall k | 0 <= k < j + 1 ensures attributes[k].key != key {
        if k > 0 { assert rest[k - 1] == attributes[k]; }
      }
    }
  }

  function Depth(b: Build): nat {
    if b.Open? then |b.frames| else 0
  }

  function CloseFrame(f: Frame): Node {
    Element(f.name, f.attributes, f.level, f.children)
  }

  function Top(fs: seq<Frame>): Frame
    requires fs != []
  {
    fs[|fs| - 1]
  }

  function SetTop(fs: seq<Frame>, f: Frame): (r: seq<Frame>)
    requires fs != []
    ensures |r| == |fs| && Top(r) == f
  {
    fs[..|fs| - 1] + [f]
  }

  /** The cursor is on a text node exactly when the innermost open element ends with one. */
  predicate AtContent(children: seq<Node>) {
    children != [] && children[|children| - 1].Content?
  }

  /** Text joins the text node under the cursor, or starts a new one. */
  function AppendText(children: seq<Node>, s: string): seq<Node> {
    if s == "" then children
    else if AtContent(children) then
      var last := children[|children| - 1];
      children[..|children| - 1] + [Content(last.data + s, last.headerLen)]
    else children + [Content(s, 0)]
  }

  /** A negative length marks all the text so far as SSML header. */
  function MarkHeader(children: seq<Node>, len: int): seq<Node> {
    if AtContent(children) then
      var last := children[|children| - 1];
      children[..|children| - 1] + [Content(last.data, if len < 0 then |last.data| else len)]
    else children
  }

  function Prune(children: seq<Node>): (r: seq<Node>)
    ensures |r| == |children|
    ensures AtContent(r) <==> AtContent(children)
  {
    seq(|children|, i requires 0 <= i < |children| => PruneNode(children[i]))
  }

  function PruneNode(n: Node): Node {
    if n.Content? then Content(Whitespace.Normal(n.data), n.headerLen) else n
  }

  // The operations of the builder. None is the source's InternalError.

  function Start(b: Build, name: nat, level: DocumentLevel): (r: Option<Build>)
    requires b.Ok() && !b.Lone?
    ensures r.Some? ==> r.value.Open?
  {
    match b
    case Empty => Some(Open([Frame(name, [], level, [])]))
    case Open(fs) => Some(Open(fs + [Frame(name, [], level, [])]))
    case _ => None
  }

  function Text(b: Build, s: string): (r: Option<Build>)
    requires b.Ok()
    ensures r.Some? ==> r.value.Ok() && (b.Open? ==> r.value.Open?)
  {
    if s == "" then Some(b) else
    match b
    case Empty => Some(Lone(s, 0))
    case Lone(d, h) => Some(Lone(d + s, h))
    case Open(fs) => Some(Open(SetTop(fs, Top(fs).(children := AppendText(Top(fs).children, s)))))
    case Closed(_) => None
  }

  function Mark(b: Build, len: int): (r: Build)
    requires b.Ok()
    ensures r.Ok() && (b.Open? ==> r.Open?)
  {
    match b
    case Open(fs) => Open(SetTop(fs, Top(fs).(children := MarkHeader(Top(fs).children, len))))
    case Lone(d, h) => Lone(d, if len < 0 then |d| else len)
    case _ => b
  }

  /** Attributes may only be added while no text is under the cursor. */
  function AddAttr(b: Build, a: Attribute): (r: Option<Build>)
    requires b.Ok()
    ensures r.Some? ==> r.value.Open?
  {
    if b.Open? && !AtContent(Top(b.frames).children) then
      var f := Top(b.frames);
      Some(Open(SetTop(b.frames, f.(attributes := f.attributes + [a]))))
    else None
  }

  function PruneTop(b: Build): (r: Build)
    requires b.Open? && b.Ok()
    ensures r.Open? && r.Ok()
  {
    var f := Top(b.frames);
    Open(SetTop(b.frames, f.(children := Prune(f.children))))
  }

  function End(b: Build): (r: Option<Build>)
    requires b.Ok()
    ensures r.Some? ==> r.value.Ok()
  {
    if !b.Open? then None
    else
      var n := CloseFrame(Top(b.frames));
      var outer := b.frames[..|b.frames| - 1];
      if outer == [] then Some(Closed(n))
      else Some(Open(SetTop(outer, Top(outer).(children := Top(outer).children + [n]))))
  }

  /** Adds a finished node at the cursor: the net effect of building it there. */
  function Push(b: Build, n: Node): (r: Build)
    requires b.Open? && b.Ok()
    ensures r.Open? && r.Ok()
  {
    Open(SetTop(b.frames, Top(b.frames).(children := Top(b.frames).children + [n])))
  }

  /** Every element's text is in maximal runs: no two text nodes are neighbours. */
  predicate Runs(ns: seq<Node>) {
    forall i :: 0 <= i < |ns| - 1 && ns[i].Content? ==> !ns[i + 1].Content?
  }

  predicate Maximal(n: Node) {
    n.Element? ==> Runs(n.children) && forall c :: c in n.children ==> Maximal(c)
  }

  predicate MaximalAll(ns: seq<Node>) {
    Runs(ns) && forall c :: c in ns ==> Maximal(c)
  }

  ghost predicate MaximalBuild(b: Build) {
    match b
    case Empty => true
    case Lone(_, _) => true
    case Closed(n) => Maximal(n)
    case Open(fs) => forall i :: 0 <= i < |fs| ==> MaximalAll(fs[i].children)
  }

  /** No operation ever leaves two neighbouring text nodes. */
  lemma BuilderKeepsRuns(b: Build, name: nat, level: DocumentLevel, s: string, len: int, a: Attribute)
    requires b.Ok() && MaximalBuild(b)
    ensures !b.Lone? && Start(b, name, level).Some? ==> MaximalBuild(Start(b, name, level).value)
    ensures Text(b, s).Some? ==> MaximalBuild(Text(b, s).value)
    ensures MaximalBuild(Mark(b, len))
    ensures AddAttr(b, a).Some? ==> MaximalBuild(AddAttr(b, a).value)
    ensures b.Open? ==> MaximalBuild(PruneTop(b))
    ensures End(b).Some? ==> MaximalBuild(End(b).value)
  {
    if b.Open? {
      var f := Top(b.frames);
      assert MaximalAll(f.children);
      AppendTextKeepsRuns(f.children, s);
      MarkKeepsRuns(f.children, len);
      PruneKeepsRuns(f.children);
      if |b.frames| > 1 {
        var outer := b.frames[..|b.frames| - 1];
        assert MaximalAll(Top(outer).children);
        assert Maximal(CloseFrame(f));
      }
    }
  }

  lemma AppendTextKeepsRuns(ns: seq<Node>, s: string)
    requires MaximalAll(ns)
    ensures MaximalAll(AppendText(ns, s))
  {
    var r := AppendText(ns, s);
    forall c | c in r ensures Maximal(c) {
      if c !in ns { assert c.Content?; }
    }
  }

  lemma MarkKeepsRuns(ns: seq<Node>, len: int)
    requires MaximalAll(ns)
    ensures MaximalAll(MarkHeader(ns, len))
  {
  }

  lemma PruneKeepsRuns(ns: seq<Node>)
    requires MaximalAll(ns)
    ensures MaximalAll(Prune(ns))
  {
    var r := Prune(ns);
    forall c | c in r ensures Maximal(c) {
      var i :| 0 <= i < |r| && r[i] == c;
      assert c == PruneNode(ns[i]) && ns[i] in ns;
    }
  }

  lemma AppendTwice(ns: seq<Node>, s: string, t: string)
    requires s != "" && t != ""
    ensures AppendText(AppendText(ns, s), t) == AppendText(ns, s + t)
  {
    var c := AppendText(ns, s);
    if AtContent(ns) {
      assert c[..|c| - 1] == ns[..|ns| - 1];
      assert ns[|ns| - 1].data + s + t == ns[|ns| - 1].data + (s + t);
    } else {
      assert c[..|c| - 1] == ns;
    }
  }

  lemma TextTwice(b: Build, s: string, t: string)
    requires b.Ok() && Text(b, s).Some?
    ensures Text(Text(b, s).value, t) == Text(b, s + t)
  {
    if s == "" {
      assert s + t == t;
    } else if t == "" {
      assert s + t == s;
    } else if b.Open? {
      hide AppendText;
      AppendTwice(Top(b.frames).children, s, t);
    } else if b.Lone? {
      assert b.data + s + t == b.data + (s + t);
    }
  }
}
