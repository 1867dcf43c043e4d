/** The document builder: nodes with parent links and child lists, changed in place under a cursor.
    Every method is proved against the pure cursor of DocumentTree. */
module DocumentBuilder {
  import opened Wrappers
  import opened DocumentTree
  import Whitespace

  /** One allocated node. Nodes are named by their allocation number; NULL is -1. */
  datatype NodeRec =
    | ElementRec(parent: int, name: nat, attributes: seq<Attribute>, level: DocumentLevel, children: seq<nat>)
    | ContentRec(parent: int, data: string, headerLen: nat)

  datatype NodeType = ContentType | ElementType | Uninitialized

  const NULL := -1

  // ----- The tree a node stands for -----

  ghost function Tree(nodes: seq<NodeRec>, i: nat): Node
    requires i < |nodes|
    decreases |nodes| - i
  {
    match nodes[i]
    case ContentRec(_, d, h) => Content(d, h)
    case ElementRec(_, n, a, l, cs) =>
      Element(n, a, l, seq(|cs|, k requires 0 <= k < |cs| =>
                         if i < cs[k] < |nodes| then Tree(nodes, cs[k]) else Content("", 0)))
  }

  /** The subtree at i uses node numbers from i up to hi only. */
  ghost predicate Within(nodes: seq<NodeRec>, i: nat, hi: nat)
    decreases |nodes| - i
  {
    && i < hi <= |nodes|
    && (nodes[i].ElementRec? ==>
          forall k :: 0 <= k < |nodes[i].children| ==>
            i < nodes[i].children[k] && Within(nodes, nodes[i].children[k], hi))
  }

  lemma {:induction false} SameTree(nodes: seq<NodeRec>, nodes': seq<NodeRec>, i: nat, hi: nat)
    requires Within(nodes, i, hi) && hi <= |nodes'|
    requires forall k :: i <= k < hi ==> nodes'[k] == nodes[k]
    ensures Within(nodes', i, hi) && Tree(nodes', i) == Tree(nodes, i)
    decreases |nodes| - i
  {
    if nodes[i].ElementRec? {
      var cs := nodes[i].children;
      forall k | 0 <= k < |cs|
        ensures Within(nodes', cs[k], hi) && Tree(nodes', cs[k]) == Tree(nodes, cs[k])
      {
        SameTree(nodes, nodes', cs[k], hi);
      }
      assert Tree(nodes', i).children == Tree(nodes, i).children;
    }
  }

  lemma {:induction false} WithinMore(nodes: seq<NodeRec>, i: nat, lo: nat, hi: nat)
    requires Within(nodes, i, lo) && lo <= hi <= |nodes|
    ensures Within(nodes, i, hi)
    decreases |nodes| - i
  {
    if nodes[i].ElementRec? {
      forall k | 0 <= k < |nodes[i].children| ensures Within(nodes, nodes[i].children[k], hi) {
        WithinMore(nodes, nodes[i].children[k], lo, hi);
      }
    }
  }

  // ----- The spine of open elements -----

  ghost function Next(nodes: seq<NodeRec>, cs: seq<nat>, k: nat): nat
    requires k < |cs|
  {
    if k + 1 < |cs| then cs[k + 1] else |nodes|
  }

  ghost predicate ChildOk(nodes: seq<NodeRec>, cs: seq<nat>, k: nat, n: Node)
    requires k < |cs|
  {
    cs[k] < |nodes| && Within(nodes, cs[k], Next(nodes, cs, k)) && Tree(nodes, cs[k]) == n
  }

  /** The children of the element at p, of which the first `closed` are finished trees. */
  ghost predicate ChildrenOk(nodes: seq<NodeRec>, p: nat, done: seq<Node>) {
    && p < |nodes| && nodes[p].ElementRec?
    && var cs := nodes[p].children;
    && |done| <= |cs|
    && (forall k :: 0 <= k < |cs| ==> p < cs[k] < |nodes| && nodes[cs[k]].parent == p)
    && (forall j, k :: 0 <= j < k < |cs| ==> cs[j] < cs[k])
    && (forall k :: 0 <= k < |done| ==> ChildOk(nodes, cs, k, done[k]))
  }

  ghost predicate LevelOk(nodes: seq<NodeRec>, path: seq<nat>, fs: seq<Frame>, i: nat)
    requires i < |path| == |fs|
  {
    var p := path[i];
    && ChildrenOk(nodes, p, fs[i].children)
    && nodes[p].parent == (if i == 0 then NULL else path[i - 1])
    && nodes[p].name == fs[i].name && nodes[p].attributes == fs[i].attributes && nodes[p].level == fs[i].level
    && (if i == |path| - 1 then |nodes[p].children| == |fs[i].children|
        else |nodes[p].children| == |fs[i].children| + 1 && nodes[p].children[|fs[i].children|] == path[i + 1])
  }

  ghost predicate Spine(nodes: seq<NodeRec>, path: seq<nat>, fs: seq<Frame>) {
    && |path| == |fs| > 0
    && path[0] == 0
    && (forall i, j :: 0 <= i < j < |path| ==> path[i] < path[j])
    && (forall i :: 0 <= i < |path| ==> LevelOk(nodes, path, fs, i))
  }

  // A change at or after the innermost open element leaves an outer level as it was.
  lemma OuterLevel(nodes: seq<NodeRec>, nodes': seq<NodeRec>, path: seq<nat>, fs: seq<Frame>, i: nat)
    requires Spine(nodes, path, fs) && i < |path| - 1
    requires |nodes| <= |nodes'|
    requires forall k :: 0 <= k < path[|path| - 1] && k < |nodes| ==> nodes'[k] == nodes[k]
    requires forall k :: path[|path| - 1] <= k < |nodes| ==> nodes'[k].parent == nodes[k].parent
    ensures path[i] < |nodes| && nodes'[path[i]] == nodes[path[i]]
    ensures ChildrenOk(nodes', path[i], fs[i].children)
  {
    hide Tree, Within;
    assert LevelOk(nodes, path, fs, i);
    var cs := nodes[path[i]].children;
    var done := fs[i].children;
    assert cs[|done|] == path[i + 1];
    forall k | 0 <= k < |done|
      ensures ChildOk(nodes', cs, k, done[k])
    {
      ChildBelow(nodes, path[i], done, k);
      assert ChildOk(nodes, cs, k, done[k]);
      SameTree(nodes, nodes', cs[k], Next(nodes, cs, k));
    }
  }

  lemma ChildBelow(nodes: seq<NodeRec>, p: nat, done: seq<Node>, k: nat)
    requires ChildrenOk(nodes, p, done) && k < |done|
    ensures |done| < |nodes[p].children| ==> Next(nodes, nodes[p].children, k) <= nodes[p].children[|done|]
  {
  }

  // ----- The ways the spine changes -----

  /** The node store after allocating `rec` and linking it under p, when p is an element. */
  function Link(nodes: seq<NodeRec>, p: int, rec: NodeRec): seq<NodeRec> {
    if 0 <= p < |nodes| && nodes[p].ElementRec?
    then nodes[p := nodes[p].(children := nodes[p].children + [|nodes|])] + [rec]
    else nodes + [rec]
  }

  lemma SpineFacts(nodes: seq<NodeRec>, path: seq<nat>, fs: seq<Frame>)
    requires Spine(nodes, path, fs)
    ensures |path| == |fs| > 0 && |nodes| > 0
    ensures var p := path[|path| - 1];
            && p < |nodes| && nodes[p].ElementRec?
            && nodes[p].parent == (if |path| == 1 then NULL else path[|path| - 2])
            && nodes[p].attributes == Top(fs).attributes
            && |nodes[p].children| == |Top(fs).children|
  {
    assert LevelOk(nodes, path, fs, |path| - 1);
  }

  lemma ChildFacts(nodes: seq<NodeRec>, path: seq<nat>, fs: seq<Frame>, c: nat)
    requires Spine(nodes, path, fs) && c < |Top(fs).children|
    ensures var p := path[|path| - 1];
            && p < |nodes| && nodes[p].ElementRec? && c < |nodes[p].children|
            && var id := nodes[p].children[c];
            && id < |nodes| && id != p && nodes[id].parent == p
            && (nodes[id].ContentRec? <==> Top(fs).children[c].Content?)
            && (nodes[id].ContentRec? ==> Top(fs).children[c] == Content(nodes[id].data, nodes[id].headerLen))
  {
    assert LevelOk(nodes, path, fs, |path| - 1);
    var p := path[|path| - 1];
    assert Tree(nodes, nodes[p].children[c]) == Top(fs).children[c];
  }

  lemma SpineStart(nodes: seq<NodeRec>, path: seq<nat>, fs: seq<Frame>, name: nat, level: DocumentLevel)
    requires Spine(nodes, path, fs)
    ensures var p := path[|path| - 1];
            Spine(Link(nodes, p, ElementRec(p, name, [], level, [])), path + [|nodes|], fs + [Frame(name, [], level, [])])
  {
    hide Tree, Within;
    var n := |path| - 1;
    var p := path[n];
    assert LevelOk(nodes, path, fs, n);
    var rec := nodes[p];
    var id := |nodes|;
    var nodes' := nodes[p := rec.(children := rec.children + [id])] + [ElementRec(p, name, [], level, [])];
    var path' := path + [id];
    var fs' := fs + [Frame(name, [], level, [])];
    forall i | 0 <= i < |path'| ensures LevelOk(nodes', path', fs', i) {
      if i < n {
        OuterLevel(nodes, nodes', path, fs, i);
        assert LevelOk(nodes, path, fs, i);
      } else if i == n {
        var cs := rec.children;
        var cs' := nodes'[p].children;
        assert cs' == cs + [id];
        forall k | 0 <= k < |cs|
          ensures ChildOk(nodes', cs', k, fs[n].children[k])
        {
          assert ChildOk(nodes, cs, k, fs[n].children[k]);
          SameTree(nodes, nodes', cs[k], Next(nodes, cs, k));
        }
        assert ChildrenOk(nodes', p, fs[n].children);
      }
    }
  }

  // Replacing the attributes of the innermost element.
  lemma SpineAttributes(nodes: seq<NodeRec>, path: seq<nat>, fs: seq<Frame>, attributes: seq<Attribute>)
    requires Spine(nodes, path, fs)
    ensures var p := path[|path| - 1];
            && p < |nodes| && nodes[p].ElementRec?
            && Spine(nodes[p := nodes[p].(attributes := attributes)], path,
                     SetTop(fs, Top(fs).(attributes := attributes)))
  {
    hide Tree, Within;
    var n := |path| - 1;
    var p := path[n];
    assert LevelOk(nodes, path, fs, n);
    var nodes' := nodes[p := nodes[p].(attributes := attributes)];
    var fs' := SetTop(fs, Top(fs).(attributes := attributes));
    forall i | 0 <= i < |path| ensures LevelOk(nodes', path, fs', i) {
      assert LevelOk(nodes, path, fs, i);
      if i < n {
        OuterLevel(nodes, nodes', path, fs, i);
      } else {
        var cs := nodes[p].children;
        forall k | 0 <= k < |cs|
          ensures ChildOk(nodes', cs, k, fs[n].children[k])
        {
          assert ChildOk(nodes, cs, k, fs[n].children[k]);
          SameTree(nodes, nodes', cs[k], Next(nodes, cs, k));
        }
      }
    }
  }

  // A new text node under the innermost element.
  lemma SpineNewText(nodes: seq<NodeRec>, path: seq<nat>, fs: seq<Frame>, data: string)
    requires Spine(nodes, path, fs)
    ensures var p := path[|path| - 1];
            Spine(Link(nodes, p, ContentRec(p, data, 0)), path,
                  SetTop(fs, Top(fs).(children := Top(fs).children + [Content(data, 0)])))
  {
    hide Tree, Within;
    var n := |path| - 1;
    var p := path[n];
    assert LevelOk(nodes, path, fs, n);
    var rec := nodes[p];
    var id := |nodes|;
    var nodes' := nodes[p := rec.(children := rec.children + [id])] + [ContentRec(p, data, 0)];
    var fs' := SetTop(fs, Top(fs).(children := Top(fs).children + [Content(data, 0)]));
    forall i | 0 <= i < |path| ensures LevelOk(nodes', path, fs', i) {
      assert LevelOk(nodes, path, fs, i);
      if i < n {
        OuterLevel(nodes, nodes', path, fs, i);
      } else {
        var cs := rec.children;
        var cs' := nodes'[p].children;
        assert cs' == cs + [id];
        forall k | 0 <= k < |cs'|
          ensures ChildOk(nodes', cs', k, fs'[n].children[k])
        {
          if k < |cs| {
            assert ChildOk(nodes, cs, k, fs[n].children[k]);
            SameTree(nodes, nodes', cs[k], Next(nodes, cs, k));
          } else {
            Leaf(nodes', id, Next(nodes', cs', k));
          }
        }
        assert ChildrenOk(nodes', p, fs'[n].children);
      }
    }
  }

  lemma Leaf(nodes: seq<NodeRec>, i: nat, hi: nat)
    requires i < hi <= |nodes|
    ensures Tree(nodes, i).Content? <==> nodes[i].ContentRec?
    ensures nodes[i].ContentRec? ==> Within(nodes, i, hi) && Tree(nodes, i) == Content(nodes[i].data, nodes[i].headerLen)
  {
  }

  lemma ElementTree(nodes: seq<NodeRec>, p: nat, ns: seq<Node>)
    requires p < |nodes| && nodes[p].ElementRec? && |nodes[p].children| == |ns|
    requires forall k :: 0 <= k < |ns| ==> && p < nodes[p].children[k]
                                           && Within(nodes, nodes[p].children[k], |nodes|)
                                           && Tree(nodes, nodes[p].children[k]) == ns[k]
    ensures Within(nodes, p, |nodes|)
    ensures Tree(nodes, p) == Element(nodes[p].name, nodes[p].attributes, nodes[p].level, ns)
  {
    var t := Tree(nodes, p);
    assert forall k :: 0 <= k < |ns| ==> nodes[p].children[k] < |nodes|;
    assert t.children == ns;
  }

  // Rewriting text child number c of the innermost element.
  lemma SpineChangeText(nodes: seq<NodeRec>, path: seq<nat>, fs: seq<Frame>, c: nat, data: string, headerLen: nat)
    requires Spine(nodes, path, fs)
    requires c < |Top(fs).children| && Top(fs).children[c].Content?
    requires path[|path| - 1] < |nodes| && nodes[path[|path| - 1]].ElementRec?
    requires c < |nodes[path[|path| - 1]].children| && nodes[path[|path| - 1]].children[c] < |nodes|
    ensures var p := path[|path| - 1];
            var id := nodes[p].children[c];
            && Spine(nodes[id := ContentRec(p, data, headerLen)], path,
                     SetTop(fs, Top(fs).(children := Top(fs).children[c := Content(data, headerLen)])))
  {
    hide Tree, Within;
    var n := |path| - 1;
    var p := path[n];
    assert LevelOk(nodes, path, fs, n);
    var cs := nodes[p].children;
    var id := cs[c];
    assert Tree(nodes, id) == fs[n].children[c];
    Leaf(nodes, id, |nodes|);
    var nodes' := nodes[id := ContentRec(p, data, headerLen)];
    var fs' := SetTop(fs, Top(fs).(children := Top(fs).children[c := Content(data, headerLen)]));
    forall i | 0 <= i < |path| ensures LevelOk(nodes', path, fs', i) {
      assert LevelOk(nodes, path, fs, i);
      if i < n {
        OuterLevel(nodes, nodes', path, fs, i);
      } else {
        forall k | 0 <= k < |cs|
          ensures ChildOk(nodes', cs, k, fs'[n].children[k])
        {
          assert ChildOk(nodes, cs, k, fs[n].children[k]);
          if k < c {
            SameTree(nodes, nodes', cs[k], Next(nodes, cs, k));
          } else if k > c {
            SameTree(nodes, nodes', cs[k], Next(nodes, cs, k));
          } else {
            Leaf(nodes', id, Next(nodes', cs, k));
          }
        }
        assert ChildrenOk(nodes', p, fs'[n].children);
      }
    }
  }

  // The innermost element is finished.
  lemma SpineTopTree(nodes: seq<NodeRec>, path: seq<nat>, fs: seq<Frame>)
    requires Spine(nodes, path, fs)
    ensures var p := path[|path| - 1];
            Within(nodes, p, |nodes|) && Tree(nodes, p) == CloseFrame(Top(fs))
  {
    hide Tree, Within, Spine;
    SpineTop(nodes, path, fs);
    var p := path[|path| - 1];
    var ns := Top(fs).children;
    var cs := nodes[p].children;
    forall k | 0 <= k < |ns| ensures p < cs[k] && Within(nodes, cs[k], |nodes|) && Tree(nodes, cs[k]) == ns[k] {
      assert ChildOk(nodes, cs, k, ns[k]);
      WithinMore(nodes, cs[k], Next(nodes, cs, k), |nodes|);
    }
    ElementTree(nodes, p, ns);
  }

  lemma SpineTop(nodes: seq<NodeRec>, path: seq<nat>, fs: seq<Frame>)
    requires Spine(nodes, path, fs)
    ensures |path| == |fs| > 0
    ensures var p, f := path[|path| - 1], Top(fs);
            && ChildrenOk(nodes, p, f.children) && |nodes[p].children| == |f.children|
            && nodes[p].name == f.name && nodes[p].attributes == f.attributes && nodes[p].level == f.level
  {
    hide ChildrenOk;
    assert LevelOk(nodes, path, fs, |path| - 1);
  }

  lemma SpineEnd(nodes: seq<NodeRec>, path: seq<nat>, fs: seq<Frame>)
    requires Spine(nodes, path, fs) && |path| > 1
    ensures var outer := fs[..|fs| - 1];
            Spine(nodes, path[..|path| - 1],
                  SetTop(outer, Top(outer).(children := Top(outer).children + [CloseFrame(Top(fs))])))
  {
    hide Tree, Within;
    var n := |path| - 2;
    SpineTopTree(nodes, path, fs);
    var outer := fs[..|fs| - 1];
    var fs' := SetTop(outer, Top(outer).(children := Top(outer).children + [CloseFrame(Top(fs))]));
    var path' := path[..|path| - 1];
    forall i | 0 <= i < |path'| ensures LevelOk(nodes, path', fs', i) {
      assert LevelOk(nodes, path, fs, i);
      if i == n {
        assert LevelOk(nodes, path, fs, n + 1);
        assert ChildrenOk(nodes, path'[n], fs'[n].children);
      }
    }
  }

  lemma SpineFirst(name: nat, level: DocumentLevel)
    ensures Spine([ElementRec(NULL, name, [], level, [])], [0], [Frame(name, [], level, [])])
  {
    assert LevelOk([ElementRec(NULL, name, [], level, [])], [0], [Frame(name, [], level, [])], 0);
  }

  lemma SpineLast(nodes: seq<NodeRec>, path: seq<nat>, fs: seq<Frame>)
    requires Spine(nodes, path, fs) && |path| == 1
    ensures Within(nodes, 0, |nodes|) && Tree(nodes, 0) == CloseFrame(Top(fs))
  {
    SpineTopTree(nodes, path, fs);
  }

  /** Where the cursor stands while elements are open: on the last text of the innermost element,
      or on that element itself. */
  ghost predicate CursorOk(nodes: seq<NodeRec>, path: seq<nat>, fs: seq<Frame>, pos: int, posType: NodeType) {
    && path != [] && fs != []
    && var p := path[|path| - 1];
    && p < |nodes| && nodes[p].ElementRec?
    && (if AtContent(Top(fs).children)
        then posType == ContentType && nodes[p].children != [] && pos == nodes[p].children[|nodes[p].children| - 1]
        else posType == ElementType && pos == p)
  }

  lemma Linked(nodes: seq<NodeRec>, p: int, rec: NodeRec)
    requires 0 <= p < |nodes| && nodes[p].ElementRec?
    ensures (nodes + [rec])[p := nodes[p].(children := nodes[p].children + [|nodes|])] == Link(nodes, p, rec)
    ensures (nodes + [rec])[p] == nodes[p]
  {
  }

  lemma NewCursor(nodes: seq<NodeRec>, path: seq<nat>, fs: seq<Frame>, name: nat, level: DocumentLevel)
    requires path != [] && path[|path| - 1] < |nodes| && nodes[path[|path| - 1]].ElementRec?
    ensures CursorOk(Link(nodes, path[|path| - 1], ElementRec(path[|path| - 1], name, [], level, [])), path + [|nodes|],
                     fs + [Frame(name, [], level, [])], |nodes|, ElementType)
  {
  }

  lemma FirstCursor(name: nat, level: DocumentLevel)
    ensures CursorOk([ElementRec(NULL, name, [], level, [])], [0], [Frame(name, [], level, [])], 0, ElementType)
  {
  }

  class VXMLDocumentRep {
    var nodes: seq<NodeRec>
    var root: int
    var pos: int
    var posType: NodeType

    ghost var path: seq<nat>
    ghost var state: Build

    ghost predicate Valid()
      reads this
    {
      && state.Ok()
      && match state
         case Empty => nodes == [] && root == NULL && pos == NULL && posType == Uninitialized
         case Lone(d, h) => nodes == [ContentRec(NULL, d, h)] && root == 0 && pos == 0 && posType == ContentType
         case Closed(n) =>
           && root == 0 && pos == NULL && posType == ElementType
           && Within(nodes, 0, |nodes|) && Tree(nodes, 0) == n
         case Open(fs) => root == 0 && Spine(nodes, path, fs) && CursorOk(nodes, path, fs, pos, posType)
    }

    constructor ()
      ensures Valid() && state == Empty
    {
      nodes, root, pos, posType := [], NULL, NULL, Uninitialized;
      path, state := [], Empty;
    }

    // What the cursor points at while elements are open.
    lemma Cursor()
      requires Valid() && state.Open?
      ensures path != [] && var p := path[|path| - 1];
              && p < |nodes| && nodes[p].ElementRec? && nodes[p].parent >= NULL
              && |nodes[p].children| == |Top(state.frames).children|
              && (posType == ContentType || posType == ElementType)
              && (posType == ContentType <==> AtContent(Top(state.frames).children))
              && (posType == ElementType ==> pos == p)
              && (posType == ContentType ==>
                    && 0 <= pos < |nodes| && nodes[pos].ContentRec? && nodes[pos].parent == p
                    && nodes[p].children != [] && pos == nodes[p].children[|nodes[p].children| - 1]
                    && Top(state.frames).children[|nodes[p].children| - 1] == Content(nodes[pos].data, nodes[pos].headerLen))
    {
      hide Spine;
      SpineFacts(nodes, path, state.frames);
      if posType == ContentType {
        ChildFacts(nodes, path, state.frames, |Top(state.frames).children| - 1);
      }
    }

    /** AddChild: the first node becomes the root, any other is appended to the cursor's element. */
    method AddChild(c: nat) returns (ok: bool)
      requires root != NULL && pos != NULL && posType == ElementType ==> 0 <= pos < |nodes| && nodes[pos].ElementRec?
      modifies this`root, this`nodes
      ensures ok <==> old(root) == NULL || (old(pos) != NULL && posType == ElementType)
      ensures root == if old(root) == NULL then c else old(root)
      ensures nodes == if ok && old(root) != NULL
                       then old(nodes)[pos := old(nodes)[pos].(children := old(nodes)[pos].children + [c])]
                       else old(nodes)
    {
      if root == NULL {
        root := c;
        return true;
      }
      if pos == NULL || posType != ElementType { return false; }
      nodes := nodes[pos := nodes[pos].(children := nodes[pos].children + [c])];
      ok := true;
    }

    method StartElement(n: nat, dlevel: DocumentLevel) returns (ok: bool)
      requires Valid() && !state.Lone?
      modifies this
      ensures ok <==> Start(old(state), n, dlevel).Some?
      ensures ok ==> Valid() && state == Start(old(state), n, dlevel).value
    {
      hide Spine, Tree, Within, CursorOk, Link;
      if state.Open? { Cursor(); }
      if root != NULL {
        if pos == NULL { return false; }
        if posType == ContentType {
          pos := nodes[pos].parent;
          posType := if nodes[pos].ElementRec? then ElementType else ContentType;
        }
      }
      if state.Open? {
        Linked(nodes, pos, ElementRec(pos, n, [], dlevel, []));
        SpineStart(nodes, path, state.frames, n, dlevel);
        NewCursor(nodes, path, state.frames, n, dlevel);
        path := path + [|nodes|];
      } else {
        path := [0];
        SpineFirst(n, dlevel);
        FirstCursor(n, dlevel);
      }
      var temp := |nodes|;
      nodes := nodes + [ElementRec(pos, n, [], dlevel, [])];
      ok := AddChild(temp);
      assert old(nodes) == [] ==> nodes == [ElementRec(NULL, n, [], dlevel, [])];
      pos := temp;
      posType := ElementType;
      state := Start(state, n, dlevel).value;
    }

    method AddContent(c: string) returns (ok: bool)
      requires Valid()
      modifies this
      ensures ok <==> Text(old(state), c).Some?
      ensures ok ==> Valid() && state == Text(old(state), c).value
    {
      if c == "" { return true; }
      if posType == ContentType {
        GrowText(c);
        ok := true;
      } else {
        ok := NewText(c);
      }
    }

    // At a text node: it grows.
    method GrowText(c: string)
      requires Valid() && posType == ContentType && c != ""
      modifies this
      ensures Text(old(state), c).Some? && Valid() && state == Text(old(state), c).value
    {
      hide Spine, Tree, Within;
      if state.Open? {
        Cursor();
        ghost var cs := Top(state.frames).children;
        SpineChangeText(nodes, path, state.frames, |cs| - 1, nodes[pos].data + c, nodes[pos].headerLen);
        assert cs[|cs| - 1 := Content(nodes[pos].data + c, nodes[pos].headerLen)] == AppendText(cs, c);
      }
      nodes := nodes[pos := nodes[pos].(data := nodes[pos].data + c)];
      state := Text(state, c).value;
    }

    // Otherwise a text node of its own, under the cursor.
    method NewText(c: string) returns (ok: bool)
      requires Valid() && posType != ContentType && c != ""
      modifies this
      ensures ok <==> Text(old(state), c).Some?
      ensures ok ==> Valid() && state == Text(old(state), c).value
    {
      hide Spine, Tree, Within;
      ghost var linked := Link(nodes, pos, ContentRec(pos, c, 0));
      if state.Open? {
        Cursor();
        SpineNewText(nodes, path, state.frames, c);
      }
      var temp := |nodes|;
      nodes := nodes + [ContentRec(pos, c, 0)];
      ok := AddChild(temp);
      if !ok { return; }
      assert nodes == linked;
      pos := temp;
      posType := ContentType;
      state := Text(state, c).value;
    }

    method MarkSSMLHeader(len: int)
      requires Valid()
      modifies this
      ensures Valid() && state == Mark(old(state), len)
    {
      hide Spine, Tree, Within;
      if state.Open? { Cursor(); }
      if posType == ContentType {
        ghost var h: nat := if len < 0 then |nodes[pos].data| else len;
        if state.Open? {
          ghost var cs := Top(state.frames).children;
          SpineChangeText(nodes, path, state.frames, |cs| - 1, nodes[pos].data, h);
          assert cs[|cs| - 1 := Content(nodes[pos].data, h)] == MarkHeader(cs, len);
        }
        nodes := nodes[pos := nodes[pos].(headerLen := if len < 0 then |nodes[pos].data| else len)];
      } else if state.Open? {
        assert SetTop(state.frames, Top(state.frames)) == state.frames;
      }
      state := Mark(state, len);
    }

    method AddAttribute(a: Attribute) returns (ok: bool)
      requires Valid()
      modifies this
      ensures ok <==> AddAttr(old(state), a).Some?
      ensures ok ==> Valid() && state == AddAttr(old(state), a).value
    {
      hide Spine, Tree, Within;
      if state.Open? { Cursor(); }
      if pos == NULL || posType != ElementType { return false; }
      SpineFacts(nodes, path, state.frames);
      SpineAttributes(nodes, path, state.frames, Top(state.frames).attributes + [a]);
      nodes := nodes[pos := nodes[pos].(attributes := nodes[pos].attributes + [a])];
      state := AddAttr(state, a).value;
      ok := true;
    }

    /** The value of the first attribute with this key, as the element under the cursor has it. */
    method GetAttribute(key: nat) returns (ok: bool, value: Option<string>)
      requires Valid()
      ensures ok <==> state.Open? && !AtContent(Top(state.frames).children)
      ensures ok ==> value == FindAttribute(Top(state.frames).attributes, key)
    {
      hide Spine, Tree, Within;
      if state.Open? { Cursor(); }
      if pos == NULL || posType != ElementType { return false, None; }
      SpineFacts(nodes, path, state.frames);
      ok, value := true, None;
      var attributes := nodes[pos].attributes;
      assert attributes[0..] == attributes;
      var i := 0;
      while i < |attributes|
        invariant 0 <= i <= |attributes|
        invariant FindAttribute(attributes, key) == FindAttribute(attributes[i..], key)
      {
        if attributes[i].key == key {
          return true, Some(attributes[i].value);
        }
        assert attributes[i..][1..] == attributes[i + 1..];
        i := i + 1;
      }
    }

    method PruneWhitespace()
      requires Valid() && state.Open?
      modifies this
      ensures Valid() && state == PruneTop(old(state))
    {
      hide Spine, Tree, Within;
      Cursor();
      // The element whose texts are pruned, also when the cursor is at one of them.
      var start := pos;
      if posType == ContentType { start := nodes[pos].parent; }
      ghost var fs := state.frames;
      ghost var done := Top(fs).children;
      var children := nodes[start].children;
      assert PruneFirst(done, 0) == done;
      assert SetTop(fs, Top(fs).(children := PruneFirst(done, 0))) == fs;
      var j := 0;
      while j < |children|
        invariant 0 <= j <= |children| == |done|
        invariant path != [] && start == path[|path| - 1]
        invariant Spine(nodes, path, SetTop(fs, Top(fs).(children := PruneFirst(done, j))))
        invariant start < |nodes| && nodes[start].ElementRec? && nodes[start].children == children
        invariant state == old(state) && path == old(path) && pos == old(pos) && posType == old(posType) && root == old(root)
      {
        ghost var fsj := SetTop(fs, Top(fs).(children := PruneFirst(done, j)));
        ChildFacts(nodes, path, fsj, j);
        var c := children[j];
        if nodes[c].ContentRec? {
          var str := Whitespace.PruneText(nodes[c].data);
          SpineChangeText(nodes, path, fsj, j, str, nodes[c].headerLen);
          ghost var fsn := SetTop(fs, Top(fs).(children := PruneFirst(done, j + 1)));
          assert PruneFirst(done, j)[j := Content(str, nodes[c].headerLen)] == PruneFirst(done, j + 1);
          assert SetTop(fsj, Top(fsj).(children := PruneFirst(done, j + 1))) == fsn;
          nodes := nodes[c := nodes[c].(data := str)];
        } else {
          assert PruneFirst(done, j) == PruneFirst(done, j + 1);
        }
        j := j + 1;
      }
      assert PruneFirst(done, |done|) == Prune(done);
      state := PruneTop(state);
    }

    method EndElement() returns (ok: bool)
      requires Valid()
      modifies this
      ensures ok <==> End(old(state)).Some?
      ensures ok ==> Valid() && state == End(old(state)).value
    {
      hide Spine, Tree, Within;
      if state.Open? { Cursor(); }
      if pos == NULL { return false; }

      if posType == ContentType {
        pos := nodes[pos].parent;
      }
      if pos == NULL { return false; }
      SpineFacts(nodes, path, state.frames);

      posType := ElementType;
      pos := nodes[pos].parent;
      if |path| > 1 {
        SpineEnd(nodes, path, state.frames);
        path := path[..|path| - 1];
        state := End(state).value;
        SpineFacts(nodes, path, state.frames);
      } else {
        SpineLast(nodes, path, state.frames);
        state := End(state).value;
      }
      ok := true;
    }
  }

  ghost function PruneFirst(ns: seq<Node>, j: nat): (r: seq<Node>)
    requires j <= |ns|
    ensures |r| == |ns|
  {
    seq(|ns|, i requires 0 <= i < |ns| => if i < j then PruneNode(ns[i]) else ns[i])
  }
}
