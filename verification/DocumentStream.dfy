/** WriteDocument and ReadDocument: the serialisation code over streams and the in-place builder. */
module DocumentStream {
  import opened Wrappers
  import opened DocumentTree
  import opened DocumentBuilder
  import opened Serializer

  class SerializerOutput {
    var data: seq<byte>

    constructor ()
      ensures data == []
    {
      data := [];
    }

    method Write(bytes: seq<byte>)
      modifies this
      ensures data == old(data) + bytes
    {
      data := data + bytes;
    }
  }

  class SerializerInput {
    var data: seq<byte>
    var at: nat

    ghost predicate Valid() reads this { at <= |data| }

    ghost function Rest(): seq<byte>
      requires Valid()
      reads this
    {
      data[at..]
    }

    constructor (bytes: seq<byte>)
      ensures Valid() && Rest() == bytes
    {
      data, at := bytes, 0;
    }

    /** Hands out as many of the requested bytes as there are. */
    method Read(bufSize: nat) returns (buffer: seq<byte>)
      requires Valid()
      modifies this
      ensures Valid() && data == old(data)
      ensures buffer == if bufSize <= |old(Rest())| then old(Rest())[..bufSize] else old(Rest())
      ensures Rest() == old(Rest())[|buffer|..]
    {
      var count := if bufSize <= |data| - at then bufSize else |data| - at;
      buffer := data[at..at + count];
      at := at + count;
    }
  }

  method WriteInt(i: nat, writer: SerializerOutput)
    modifies writer
    ensures writer.data == old(writer.data) + Word(i, INT_MULTIPLIER)
  {
    writer.Write(Word(i, INT_MULTIPLIER));
  }

  method WriteBlock(block: string, writer: SerializerOutput)
    modifies writer
    ensures writer.data == old(writer.data) + Block(block)
  {
    hide Word;
    var size := |block|;
    WriteInt(size, writer);
    if size != 0 {
      writer.Write(StringBytes(block));
    }
    assert old(writer.data) + Word(size, INT_MULTIPLIER) + StringBytes(block) == old(writer.data) + Block(block);
  }

  method ReadInt(reader: SerializerInput) returns (r: Option<nat>)
    requires reader.Valid()
    modifies reader
    ensures reader.Valid() && reader.data == old(reader.data)
    ensures match TakeInt(old(reader.Rest()))
            case None => r.None?
            case Some((v, rest)) => r == Some(v) && reader.Rest() == rest
  {
    var temp := reader.Read(INT_MULTIPLIER);
    if |temp| != INT_MULTIPLIER { return None; }
    r := Some(Value(temp));
  }

  // The characters of the first `done` bytes have been reassembled.
  ghost predicate ChunkedSoFar(start: seq<byte>, done: nat, block: string) {
    done <= |start| && done % CHAR_MULTIPLIER == 0 && block == Chars(start[..done])
  }

  lemma ChunkStart(start: seq<byte>)
    ensures ChunkedSoFar(start, 0, "")
  {
    assert start[..0] == [];
  }

  lemma ChunkStep(start: seq<byte>, done: nat, temp: seq<byte>, block: string)
    requires ChunkedSoFar(start, done, block)
    requires |temp| % CHAR_MULTIPLIER == 0 && temp <= start[done..]
    ensures ChunkedSoFar(start, done + |temp|, block + Chars(temp))
  {
    hide Chars;
    Joins(start, done, temp);
    CharsAppend(start[..done], temp);
  }

  lemma Joins(start: seq<byte>, done: nat, temp: seq<byte>)
    requires done <= |start| && temp <= start[done..]
    ensures done + |temp| <= |start| && start[..done + |temp|] == start[..done] + temp
    ensures start[done..][|temp|..] == start[done + |temp|..]
  {
  }

  lemma ChunkEnd(start: seq<byte>, done: nat, block: string)
    requires ChunkedSoFar(start, done, block)
    ensures TakeBlock(start, done / CHAR_MULTIPLIER) == Some((block, start[done..]))
  {
  }

  // `left` of `length` characters are still to be read, and they start at rest.
  ghost predicate Reading(start: seq<byte>, rest: seq<byte>, left: nat, length: nat, block: string) {
    && left <= length && CHAR_MULTIPLIER * (length - left) <= |start|
    && rest == start[CHAR_MULTIPLIER * (length - left)..]
    && ChunkedSoFar(start, CHAR_MULTIPLIER * (length - left), block)
  }

  lemma ReadingStarts(start: seq<byte>, length: nat)
    ensures Reading(start, start, length, length, "")
  {
    ChunkStart(start);
    assert start[0..] == start;
  }

  lemma ReadingOn(start: seq<byte>, rest: seq<byte>, left: nat, length: nat, block: string, request: nat)
    requires Reading(start, rest, left, length, block) && request <= left && CHAR_MULTIPLIER * request <= |rest|
    ensures var temp := rest[..CHAR_MULTIPLIER * request];
            Reading(start, rest[|temp|..], left - request, length, block + Chars(temp))
  {
    hide Chars, ChunkedSoFar;
    var done, temp := CHAR_MULTIPLIER * (length - left), rest[..CHAR_MULTIPLIER * request];
    ChunkStep(start, done, temp, block);
    Joins(start, done, temp);
  }

  lemma ReadingStops(start: seq<byte>, rest: seq<byte>, left: nat, length: nat, block: string)
    requires Reading(start, rest, left, length, block) && |rest| < CHAR_MULTIPLIER * left
    ensures TakeBlock(start, length).None?
  {
  }

  lemma ReadingEnds(start: seq<byte>, rest: seq<byte>, length: nat, block: string)
    requires Reading(start, rest, 0, length, block)
    ensures TakeBlock(start, length) == Some((block, rest))
  {
    ChunkEnd(start, CHAR_MULTIPLIER * length, block);
  }

  /** Reads `length` characters in chunks of at most NUM_CHARS. */
  method ReadBlock(length: nat, reader: SerializerInput) returns (r: Option<string>)
    requires reader.Valid()
    modifies reader
    ensures reader.Valid() && reader.data == old(reader.data)
    ensures match TakeBlock(old(reader.Rest()), length)
            case None => r.None?
            case Some((v, rest)) => r == Some(v) && reader.Rest() == rest
  {
    hide Chars, Value, Reading, TakeBlock;
    var size := length;
    var block := "";
    ghost var start := reader.Rest();
    ReadingStarts(start, length);
    if size == 0 {
      ReadingEnds(start, start, length, block);
      return Some(block);
    }
    while size > 0
      invariant 0 <= size <= length
      invariant reader.Valid() && reader.data == old(reader.data)
      invariant Reading(start, reader.Rest(), size, length, block)
    {
      var request := if size < NUM_CHARS then size else NUM_CHARS;
      var maxread := request * CHAR_MULTIPLIER;
      ghost var rest := reader.Rest();
      var temp := reader.Read(maxread);
      if |temp| != maxread {
        ReadingStops(start, rest, size, length, block);
        return None;
      }
      ReadingOn(start, rest, size, length, block, request);
      block := block + Chars(temp);
      size := size - request;
    }
    ReadingEnds(start, reader.Rest(), length, block);
    r := Some(block);
  }

  /** Writes the subtree at node i. */
  method WriteElement(rep: VXMLDocumentRep, i: nat, ghost hi: nat, writer: SerializerOutput)
    requires Within(rep.nodes, i, hi) && rep.nodes[i].ElementRec?
    modifies writer
    ensures writer.data == old(writer.data) + Encode(Tree(rep.nodes, i))
    decreases |rep.nodes| - i
  {
    hide Word, Block, Encode, EncodeAll, EncodeAttributes, Tree, Within;
    TreeParts(rep.nodes, i, hi);
    ghost var n := Tree(rep.nodes, i);
    ghost var d0 := writer.data;
    WriteInt(TYPE_ELEMENT, writer);

    // Name, then count and list of attributes, then count and list of children.
    WriteInt(rep.nodes[i].name, writer);

    var attributes := rep.nodes[i].attributes;
    WriteInt(|attributes|, writer);
    ghost var d1 := writer.data;
    assert attributes[0..] == attributes;
    var k := 0;
    while k < |attributes|
      invariant 0 <= k <= |attributes|
      invariant writer.data + EncodeAttributes(attributes[k..]) == d1 + EncodeAttributes(attributes)
    {
      ghost var d := writer.data;
      WriteInt(attributes[k].key, writer);
      WriteBlock(attributes[k].value, writer);
      EncodeAttributesStep(d, attributes, k);
      k := k + 1;
    }
    EncodeNothing(d1);
    assert attributes[0..] == attributes && attributes[|attributes|..] == [];
    assert writer.data + [] == writer.data;
    assert writer.data == d1 + EncodeAttributes(attributes);

    var children := rep.nodes[i].children;
    WriteInt(|children|, writer);
    ghost var d2 := writer.data;
    assert n.children[0..] == n.children;
    var j := 0;
    while j < |children|
      invariant 0 <= j <= |children|
      invariant writer.data + EncodeAll(n.children[j..]) == d2 + EncodeAll(n.children)
    {
      ghost var d := writer.data;
      var c := children[j];
      TreeChild(rep.nodes, i, hi, j);
      if rep.nodes[c].ElementRec? {
        WriteElement(rep, c, hi, writer);
      } else {
        WriteInt(TYPE_CONTENT, writer);
        WriteBlock(rep.nodes[c].data, writer);
        WriteInt(rep.nodes[c].headerLen, writer);
      }
      if rep.nodes[c].ContentRec? { EncodeText(d, n.children[j]); }
      EncodeAllStep(d, n.children, j);
      j := j + 1;
    }
    assert n.children[|children|..] == [];
    EncodeNothing(d2);
    assert writer.data + [] == writer.data;
    EncodeAppend(d0, n);
  }

  lemma TreeParts(nodes: seq<NodeRec>, i: nat, hi: nat)
    requires Within(nodes, i, hi)
    ensures i < |nodes|
    ensures nodes[i].ElementRec? ==>
              var n := Tree(nodes, i);
              n.Element? && n.name == nodes[i].name && n.attributes == nodes[i].attributes && |n.children| == |nodes[i].children|
  {
  }

  lemma TreeChild(nodes: seq<NodeRec>, i: nat, hi: nat, k: nat)
    requires Within(nodes, i, hi) && nodes[i].ElementRec? && k < |nodes[i].children|
    ensures Tree(nodes, i).Element? && k < |Tree(nodes, i).children|
    ensures var c := nodes[i].children[k];
            && i < c < |nodes| && Within(nodes, c, hi)
            && Tree(nodes, i).children[k] == Tree(nodes, c)
            && (nodes[c].ContentRec? ==> Tree(nodes, c) == Content(nodes[c].data, nodes[c].headerLen))
  {
  }

  lemma EncodeText(d: seq<byte>, n: Node)
    requires n.Content?
    ensures d + Word(TYPE_CONTENT, INT_MULTIPLIER) + Block(n.data) + Word(n.headerLen, INT_MULTIPLIER) == d + Encode(n)
  {
    hide Word, Block;
  }

  lemma EncodeNothing(d: seq<byte>)
    ensures EncodeAttributes([]) == [] && EncodeAll([]) == []
  {
  }

  lemma EncodeAttributesStep(d: seq<byte>, attrs: seq<Attribute>, k: nat)
    requires k < |attrs|
    ensures d + Word(attrs[k].key, INT_MULTIPLIER) + Block(attrs[k].value) + EncodeAttributes(attrs[k + 1..])
            == d + EncodeAttributes(attrs[k..])
  {
    hide Word, Block;
    assert attrs[k..][1..] == attrs[k + 1..];
  }

  lemma EncodeAllStep(d: seq<byte>, ns: seq<Node>, k: nat)
    requires k < |ns|
    ensures d + Encode(ns[k]) + EncodeAll(ns[k + 1..]) == d + EncodeAll(ns[k..])
  {
    hide Encode;
    assert ns[k..][1..] == ns[k + 1..];
  }

  lemma EncodeAppend(d: seq<byte>, n: Node)
    requires n.Element?
    ensures d + Word(TYPE_ELEMENT, INT_MULTIPLIER) + Word(n.name, INT_MULTIPLIER) + Word(|n.attributes|, INT_MULTIPLIER)
            + EncodeAttributes(n.attributes) + Word(|n.children|, INT_MULTIPLIER) + EncodeAll(n.children)
            == d + Encode(n)
  {
    hide Word, EncodeAttributes, EncodeAll;
  }

  /** Replays one element of the stream through the builder. */
  method LoadElement(docRep: VXMLDocumentRep, reader: SerializerInput) returns (error: Option<Error>)
    requires docRep.Valid() && !docRep.state.Lone? && reader.Valid()
    modifies docRep, reader
    ensures reader.Valid() && reader.data == old(reader.data)
    ensures match Load(old(docRep.state), old(reader.Rest()))
            case Fail(e) => error == Some(e)
            case Done(b, rest) => error.None? && docRep.Valid() && docRep.state == b && reader.Rest() == rest
    decreases |reader.Rest()|, 4
  {
    hide Value, Chars, LoadChildren, LoadAttributes;
    var name := ReadInt(reader);
    if name.None? { return Some(SerializationError); }
    var ok := docRep.StartElement(name.value % ENUM_LIMIT, DOCUMENT);
    if !ok { return Some(InternalError); }

    var numAttributes := ReadInt(reader);
    if numAttributes.None? { return Some(SerializationError); }
    error := LoadElementAttributes(docRep, reader, numAttributes.value);
    if error.Some? { return; }

    var numChildren := ReadInt(reader);
    if numChildren.None? { return Some(SerializationError); }
    error := LoadElementChildren(docRep, reader, numChildren.value);
    if error.Some? { return; }

    ok := docRep.EndElement();
    if !ok { return Some(InternalError); }
    error := None;
  }

  // The child loop of LoadElement.
  method LoadElementChildren(docRep: VXMLDocumentRep, reader: SerializerInput, numChildren: nat)
    returns (error: Option<Error>)
    requires docRep.Valid() && docRep.state.Open? && reader.Valid()
    modifies docRep, reader
    ensures reader.Valid() && reader.data == old(reader.data)
    ensures match LoadChildren(old(docRep.state), numChildren, old(reader.Rest()))
            case Fail(e) => error == Some(e)
            case Done(b, rest) => error.None? && docRep.Valid() && docRep.state == b && reader.Rest() == rest
    decreases |reader.Rest()|, 3
  {
    hide LoadNode;
    ghost var b2, s4 := docRep.state, reader.Rest();
    var j := 0;
    while j < numChildren
      invariant 0 <= j <= numChildren
      invariant docRep.Valid() && docRep.state.Open? && reader.Valid() && reader.data == old(reader.data)
      invariant |reader.Rest()| <= |old(reader.Rest())|
      invariant LoadChildren(b2, numChildren, s4) == LoadChildren(docRep.state, numChildren - j, reader.Rest())
    {
      error := LoadChild(docRep, reader);
      if error.Some? { return; }
      j := j + 1;
    }
    error := None;
  }

  method LoadChild(docRep: VXMLDocumentRep, reader: SerializerInput) returns (error: Option<Error>)
    requires docRep.Valid() && docRep.state.Open? && reader.Valid()
    modifies docRep, reader
    ensures reader.Valid() && reader.data == old(reader.data)
    ensures match LoadNode(old(docRep.state), old(reader.Rest()))
            case Fail(e) => error == Some(e)
            case Done(b, rest) => error.None? && docRep.Valid() && docRep.state == b && reader.Rest() == rest
    decreases |reader.Rest()|, 2
  {
    hide Value, Chars, Load;
    var nodeType := ReadInt(reader);
    if nodeType.None? { return Some(SerializationError); }

    if nodeType.value == TYPE_CONTENT {
      var size := ReadInt(reader);
      if size.None? { return Some(SerializationError); }
      var data := ReadBlock(size.value, reader);
      if data.None? { return Some(SerializationError); }
      var ok := docRep.AddContent(data.value);
      if !ok { return Some(InternalError); }
      size := ReadInt(reader);
      if size.None? { return Some(SerializationError); }
      docRep.MarkSSMLHeader(ToInt32(size.value));
      error := None;
    } else if nodeType.value == TYPE_ELEMENT {
      error := LoadElement(docRep, reader);
    } else {
      error := Some(SerializationError);
    }
  }

  method LoadElementAttributes(docRep: VXMLDocumentRep, reader: SerializerInput, numAttributes: nat)
    returns (error: Option<Error>)
    requires docRep.Valid() && docRep.state.Open? && reader.Valid()
    modifies docRep, reader
    ensures reader.Valid() && reader.data == old(reader.data)
    ensures match LoadAttributes(old(docRep.state), numAttributes, old(reader.Rest()))
            case Fail(e) => error == Some(e)
            case Done(b, rest) => error.None? && docRep.Valid() && docRep.state == b && reader.Rest() == rest
  {
    hide Value, Chars, TakeBlock, Spine, Tree, Within;
    ghost var b, s := docRep.state, reader.Rest();
    var i := 0;
    while i < numAttributes
      invariant 0 <= i <= numAttributes
      invariant docRep.Valid() && docRep.state.Open? && reader.Valid() && reader.data == old(reader.data)
      invariant LoadAttributes(b, numAttributes, s) == LoadAttributes(docRep.state, numAttributes - i, reader.Rest())
    {
      var key := ReadInt(reader);
      if key.None? { return Some(SerializationError); }
      var size := ReadInt(reader);
      if size.None? { return Some(SerializationError); }
      var attr := ReadBlock(size.value, reader);
      if attr.None? { return Some(SerializationError); }
      var ok := docRep.AddAttribute(Attribute(key.value % ENUM_LIMIT, attr.value));
      if !ok { return Some(InternalError); }
      i := i + 1;
    }
    error := None;
  }

  /** Writes a finished document; a document without a root element cannot be written. */
  method WriteDocument(internals: VXMLDocumentRep, writer: SerializerOutput) returns (error: Option<Error>)
    requires internals.Valid() && !internals.state.Open?
    modifies writer
    ensures error.None? <==> internals.state.Closed? && internals.state.root.Element?
    ensures error.None? ==> writer.data == old(writer.data) + Encode(internals.state.root)
    ensures error.Some? ==> error == Some(SerializationError) && writer.data == old(writer.data)
  {
    var root := internals.root;
    if root == NULL || !internals.nodes[root].ElementRec? { return Some(SerializationError); }
    WriteElement(internals, root, |internals.nodes|, writer);
    error := None;
  }

  method ReadDocument(reader: SerializerInput) returns (error: Option<Error>, docRep: VXMLDocumentRep)
    requires reader.Valid()
    modifies reader
    ensures reader.Valid() && fresh(docRep)
    ensures match TakeInt(old(reader.Rest()))
            case None => error == Some(SerializationError)
            case Some((t, s)) =>
              if t != TYPE_ELEMENT then error == Some(SerializationError)
              else match Load(Empty, s)
                   case Fail(e) => error == Some(e)
                   case Done(b, rest) => error.None? && docRep.Valid() && docRep.state == b && reader.Rest() == rest
  {
    docRep := new VXMLDocumentRep();
    var nodeType := ReadInt(reader);
    if nodeType.None? { return Some(SerializationError), docRep; }
    if nodeType.value != TYPE_ELEMENT { return Some(SerializationError), docRep; }
    error := LoadElement(docRep, reader);
  }

  /** Writing a builder-made document and reading it back gives the document with its levels reset,
      if and only if every text node survives; the reader always accepts and consumes the stream. */
  method StoreAndReload(document: VXMLDocumentRep) returns (copy: VXMLDocumentRep)
    requires document.Valid() && document.state.Closed? && document.state.root.Element?
    requires Maximal(document.state.root) && Fits(document.state.root)
    ensures fresh(copy) && copy.Valid() && copy.state.Closed?
    ensures copy.state.root == Reset(document.state.root) <==> Storable(document.state.root)
    ensures unchanged(document)
  {
    ghost var n := document.state.root;
    var writer := new SerializerOutput();
    var error := WriteDocument(document, writer);
    assert writer.data == Encode(n);
    var reader := new SerializerInput(writer.data);
    TakeIntWord(TYPE_ELEMENT, EncodeBody(n));
    RoundTrip(n);
    error, copy := ReadDocument(reader);
  }
}
