/** XML documents as the SAX parser reports them, the element table of the converter, and the
    markup text the converter writes for elements it copies. */
module Markup {
  import opened Escaping
  import opened Whitespace
  import DocumentTree

  datatype ExecutableKind =
    | ASSIGN | CLEAR | DATA | DISCONNECT | ELSE | ELSEIF | EXIT | GOTO | IF | LOG | REPROMPT | RETURN
    | SCRIPT | SUBMIT | THROW | VAR

  datatype SpeechKind = BREAK | EMPHASIS | PARAGRAPH | PHONEME | PROSODY | SAYAS | SENTENCE | VOICE

  datatype AliasKind = ERROR | HELP | NOINPUT | NOMATCH

  datatype PlainKind =
    | BLOCK | CANCEL | CATCH | FIELD | FILLED | FORM | INITIAL | LINK | MENU | META | OBJECT | PARAM
    | PROPERTY | RECORD | SUBDIALOG | TRANSFER | VXML | DEFAULTS_ROOT | DEFAULTS_LANGUAGE

  /** What ConvertElement makes of an element name, grouped as the converter's switches group it;
      Unknown when the name is not in the table. */
  datatype Kind =
    | Unknown
    | Audio | Value | Enumerate | Mark | Foreach
    | Executable(e: ExecutableKind)
    | Prompt | Grammar | Choice | Option | Metadata
    | Speech(s: SpeechKind)
    | Description | Substitute
    | Alias(a: AliasKind)
    | Plain(p: PlainKind)

  const NODE_PROMPT: nat := 29

  /** The VXMLElementType number of the element that is built; event aliases become catch. */
  function Code(k: Kind): nat {
    match k
    case Audio => 1
    case Value => 39
    case Enumerate => 11
    case Mark => 24
    case Foreach => 15
    case Prompt => NODE_PROMPT
    case Grammar => 18
    case Choice => 5
    case Option => 27
    case Alias(_) => 4
    case Executable(e) =>
      (match e
       case ASSIGN => 0 case CLEAR => 6 case DATA => 7 case DISCONNECT => 8 case ELSE => 9 case ELSEIF => 10
       case EXIT => 12 case GOTO => 17 case IF => 19 case LOG => 22 case REPROMPT => 33 case RETURN => 32
       case SCRIPT => 34 case SUBMIT => 36 case THROW => 37 case VAR => 40)
    case Plain(p) =>
      (match p
       case BLOCK => 2 case CANCEL => 3 case CATCH => 4 case FIELD => 13 case FILLED => 14 case FORM => 16
       case INITIAL => 20 case LINK => 21 case MENU => 23 case META => 25 case OBJECT => 26 case PARAM => 28
       case PROPERTY => 30 case RECORD => 31 case SUBDIALOG => 35 case TRANSFER => 38 case VXML => 41
       case DEFAULTS_ROOT => 42 case DEFAULTS_LANGUAGE => 43)
    case _ => 0x200
  }

  const ATTRIBUTE_BASE: nat := 10
  const ATTRIBUTE_SRC: nat := 55
  const ATTRIBUTE_SRCEXPR: nat := 56
  const ATTRIBUTE_XMLLANG: nat := 65

  datatype XmlAttr = XmlAttr(qname: string, localname: string, value: string)

  /** What the attribute sections of startElement decide about an element that is built: a parse
      error, or the attributes the node gets. */
  datatype Attributes = Rejected | Accepted(attributes: seq<DocumentTree.Attribute>)

  datatype Xml =
    | Text(s: string)
    | Elem(kind: Kind, name: string, attrs: seq<XmlAttr>, outcome: Attributes, children: seq<Xml>)

  datatype Event =
    | StartElement(kind: Kind, name: string, attrs: seq<XmlAttr>, outcome: Attributes)
    | Characters(s: string)
    | EndElement(kind: Kind, name: string)

  /** The events of a well-nested document, in order. */
  function Events(x: Xml): seq<Event>
    decreases x, 1
  {
    match x
    case Text(s) => [Characters(s)]
    case Elem(k, n, a, o, cs) => [StartElement(k, n, a, o)] + EventsAll(cs) + [EndElement(k, n)]
  }

  function EventsAll(xs: seq<Xml>): seq<Event>
    decreases xs, 0
  {
    if xs == [] then [] else Events(xs[0]) + EventsAll(xs[1..])
  }

  // ----- Copied markup -----

  function AttrName(a: XmlAttr): string {
    if a.qname == "xml:lang" then "xml:lang" else a.localname
  }

  function AttrText(a: XmlAttr): string {
    " " + AttrName(a) + "=\"" + Escape(a.value, COPY_SPECIALS) + "\""
  }

  function AttrsText(attrs: seq<XmlAttr>): string {
    if attrs == [] then "" else AttrText(attrs[0]) + AttrsText(attrs[1..])
  }

  function OpenTag(name: string, attrs: seq<XmlAttr>): string {
    "<" + name + AttrsText(attrs) + ">"
  }

  function CloseTag(name: string): string {
    "</" + name + ">"
  }

  /** The body of a grammar as text: tags written out, blank text dropped, other text as it is. */
  function Pretty(x: Xml): string
    decreases x, 1
  {
    match x
    case Text(s) => if AllBlank(s) then "" else s
    case Elem(_, n, a, _, cs) => OpenTag(n, a) + PrettyAll(cs) + CloseTag(n)
  }

  function PrettyAll(xs: seq<Xml>): string
    decreases xs, 0
  {
    if xs == [] then "" else Pretty(xs[0]) + PrettyAll(xs[1..])
  }

  /** Some text in the body is not blank. */
  predicate HasText(x: Xml)
    decreases x, 1
  {
    match x
    case Text(s) => !AllBlank(s)
    case Elem(_, _, _, _, cs) => HasTextAll(cs)
  }

  predicate HasTextAll(xs: seq<Xml>)
    decreases xs, 0
  {
    xs != [] && (HasText(xs[0]) || HasTextAll(xs[1..]))
  }
}
