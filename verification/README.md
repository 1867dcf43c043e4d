# Verified model of the VoiceXML front end and its glue

This project models the parts of the OpenVXI front end and of the voiceglue library that carry hard
state, and proves what they promise.

- **Document tree** (`Whitespace`, `DocumentTree`, `DocumentBuilder`, `Serializer`, `DocumentStream`).
  `VXMLDocumentRep` keeps nodes in a store with a cursor and is updated in place; each method is
  proved to act on the tree the store stands for. The writer and the stateful reader are proved to be
  inverse to each other, with the exact set of trees for which they are.
- **Converter** (`Markup`, `ConverterSteps`, `DocumentConverter`, `ConverterReference`,
  `ConverterCorrectness`, `ConverterTheorem`, `ConverterDocuments`, `ConverterPrompts`,
  `ConverterBalance`, `ConverterMisplaced`, `ConverterElements`, `ConverterTexts`, `ConvertedDocuments`,
  `GrammarText`).
  The SAX handlers are a class with the source's mode fields. They are proved equal to a step function,
  and the step function, over all event sequences of XML trees, to a recursive conversion that knows
  no modes and no builder. The trees on which the two part are exactly those on which some event closes
  an element that is not its own. What the conversion keeps is said of the document alone: which
  elements have nodes, and where texts, headers and numbers go.
- **Grammar walk** (`PropertyList`, `GrammarWalk`, `GrammarCache`, `GrammarModes`, `GrammarLoads`,
  `GrammarBuilder`). The property stack and the walk with its hand-made cache, against a walk that
  flattens properties afresh, the exact documents on which the two differ, and what each element makes
  the recogniser load.
- **Recogniser ledger** (`GrammarLedger`, `LedgerLaws`, `LedgerRuns`, `LedgerDiscipline`, `GrammarTables`,
  `GrammarSelection`, `GrammarPrecedence`). Who holds which handle, over whole runs in which the
  recogniser may fail anywhere, which grammars a request enables, and the precedence order between them.
- **N-best** (`NBest`). Buckets, selection sort with a non-strict comparison, and emission.
- **Wire** (`IpcChannel`, `Satc`, `CommandLine`, `UrlCoding`, `HttpCommand`). Framing over arbitrary
  chunking, quoting against the parser at the other end, URL coding in buffers.
- **Small state** (`Escaping`, `Counters`, `HiddenNames`, `RefCounts`).

Where the code falls short of what one would expect of it, the model keeps the code and states when it
does what is expected:

- A stored document comes back unchanged only if no text node is empty and header lengths fit a signed
  32-bit argument (`Serializer.RoundTrip`); converted documents have no empty text, so for them only the
  header lengths count (`ConvertedDocuments.ConvertedRoundTrip`).
- Some documents make the converter close an element that is not its own; `ConverterDocuments.DocumentRuns`
  says exactly which. A mark outside every prompt is one and still ends in a finished, wrong tree
  (`ConverterMisplaced.MarkDocument`); a grammar inside copied SSML is one and raises the internal error
  (`ConverterMisplaced.GrammarInSpeechDocument`). So an unclean document need not raise that error, while
  the error is raised by unclean documents only (`ConverterDocuments.CorruptionNeedsMisplacedClose`).
- Text of a grammar body is not escaped (`GrammarText.MarkupInTextIsReadAsMarkup`); the text can be read
  back exactly under the condition of `GrammarText.GrammarReadsBack`.
- `startDocument` leaves three mode fields as they were, so claims about whole documents are about a
  fresh converter (`DocumentConverter.DocumentConverter.StartDocument`).
- A push onto a full property stack is merged under what is there and not undone by the pop
  (`PropertyList.PushThenPop`, `PropertyList.PushOverlays`).
- A mode attribute on a field or menu shows through to grammars below it that have none
  (`GrammarCache.LoadOverLoad`, `GrammarModes.FieldModeShows`); `GrammarModes.CacheIsInvisible` says
  exactly in which documents.
- Enabling twice, or a refused activation of a dynamic grammar, loses a recogniser handle
  (`LedgerDiscipline`); the recogniser agrees with the tables throughout a run exactly when no active
  handle is overwritten or freed (`LedgerDiscipline.RunsAgree`); universals are freed without being deactivated (`LedgerRuns.ReleaseKeeps`).
- `GetEnclosedText` keeps only the last text child (`GrammarWalk.ChoiceLosesText`); nothing is lost if
  and only if no non-empty text comes before it (`GrammarWalk.EnclosedIsJoined`).
- An answer with an empty instance loses its instances with data (`NBest.EmptyInstanceHidesData`); all are
  shown if and only if it has not both kinds (`NBest.EntriesAreAll`).
- A handle constructed over a listed representation that no builder refers to any more is not counted
  (`RefCounts.DocumentModel.Wrap`).
- Assigning a document handle to itself, or an invalid handle to it, leaks the reference
  (`RefCounts.DocumentModel.Assign`).
- `UrlEncode` compares a count that never moves (`UrlCoding.UrlEncode`), and post data with an apostrophe
  does not survive the command line (`HttpCommand.HttpGetDecodes`).

`dafny verify dfyconfig.toml` checks the whole project.

## Model

| member | source | states |
|---|---|---|
| DocumentBuilder.VXMLDocumentRep.AddChild | openvxi-3.4+vglue/src/VXI/DocumentModel.cpp:605-617 | links a node under the cursor, or makes it the root of an empty document; refuses, changing nothing, when the cursor is not at an element |
| DocumentBuilder.VXMLDocumentRep.StartElement | openvxi-3.4+vglue/src/VXI/DocumentModel.cpp:483-511 | the node store, cursor and cursor type in place stand for the tree of `DocumentTree.Start`; it fails exactly when the document is finished |
| DocumentBuilder.VXMLDocumentRep.AddContent | openvxi-3.4+vglue/src/VXI/DocumentModel.cpp:441-469 | text joins the text node under the cursor or opens a new one, for every cursor position; fails exactly when the document is finished |
| DocumentBuilder.VXMLDocumentRep.MarkSSMLHeader | openvxi-3.4+vglue/src/VXI/DocumentModel.cpp:472-480 | sets the header length of the text under the cursor, a negative length meaning the whole text, and nothing else |
| DocumentBuilder.VXMLDocumentRep.AddAttribute | openvxi-3.4+vglue/src/VXI/DocumentModel.cpp:594-602 | appends to the innermost open element exactly when no text is under the cursor |
| DocumentBuilder.VXMLDocumentRep.GetAttribute | openvxi-3.4+vglue/src/VXI/DocumentModel.cpp:583-591 | the first attribute with the key, of the innermost open element; nothing changes |
| DocumentBuilder.VXMLDocumentRep.PruneWhitespace | openvxi-3.4+vglue/src/VXI/DocumentModel.cpp:514-553 | every text child of the innermost open element is replaced by its normal form; elements, order and header lengths stay |
| DocumentBuilder.VXMLDocumentRep.EndElement | openvxi-3.4+vglue/src/VXI/DocumentModel.cpp:556-571 | closes the innermost open element, leaving the finished document when it was the root |
| DocumentTree.BuilderKeepsRuns | openvxi-3.4+vglue/src/VXI/DocumentModel.cpp:441-571 | no builder operation ever leaves two neighbouring text nodes anywhere in the tree |
| DocumentTree.TextTwice | openvxi-3.4+vglue/src/VXI/DocumentModel.cpp:441-469 | adding a text in two parts is adding it at once, so the way the parser splits character data does not matter |
| DocumentTree.FindsFirst | openvxi-3.4+vglue/src/VXI/DocumentModel.cpp:583-591 | an attribute is found exactly when some attribute has the key, and what is found is the value of the first that has it |
| Whitespace.PruneText | openvxi-3.4+vglue/src/VXI/DocumentModel.cpp:514-553 | the character replacement and the backward erasing loop compute the words of the text joined by single spaces |
| Whitespace.PruneKeepsText | openvxi-3.4+vglue/src/VXI/DocumentModel.cpp:514-553 | pruning keeps every visible character, in order |
| Whitespace.PruneIsTheNormalForm | openvxi-3.4+vglue/src/VXI/DocumentModel.cpp:514-553 | the result is the one normal text with the visible words of the input (both directions), so pruning is idempotent |
| Whitespace.PruneKeepsVisible | openvxi-3.4+vglue/src/VXI/DocumentModel.cpp:514-553 | the result is empty exactly for blank text |
| DocumentStream.WriteBlock | openvxi-3.4+vglue/src/VXI/DocumentModel.cpp:830-838 | appends the size word and the characters, nothing for an empty text but its size |
| DocumentStream.ReadBlock | openvxi-3.4+vglue/src/VXI/DocumentModel.cpp:852-873 | reading in chunks of 256 characters reassembles exactly the requested characters, for every length, or fails when the stream is too short |
| DocumentStream.WriteElement | openvxi-3.4+vglue/src/VXI/DocumentModel.cpp:876-910 | the recursive writer over the node store appends the encoding of the subtree |
| DocumentStream.WriteDocument | openvxi-3.4+vglue/src/VXI/DocumentModel.cpp:913-924 | writes a finished document with an element as root, and writes nothing and fails for any other |
| DocumentStream.LoadElementAttributes | openvxi-3.4+vglue/src/VXI/DocumentModel.cpp:932-944 | each attribute read from the stream is added through the builder, until one is malformed |
| DocumentStream.LoadElementChildren | openvxi-3.4+vglue/src/VXI/DocumentModel.cpp:946-964 | text, header marks and child elements go through the builder in stream order; an unknown node type fails |
| DocumentStream.LoadElement | openvxi-3.4+vglue/src/VXI/DocumentModel.cpp:927-966 | driving the mutable builder from the stream equals the functional reader: same tree, same rest of the stream, same error |
| DocumentStream.ReadDocument | openvxi-3.4+vglue/src/VXI/DocumentModel.cpp:969-982 | a fresh representation filled from the stream, or the error the stream deserves |
| DocumentStream.StoreAndReload | openvxi-3.4+vglue/src/VXI/DocumentModel.cpp:824-982 | writing a builder-made document and reading it back always succeeds, and gives the same tree with document levels reset if and only if every text node is storable (not empty, and its header length survives a signed 32-bit argument) |
| Serializer.LoadOf | openvxi-3.4+vglue/src/VXI/DocumentModel.cpp:876-966 | from any builder position, loading what was written for an element adds the reloaded element at the cursor and leaves the cursor where it was, consuming exactly its bytes |
| Serializer.ReloadedExact | openvxi-3.4+vglue/src/VXI/DocumentModel.cpp:876-966 | for any tree with maximal text runs, the reloaded tree is the original with levels reset if and only if it is storable; the failing trees are all of those with an empty text or an unrepresentable header length |
| Serializer.RoundTrip | openvxi-3.4+vglue/src/VXI/DocumentModel.cpp:876-966 | decode after encode on whole documents, with no bytes left over, exactly for the storable trees |
| Serializer.FirstWord | openvxi-3.4+vglue/src/VXI/DocumentModel.cpp:876-924 | a written tree begins with the word 1 for an element and 0 for text, low byte first |
| Serializer.SignedInt | openvxi-3.4+vglue/src/VXI/DocumentModel.cpp:946-964 | the header length handed to MarkSSMLHeader is the signed 32-bit number congruent to the word read |
| ConverterSteps.Step | openvxi-3.4+vglue/src/VXI/DocumentConverter.cpp:593-1330 | one event: every event that does not throw keeps the mode invariant: no implicit prompt beside an explicit one, a foreach mode only inside an implicit prompt |
| ConverterSteps.Run | openvxi-3.4+vglue/src/VXI/DocumentConverter.cpp:593-1330 | the same over any sequence of events, well nested or not, from any state that has the invariant |
| DocumentConverter.DocumentConverter.StartDocument | openvxi-3.4+vglue/src/VXI/DocumentConverter.cpp:503-531 | starting a parse resets the builder and all modes but three: the foreach mode and the two script-content flags keep their old values, so the invariant holds exactly when the foreach mode was off |
| DocumentConverter.DocumentConverter.CopyElementStart | openvxi-3.4+vglue/src/VXI/DocumentConverter.cpp:1498-1558 | the start/pos escape loop writes the tag with its attributes, pointwise escaped, as one text, and counts the copied tag |
| DocumentConverter.DocumentConverter.CopyElementClose | openvxi-3.4+vglue/src/VXI/DocumentConverter.cpp:1561-1571 | writes the closing tag as text and uncounts it |
| DocumentConverter.DocumentConverter.StartImplicitPrompt | openvxi-3.4+vglue/src/VXI/DocumentConverter.cpp:1574-1590 | opens a prompt element holding the marked SSML header |
| DocumentConverter.DocumentConverter.EndImplicitPrompt | openvxi-3.4+vglue/src/VXI/DocumentConverter.cpp:1593-1599 | writes the SSML closing tag and closes the innermost builder element |
| DocumentConverter.DocumentConverter.PromptBoundaryAt | openvxi-3.4+vglue/src/VXI/DocumentConverter.cpp:725-793 | what a new element does to the implicit prompt: open it, stay in it, end it, or be refused inside copied SSML |
| DocumentConverter.DocumentConverter.HandleStart | openvxi-3.4+vglue/src/VXI/DocumentConverter.cpp:593-1110 | startElement on the fields and the builder does what `ConverterSteps.Step` says, in the source's order of tests |
| DocumentConverter.DocumentConverter.HandleEnd | openvxi-3.4+vglue/src/VXI/DocumentConverter.cpp:1113-1290 | endElement likewise, with the grammar, prompt and implicit-prompt exits |
| DocumentConverter.DocumentConverter.HandleCharacters | openvxi-3.4+vglue/src/VXI/DocumentConverter.cpp:1293-1330 | characters likewise: blank text is dropped, plain text may open an implicit prompt |
| DocumentConverter.DocumentConverter.HandleEvents | openvxi-3.4+vglue/src/VXI/DocumentConverter.cpp:503-1330 | a whole parse of the imperative converter equals the run of the step function, including the event that throws |
| ConverterTheorem.ConvertRuns | openvxi-3.4+vglue/src/VXI/DocumentConverter.cpp:593-1330 | main induction: for every XML tree, context and builder position, running its events through the state machine ends exactly as the recursive reference conversion of the tree says - same builder, same modes - or throws where the reference refuses, or meets a misplaced close where the reference is unclean |
| ConverterTheorem.ConvertAllRuns | openvxi-3.4+vglue/src/VXI/DocumentConverter.cpp:593-1330 | the same for sibling lists |
| ConverterDocuments.DocumentRuns | openvxi-3.4+vglue/src/VXI/DocumentConverter.cpp:503-1330 | every document on a fresh converter: it ends with exactly the converted tree and every mode at rest, or is refused, or closes an element that is not its own; the three cases coincide with those of the reference |
| ConverterDocuments.AdmissibleClean | openvxi-3.4+vglue/src/VXI/DocumentConverter.cpp:593-1330 | content in which the implicit prompts can end cleanly never becomes unclean, in any conversion state |
| ConverterDocuments.Balance | openvxi-3.4+vglue/src/VXI/DocumentConverter.cpp:503-1330 | an admissible document is either refused or leaves builder depth zero, no prompt, copied tag or grammar open, and never raises an internal error |
| ConverterBalance.DepthBeforeMisplaced | openvxi-3.4+vglue/src/VXI/DocumentConverter.cpp:503-1330 | every document, after any number of events before one closes an element that is not its own: the builder's depth is the number of open elements that were emitted, plus one while an implicit prompt is open |
| ConverterBalance.BalanceThroughout | openvxi-3.4+vglue/src/VXI/DocumentConverter.cpp:503-1330 | the same for admissible documents at every moment of the parse, which at every moment is either so balanced or has been refused, never misused the builder |
| ConverterDocuments.CorruptionNeedsMisplacedClose | openvxi-3.4+vglue/src/VXI/DocumentConverter.cpp:503-1330 | for any document at all, an internal error is possible only after some event closed an element that is not its own |
| ConverterDocuments.GrammarFlattens | openvxi-3.4+vglue/src/VXI/DocumentConverter.cpp:593-1330 | the events of any grammar element, from any state in an ordinary element: the implicit prompt is closed, one grammar node is added whose only child is the pretty-print of the whole body, and every other mode comes back; or the parse is refused, exactly when content is forbidden (by the grammar's source or by an enclosing script's) and visible, or neither |
| ConverterCorrectness.GrammarRuns | openvxi-3.4+vglue/src/VXI/DocumentConverter.cpp:606-610 | inside a grammar any run of siblings becomes text: the events append exactly the pretty-print of the nodes to the text under the cursor, and the copy depth comes back |
| ConverterPrompts.PromptsAreFramed | openvxi-3.4+vglue/src/VXI/DocumentConverter.cpp:1574-1599 | in every converted document each prompt node starts with its marked SSML header, ends with the closing tag, and holds no other prompt |
| ConverterMisplaced.MarkIsNeverConverted | openvxi-3.4+vglue/src/VXI/DocumentConverter.cpp:725-793 | in an ordinary element where text would imply a prompt, no mark is ever converted, whatever it contains |
| ConverterMisplaced.MarkDocument | openvxi-3.4+vglue/src/VXI/DocumentConverter.cpp:1196-1290 | a whole document, a mark in a block: not clean, and yet the run ends with a finished tree, in which the prompt has no closing tag because the mark has swallowed it |
| ConverterMisplaced.GrammarInSpeechDocument | openvxi-3.4+vglue/src/VXI/DocumentConverter.cpp:670-793 | a whole document, a grammar inside copied SSML in a block: it is not refused, the end of the SSML element closes the block, and the end of the root raises the internal error |
| ConverterMisplaced.PlainInSpeechDocument | openvxi-3.4+vglue/src/VXI/DocumentConverter.cpp:725-793 | the same document with an ordinary element in the grammar's place is refused |
| ConverterElements.PromptStarts | openvxi-3.4+vglue/src/VXI/DocumentConverter.cpp:621-649 | a start tag inside an explicit prompt: audio, value, enumerate, foreach, mark and executable elements open a builder element with their attributes; a prompt is only counted; every other element, whatever it is, becomes text and leaves the depth as it was |
| ConverterElements.ElementsAreKept | openvxi-3.4+vglue/src/VXI/DocumentConverter.cpp:593-1330 | whole documents: the converted tree has, prompts aside, exactly the elements the document says should have nodes, in the same order and nesting and with their attributes |
| ConverterElements.PromptHolds | openvxi-3.4+vglue/src/VXI/DocumentConverter.cpp:593-1330 | a converted explicit prompt is one prompt node, below which lies a node for each audio, value, enumerate, foreach, mark and executable element of the prompt, at any depth, and none for any other |
| ConverterTexts.PlainTextStays | openvxi-3.4+vglue/src/VXI/DocumentConverter.cpp:1293-1330 | text alone in a choice or option stays its text, normalised; in a log or script it stays as it is; a script that names a source with its text is refused |
| ConverterTexts.TextBeginsPrompt | openvxi-3.4+vglue/src/VXI/DocumentConverter.cpp:1293-1330 | text alone in any other ordinary or executable element becomes a prompt with the document's header and the closing tag |
| ConverterTexts.EmptyElements | openvxi-3.4+vglue/src/VXI/DocumentConverter.cpp:1113-1290 | without children a script or grammar is refused exactly when nothing around it forbids content and it names no source; no other element needs content |
| ConverterTexts.HeaderSays | openvxi-3.4+vglue/src/VXI/DocumentConverter.cpp:1574-1590 | an SSML header names the base up to its last question mark, and the language |
| ConverterTexts.PromptHeaderSays | openvxi-3.4+vglue/src/VXI/DocumentConverter.cpp:593-1110 | an explicit prompt's header names the first base and the first language among its attributes |
| ConverterTexts.NumbersAreEnumerated | openvxi-3.4+vglue/src/VXI/VXML.h:28-74 | the number a node gets is the place of its element's name in the enumeration, catch for the event aliases |
| ConverterTexts.NumbersAgree | openvxi-3.4+vglue/src/VXI/VXML.h:28-74 | the numbers the grammar walk and the property stack look for are those the converter writes |
| ConvertedDocuments.ConvertedTexts | openvxi-3.4+vglue/src/VXI/DocumentConverter.cpp:503-1330 | in every converted document no text is blank, pruned or not, and no two texts are neighbours |
| ConvertedDocuments.ConvertedRoundTrip | openvxi-3.4+vglue/src/VXI/DocumentModel.cpp:824-982 | every converted document comes back from the byte stream, levels reset, if and only if its header lengths survive the reader's signed 32-bit argument |
| ConvertedDocuments.Parse | openvxi-3.4+vglue/src/VXI/DocumentParser.cpp:841-867 | a fresh converter fed the events of a document: the builder then holds exactly the finished converted tree, or the parse ends refused, as the reference conversion says |
| ConvertedDocuments.ParseAndStore | openvxi-3.4+vglue/src/VXI/DocumentModel.cpp:824-982 | parse, write and read back on the objects: the copy is the converted tree with levels reset if and only if its header lengths survive |
| GrammarText.ReadsBack | openvxi-3.4+vglue/src/VXI/DocumentConverter.cpp:1498-1571 | a markup reader undoes the tag and text writer on a token sequence if and only if every token is restorable: no double quote in an attribute value, no `<` and none of the four predefined entities in text |
| GrammarText.GrammarReadsBack | openvxi-3.4+vglue/src/VXI/DocumentConverter.cpp:1293-1571 | reading the flattened text of any grammar body gives its tags, attributes and visible text again, in order, if and only if no attribute value has a double quote and no run of text has a `<` or one of the four predefined entities |
| GrammarText.UnescapeKeeps | openvxi-3.4+vglue/src/VXI/DocumentConverter.cpp:1498-1571 | unescaping leaves a text alone if and only if none of `&quot;`, `&lt;`, `&gt;`, `&amp;` occurs in it |
| GrammarText.MarkupInTextIsReadAsMarkup | openvxi-3.4+vglue/src/VXI/DocumentConverter.cpp:1293-1330 | text of a grammar body is not escaped, so text that looks like a tag is read as one |
| PropertyList.PropertyList.GetProperty | openvxi-3.4+vglue/src/VXI/PropertyList.cpp:83-94 | scans the levels downwards and returns the value of the highest level, at or below the given one, that has the key |
| PropertyList.PropertyList.PushProperties | openvxi-3.4+vglue/src/VXI/PropertyList.cpp:569-602 | puts the declared properties on the first free level, the first of duplicates winning, or merges them under what the last level already holds when none is free |
| PropertyList.PropertyList.PopProperties | openvxi-3.4+vglue/src/VXI/PropertyList.cpp:605-614 | empties the highest level that is not empty |
| PropertyList.PropertyList.GetProperties | openvxi-3.4+vglue/src/VXI/PropertyList.cpp:626-647 | the flattened map is the overlay of all levels |
| PropertyList.FlattenIsLookup | openvxi-3.4+vglue/src/VXI/PropertyList.cpp:83-94 | flattening and top-down lookup agree on every key of every stack |
| PropertyList.FirstDeclaration | openvxi-3.4+vglue/src/VXI/PropertyList.cpp:569-602 | a key is declared with a value exactly when the first child element 30 whose first attribute 47 is the key has that value as its first attribute 61 |
| PropertyList.PushThenPop | openvxi-3.4+vglue/src/VXI/PropertyList.cpp:569-614 | a push that found properties is undone by the next pop if and only if the last level was free |
| PropertyList.PushOverlays | openvxi-3.4+vglue/src/VXI/PropertyList.cpp:569-602 | what is in scope after a push: the new properties over the old ones while a level is free; with the last level taken, what it already holds wins |
| GrammarCache.LoadOverLoad | openvxi-3.4+vglue/src/VXI/GrammarManager.cpp:1720-1770 | setting an element's load properties over those of an enclosing one equals setting them on a fresh map if and only if no mode attribute of the outer one shows through |
| GrammarCache.WalkSame | openvxi-3.4+vglue/src/VXI/GrammarManager.cpp:360-653 | at every node the coded walk with its cache loads what a walk without a cache loads that carries the mode in force downwards, with the same outcome, and leaves the stack and a sound cache behind |
| GrammarCache.CacheCarriesModes | openvxi-3.4+vglue/src/VXI/GrammarManager.cpp:356-653 | for whole documents whose property nesting fits the free levels, the coded walk is the mode-carrying walk, whatever modes fields and menus have: same loads, same order, same outcome, stack restored |
| GrammarModes.CarryShows | openvxi-3.4+vglue/src/VXI/GrammarManager.cpp:360-653 | node for node, the mode-carrying walk and the plain walk load the same where no mode shows through, and different properties somewhere where one does |
| GrammarModes.CacheIsInvisible | openvxi-3.4+vglue/src/VXI/GrammarManager.cpp:356-653 | for those documents, with every grammar accepted by the recogniser, the coded walk loads what the plain walk loads if and only if no mode shows through; where none shows, also when grammars are refused |
| GrammarModes.NoModesNoDifference | openvxi-3.4+vglue/src/VXI/GrammarManager.cpp:356-653 | without mode attributes on fields and menus the cache cannot be seen: same grammars, same properties, same order, same outcome, stack restored |
| GrammarModes.FieldModeShows | openvxi-3.4+vglue/src/VXI/GrammarManager.cpp:474-544 | a document on which it can be seen: a field in DTMF mode that holds a grammar without a mode |
| GrammarWalk.EnclosedIsJoined | openvxi-3.4+vglue/src/VXI/GrammarManager.cpp:882-900 | the enclosed text is the space-joined text of all text children if and only if no non-empty text comes before the last text child |
| GrammarWalk.ChoiceLosesText | openvxi-3.4+vglue/src/VXI/GrammarManager.cpp:882-900 | a choice of a text, an element and a second text is recognised by the second text alone |
| GrammarLoads.FieldLoads | openvxi-3.4+vglue/src/VXI/GrammarManager.cpp:773-879 | of its own a field loads options by speech exactly when some option child ends in text that is not empty, options by keys exactly when some has a key sequence, and its built-in type both ways exactly when it has one; in the coded walk and in the plain one |
| GrammarLoads.FieldInTheWalk | openvxi-3.4+vglue/src/VXI/GrammarManager.cpp:472-514 | wherever a field stands, the coded walk adds just these grammars next, with the field's load properties, before those of its children |
| GrammarLoads.ChoiceLoads | openvxi-3.4+vglue/src/VXI/GrammarManager.cpp:546-634 | a choice loads its key sequence exactly when it has one, and its text exactly when it ends in some and contains no grammar, approximately when it says so or leaves it to a menu that does |
| GrammarLoads.MenuOfOneChoice | openvxi-3.4+vglue/src/VXI/GrammarManager.cpp:516-544 | a choice takes acceptance and properties from its menu |
| GrammarLoads.GrammarLoads | openvxi-3.4+vglue/src/VXI/GrammarManager.cpp:376-438 | a grammar element is left to be loaded later when its source is computed, loaded inline when it names none, loaded by address otherwise, and an address within the document throws |
| GrammarLoads.LinkLoads | openvxi-3.4+vglue/src/VXI/GrammarManager.cpp:442-470 | a link loads its key sequence exactly when it has one |
| GrammarLoads.LoadPropertiesAre | openvxi-3.4+vglue/src/VXI/GrammarManager.cpp:1720-1770 | the load properties of an element, each from the first attribute that gives it, its default, or the properties in scope |
| GrammarLoads.LoadPropertyNames | openvxi-3.4+vglue/src/VXI/GrammarManager.cpp:1720-1770 | exactly these properties are set, under the recogniser's names for them, the mode only when the element has one; every other property keeps its value |
| GrammarLoads.PropertiesLookedAt | openvxi-3.4+vglue/src/VXI/GrammarManager.cpp:1720-1770 | the input modes come from the property inputmodes in scope, and without a fetchhint the prefetch level from grammarfetchhint |
| GrammarBuilder.GrammarManager.SetGrammarLoadProperties | openvxi-3.4+vglue/src/VXI/GrammarManager.cpp:1720-1770 | sets weight, mode, language, prefetch and input modes in the holder, the input modes looked up in the stack from the top |
| GrammarBuilder.GrammarManager.BuildChoiceGrammars | openvxi-3.4+vglue/src/VXI/GrammarManager.cpp:571-634 | the acceptance key is put into the shared map for one load and deleted again; it stays behind only when that load throws |
| GrammarBuilder.GrammarManager.GetEnclosedText | openvxi-3.4+vglue/src/VXI/GrammarManager.cpp:882-900 | the child loop returns the enclosed text, found exactly when it is not empty |
| GrammarBuilder.GrammarManager.BuildOwner | openvxi-3.4+vglue/src/VXI/GrammarManager.cpp:474-544 | a field or menu pushes its properties, works on its own copy of the map, and pops again |
| GrammarBuilder.GrammarManager.BuildElement | openvxi-3.4+vglue/src/VXI/GrammarManager.cpp:374-652 | one node of the walk on the shared objects does what the walk function says, whichever element it is |
| GrammarBuilder.GrammarManager.BuildGrammars | openvxi-3.4+vglue/src/VXI/GrammarManager.cpp:360-653 | the recursive walk over the property stack object and the map holders passed by reference equals the walk function, also when it throws half way |
| GrammarBuilder.GrammarManager.LoadGrammars | openvxi-3.4+vglue/src/VXI/GrammarManager.cpp:249-268 | loading a document whose property nesting fits the free levels and in which nothing is named like the acceptance key: the imperative walk adds the grammars of the mode-carrying walk and restores the stack; these are the grammars of the plain walk, each static one with the properties in scope at its place, when no mode shows through, and, all being accepted, only then |
| GrammarTables.GrammarManager.AddGrammar | openvxi-3.4+vglue/src/VXI/GrammarManager.cpp:958-973 | a new entry with the next sequence number holds the handle just loaded, or none if it is dynamic |
| GrammarTables.GrammarManager.AddUniversalGrammar | openvxi-3.4+vglue/src/VXI/GrammarManager.cpp:976-992 | the same for a universal |
| GrammarTables.GrammarManager.EnableGrammar | openvxi-3.4+vglue/src/VXI/GrammarManager.cpp:1092-1165 | one grammar: matched by field, or unless modal by dialog or document scope, reloaded if dynamic, activated, marked with its scope; only live handles reach the recogniser |
| GrammarTables.GrammarManager.EnableGrammars | openvxi-3.4+vglue/src/VXI/GrammarManager.cpp:1069-1222 | the whole call, last grammar first, then the universals asked for, for every way the recogniser may fail on the way |
| GrammarTables.GrammarManager.DisableAllGrammars | openvxi-3.4+vglue/src/VXI/GrammarManager.cpp:995-1030 | deactivates every enabled grammar once and frees the dynamic ones; never passes a dead handle |
| GrammarTables.GrammarManager.ReleaseGrammars | openvxi-3.4+vglue/src/VXI/GrammarManager.cpp:1032-1066 | frees every held handle, deactivating enabled ordinary grammars but not universals; never frees a handle twice |
| GrammarTables.GrammarManager.FindMatchedElement | openvxi-3.4+vglue/src/VXI/GrammarManager.cpp:1286-1338 | finds a grammar exactly when the matched handle is held by an enabled entry, and then returns that entry's number |
| GrammarTables.GrammarManager.CompareGrammar | openvxi-3.4+vglue/src/VXI/GrammarManager.cpp:1342-1396 | the scans over universals and grammars compute the comparison of (rank, sequence) |
| GrammarSelection.EnableInfoSelects | openvxi-3.4+vglue/src/VXI/GrammarManager.cpp:1092-1165 | one step leaves every entry alone that the request does not select, and enables a selected one, if nothing fails, with the narrowest scope it was selected for |
| GrammarSelection.ModalTouchesTheFieldOnly | openvxi-3.4+vglue/src/VXI/GrammarManager.cpp:1092-1106 | a modal request changes nothing about an entry of another field, dialog or document, and nothing at all without a field name |
| GrammarSelection.EnabledExactly | openvxi-3.4+vglue/src/VXI/GrammarManager.cpp:1069-1222 | a whole call in which nothing fails enables exactly the grammars of the asking field and, unless modal, those of dialog scope in the asking dialog and all of document scope, records each one's scope, and enables exactly the universals asked for |
| GrammarSelection.WantsIsAWord | openvxi-3.4+vglue/src/VXI/GrammarManager.cpp:1170-1215 | a universal is asked for exactly when its name or all is a word of the property, which is not just none |
| LedgerRuns.EnableInfoKeeps | openvxi-3.4+vglue/src/VXI/GrammarManager.cpp:1092-1165 | one enabling step keeps the ledger invariant, loses exactly the handle it overwrites, and leaves a flag without an active handle exactly when an enabled dynamic grammar is reloaded and refused |
| LedgerRuns.EnableKeeps | openvxi-3.4+vglue/src/VXI/GrammarManager.cpp:1069-1222 | a whole EnableGrammars call loses exactly the handles it overwrites |
| LedgerRuns.DisableKeeps | openvxi-3.4+vglue/src/VXI/GrammarManager.cpp:995-1030 | afterwards nothing is enabled and no held handle is active |
| LedgerRuns.ReleaseKeeps | openvxi-3.4+vglue/src/VXI/GrammarManager.cpp:1032-1066 | afterwards only lost handles are live, and each other handle ever issued has been freed exactly once |
| LedgerRuns.RunConsistent | openvxi-3.4+vglue/src/VXI/GrammarManager.cpp:958-1222 | in every state of every run of loads, enables, disables and releases, with any recogniser replies: each held handle is live and has one holder, only enabled grammars hold active handles, handles issued are live or freed once, sequence numbers increase, and enabled entries have a scope |
| LedgerRuns.RunLoses | openvxi-3.4+vglue/src/VXI/GrammarManager.cpp:958-1222 | a run loses a handle if and only if one of its enable calls overwrote one, that is, reloaded a dynamic grammar that still held a handle |
| LedgerRuns.EveryHandleIsFreedOnce | openvxi-3.4+vglue/src/VXI/GrammarManager.cpp:995-1066 | after any run followed by disable and release, every handle ever issued has been freed exactly once but for the lost ones |
| LedgerDiscipline.DisciplinedRunsAgree | openvxi-3.4+vglue/src/VXI/GrammarManager.cpp:995-1222 | when every enable starts with nothing enabled, dynamic loads are not refused activation and releases follow a disable, the recogniser's active set is exactly the handles of enabled entries and its live set exactly the held handles, at every step |
| LedgerDiscipline.RunsAgree | openvxi-3.4+vglue/src/VXI/GrammarManager.cpp:958-1222 | all runs, with any replies: the active set is that of the enabled grammars at every step if and only if no enable call overwrites an active handle and no release comes while a universal is active |
| LedgerDiscipline.EnablingTwiceLoses | openvxi-3.4+vglue/src/VXI/GrammarManager.cpp:1107-1146 | a concrete run that enables twice loses a live, active handle |
| LedgerDiscipline.RefusedActivationLoses | openvxi-3.4+vglue/src/VXI/GrammarManager.cpp:1140-1152 | a concrete run in which a refused activation loses a handle although the caller disables before enabling again |
| GrammarPrecedence.PrecedenceIsTotal | openvxi-3.4+vglue/src/VXI/GrammarManager.cpp:1342-1396 | on enabled grammars the comparison is antisymmetric, transitive and zero only for the same grammar, and is the lexicographic order by universal, field, dialog, document scope, then sequence |
| GrammarPrecedence.PrecedenceIsTotalOnRuns | openvxi-3.4+vglue/src/VXI/GrammarManager.cpp:1154-1396 | the same in every reachable state |
| GrammarPrecedence.NarrowerScopeFirst | openvxi-3.4+vglue/src/VXI/GrammarManager.cpp:1342-1396 | of two ordinary entries the one activated for its field precedes one activated for dialog or document, dialog precedes document, and within one scope the one loaded first |
| GrammarPrecedence.UniversalsFirst | openvxi-3.4+vglue/src/VXI/GrammarManager.cpp:1342-1396 | a universal precedes every ordinary entry |
| GrammarPrecedence.TwoUniversals | openvxi-3.4+vglue/src/VXI/GrammarManager.cpp:1342-1396 | among universals the one loaded first precedes |
| GrammarPrecedence.CompareIsBefore | openvxi-3.4+vglue/src/VXI/GrammarManager.cpp:1342-1396 | on enabled grammars the comparison is 1 exactly when the entries stand in this order, and -1 exactly when they stand in its converse |
| NBest.MayPrecedeIs | openvxi-3.4+vglue/src/VXI/AnswerParser.cpp:65-78 | the order of answers is: more confident, or as confident and of the same grammar or of one whose entry precedes |
| NBest.LessIsOrder | openvxi-3.4+vglue/src/VXI/AnswerParser.cpp:65-78 | within one confidence the non-strict operator< is the intended order, true on ties |
| NBest.SortBucket | openvxi-3.4+vglue/src/VXI/AnswerParser.cpp:811-822 | the selection sort returns a permutation in precedence order although its comparison is true on ties |
| NBest.AddAnswer | openvxi-3.4+vglue/src/VXI/AnswerParser.cpp:735-752 | adds the answer to the bucket of its confidence or opens that bucket in its place; buckets stay in descending order |
| NBest.SetUpNBestList | openvxi-3.4+vglue/src/VXI/AnswerParser.cpp:472-523 | appends one entry for the input text per text instance, or else, if all can be set, one entry per instance with data, the k-th entry holding the k-th instance and the answer; it stops at the first that cannot be set |
| NBest.EntriesAreAll | openvxi-3.4+vglue/src/VXI/AnswerParser.cpp:472-523 | every instance of an answer gets an entry, and an answer without instances one for its text, if and only if the answer has not both instances with data and instances without |
| NBest.EntriesShow | openvxi-3.4+vglue/src/VXI/AnswerParser.cpp:472-523 | the k-th entry of an answer is the k-th instance of its interpretation when all have data; otherwise there is an entry for the input text for each instance without data |
| NBest.EmptyInstanceHidesData | openvxi-3.4+vglue/src/VXI/AnswerParser.cpp:472-523 | an answer with an empty instance and one with data shows only its text |
| NBest.EmitBuckets | openvxi-3.4+vglue/src/VXI/AnswerParser.cpp:824-848 | emits the shortest run of leading answers, whole, with enough entries, or what precedes the first failure; the best answer is the first of all |
| NBest.ProcessNLSML | openvxi-3.4+vglue/src/VXI/AnswerParser.cpp:527-849 | all inputs: the return code when an interpretation ends the processing early, and otherwise an order that is a permutation of the answers, each of its own interpretation, by descending confidence and then by precedence of the grammars' entries, of which the shortest sufficient prefix is emitted; on success what is emitted are the shown instances of those interpretations, in order |
| Escaping.AppendTextSegment | openvxi-3.4+vglue/src/VXI/PromptManager.cpp:122-137 | the replace loop ends, although the string grows, with the old text plus the pointwise escape of the addition |
| Escaping.AddSSMLAttribute | openvxi-3.4+vglue/src/VXI/PromptManager.cpp:92-119 | appends the attribute with its value, or the default, escaped with quotes; nothing when there is neither |
| Escaping.UnescapeEscape | openvxi-3.4+vglue/src/VXI/PromptManager.cpp:107-137 | unescaping recovers the escaped text, for every set of specials the program uses |
| Escaping.AddedText | openvxi-3.4+vglue/src/VXI/PromptManager.cpp:122-137 | added text holds no `<`, and is unchanged exactly when it had no `<` and no ampersand |
| Escaping.AddedValue | openvxi-3.4+vglue/src/VXI/PromptManager.cpp:92-119 | an attribute value holds no double quote and no `<`, and is unchanged exactly when it had none of these and no ampersand |
| Escaping.CopiedValue | openvxi-3.4+vglue/src/VXI/DocumentConverter.cpp:1498-1558 | a copied attribute value holds no `<` and no `>`, keeps its double quotes, and is unchanged exactly when it had none of `<`, `>` and ampersand |
| Counters.EventCounter.Increment | openvxi-3.4+vglue/src/VXI/Counters.cpp:26-41 | after any history the table holds, for each name, the number of events of which it is a dotted prefix with a non-empty last segment |
| Counters.EventCounter.GetCount | openvxi-3.4+vglue/src/VXI/Counters.cpp:43-53 | returns that number, zero for the empty name and for names never counted |
| Counters.CountsUpToDots | openvxi-3.4+vglue/src/VXI/Counters.cpp:26-41 | a name is counted for an event exactly when it is the event or stands before a dot in it, and does not itself end in a dot |
| HiddenNames.VXMLDocumentModel.CreateHiddenVariable | openvxi-3.4+vglue/src/VXI/DocumentModel.cpp:80-95 | the new name differs from the 2,140,962,739 names before it |
| HiddenNames.NamesDiffer | openvxi-3.4+vglue/src/VXI/DocumentModel.cpp:80-95 | any 2,140,962,740 consecutive names are pairwise distinct, across the reset |
| HiddenNames.PeriodIsExact | openvxi-3.4+vglue/src/VXI/DocumentModel.cpp:80-95 | no longer stretch is safe: from the reset value on, the counter returns after exactly that many calls |
| HiddenNames.DecimalReads | openvxi-3.4+vglue/src/VXI/DocumentModel.cpp:90-93 | the digits of a name read as its count, without leading zeros |
| RefCounts.DocumentModel.ReleaseAtomic | openvxi-3.4+vglue/src/VXI/DocumentModel.cpp:350-388 | drops one reference of a listed representation; the last one takes it off the list and destroys it; unlisted ones are left alone |
| RefCounts.DocumentModel.Wrap | openvxi-3.4+vglue/src/VXI/DocumentModel.cpp:627-640 | a handle takes over a builder's reference without counting again, or starts a document of its own; over a listed representation whose builder has let go the counts are wrong afterwards, and only then |
| RefCounts.DocumentModel.Copy | openvxi-3.4+vglue/src/VXI/DocumentModel.cpp:648-661 | counts one more reference, and throws exactly for an invalid original |
| RefCounts.DocumentModel.Destroy | openvxi-3.4+vglue/src/VXI/DocumentModel.cpp:643-645 | drops the handle's reference |
| RefCounts.DocumentModel.Assign | openvxi-3.4+vglue/src/VXI/DocumentModel.cpp:664-679 | moves the reference; assignment from an invalid handle or from itself throws, clears the target and forgets its reference without dropping it; counts stay exact in all cases |
| RefCounts.MovesHandle | openvxi-3.4+vglue/src/VXI/DocumentModel.cpp:664-679 | assignment keeps counts exact and never destroys the representation being assigned, also when both handles already share it |
| RefCounts.ListedWhileReferred | openvxi-3.4+vglue/src/VXI/DocumentModel.cpp:297-397 | a representation is listed exactly while a handle, a builder or a forgotten reference refers to it |
| RefCounts.OnlyForgottenIsLeft | openvxi-3.4+vglue/src/VXI/DocumentModel.cpp:627-679 | once handles and builders are gone, exactly what an assignment forgot is never destroyed |
| IpcChannel.SendIpcMsg | libvglue/vglue_ipc.cc:109-127 | writes the whole C string, whatever each write accepts and however often it is interrupted |
| IpcChannel.GetIpcMsg | libvglue/vglue_ipc.cc:154-205 | reassembles the message across the 1024-byte buffer, never waits once the final newline is in the channel, and returns the whole message if it holds no other newline |
| IpcChannel.Exchange | libvglue/vglue_ipc.cc:86-205 | a body without NUL or newline arrives exactly, for every split of writes and reads |
| Satc.EscapeSatcString | libvglue/vglue_ipc.cc:213-263 | the quoting loop writes the quoted argument |
| Satc.ParseSatcFields | Satc/lib/Satc.xs:43-229 | the parser that rewrites its own buffer computes the same fields and errors as a parser that never writes |
| CommandLine.CommandDecodes | libvglue/vglue_ipc.cc:213-263 | a command line of quoted arguments parses to exactly its name and arguments, whatever bytes they hold |
| CommandLine.CommandIsUnique | libvglue/vglue_ipc.cc:213-263 | two equal command lines have equal names and arguments |
| CommandLine.CommandIsOneFrame | libvglue/vglue_ipc.cc:213-263 | a command line is printable, hence without newline or NUL |
| CommandLine.BareLine | Satc/lib/Satc.xs:81-126 | a line without quotes and backslashes is split into its words |
| CommandLine.QuotedField | Satc/lib/Satc.xs:97-125 | either kind of quote keeps everything up to the next of its kind |
| CommandLine.EscapesRead | Satc/lib/Satc.xs:127-195 | n is a newline, a backslash or quote stands for itself, and no other escape is read but the hexadecimal one |
| CommandLine.Call | libvglue/vglue_ipc.cc:86-263 | quoting, framing, transport and in-place parsing together deliver the arguments |
| UrlCoding.HexPairValue | libvglue/vglue_inet.cc:39-60 | the digit loop computes the value of two hexadecimal digits, or -1 |
| UrlCoding.UrlDecode | libvglue/vglue_inet.cc:62-94 | fills the buffer with the decoded bytes and a terminator, within its length |
| UrlCoding.UrlEncode | libvglue/vglue_inet.cc:96-121 | the count compared with max never moves, so everything is encoded unless max is 4, when nothing is; 3n+1 bytes suffice |
| UrlCoding.UrlEncodeString | libvglue/vglue_inet.cc:143-156 | the 3n+3 buffer always suffices; the result is empty exactly when the length is 2863311531 modulo 2^32, where the buffer size wraps to 4 |
| UrlCoding.UrlDecodeString | libvglue/vglue_inet.cc:123-140 | the decoded bytes up to the first NUL |
| UrlCoding.DecodeEncode | libvglue/vglue_inet.cc:62-121 | decoding undoes encoding for every byte string |
| UrlCoding.EncodedAlphabet | libvglue/vglue_inet.cc:96-121 | encoded text holds unreserved characters, plus and percent signs only, so neither separator of a query string |
| UrlCoding.EncodedAt | libvglue/vglue_inet.cc:96-121 | at its place each character of a string becomes itself if unreserved, plus if a space, and otherwise a percent sign and its two upper-case digits |
| UrlCoding.EncodedKeeps | libvglue/vglue_inet.cc:96-121 | encoding changes nothing exactly when all characters are unreserved |
| UrlCoding.BuildQuery | libvglue/vglue_inet.cc:180-206 | the loop builds the query string of the map's entries |
| UrlCoding.QueryRoundTrip | libvglue/vglue_inet.cc:180-206 | a form decoder recovers the pairs from the query string if and only if no key or value has the wrapping length |
| HttpCommand.BuildHttpGet | libvglue/vglue_inet.cc:176-232 | the message with quoted method and URL and bare post data |
| HttpCommand.HttpGetDecodes | libvglue/vglue_inet.cc:220-232 | the line parses to its five fields if and only if no apostrophe is in the query string; an odd number makes the line an error, an even number are dropped from the data |
| HttpCommand.TicksComeFromData | libvglue/vglue_inet.cc:96-121 | the apostrophes of the query string are exactly those of the keys and values |

## Left out

- Attribute processing in `startElement` (sections 4 to 6) decides per element between a parse error and an attribute list; the event carries that decision, so the tables of allowed attributes and defaults are not modelled.
- `ConvertElement` is a table lookup; events carry the kind of element it yields.
- Base URI and language are fixed for a parse after the root; their extraction from the root is not modelled.
- Ending a choice or option while the builder has no element open, which is undefined in the source, raises the internal error.
- CDATA sections and the sticky grammar type in the converter.
- Parses on a used converter: claims about whole documents are about a fresh one.
- ConverterDocuments.Balance: goes one way, from a condition on the document; the exact condition is that the reference conversion is clean, which is `ConverterDocuments.DocumentRuns`.
- GrammarModes.CacheIsInvisible: for documents whose property nesting fits the free levels of the stack and in which nothing is named like the acceptance key; the step at which deeper nesting differs is characterised exactly in `PropertyList.PushThenPop`.
- DocumentConverter.DocumentConverter.HandleStart: the attribute sections are an outcome that the event carries.
- DocumentConverter.DocumentConverter.HandleCharacters: does not wrap the text of CDATA sections.
- `GetRecProperties`, the reading of a weight, and whether the recogniser accepts a grammar are parameters of the grammar walk; option lists and inline headers are passed on as the element they come from.
- BuildUniversals is represented by its effect on the ledger, one entry per universal loaded.
- Evaluation of dynamic source expressions and the fetch of dynamic grammars are replies given to the enable step; sequence numbers do not wrap.
- The reading of the grammar's scope and names from its position in the document: entries carry them.
- Confidence scores are real numbers, and setting a result variable either works or fails per instance; the rest of the recognition result (XML structure, malformed nodes) is one case of the interpretation.
- Byte order in the serializer is fixed, streams of more than 2^35 bytes and sizes of 2^32 and more are out, and characters outside the Unicode range read as the replacement character.
- Storing a document that is still being built; a root that is text is covered only by the error it gives.
- The mutexes are taken as given: each method of `RefCounts.DocumentModel` is one critical section.
- End of file on the channel, where the reading loop does not end; failures other than interruptions end a transfer without a claim about what was moved.
- Characters are bytes on the wire; conversion from and to wide strings is not modelled.
- Document storage, the XML parser set-up, prompt playing, telephony, ECMAScript evaluation, logging and memory exhaustion.
