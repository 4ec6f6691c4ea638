# LicensesDialog notices reader, modelled in Dafny

LicensesDialog reads a `notices.xml` document of the form
`<notices><notice><name/><url/><copyright/><license/></notice>...</notices>` into a
list of notices. `de.psdev.licensesdialog.NoticesXmlParser` does the reading on a
pull parser:

- `parse(InputStream)` moves the parser to the first tag, hands over to
  `parse(XmlPullParser)` and closes the stream in a `finally` block.
- `parse(XmlPullParser)` requires `<notices>`, then loops until the first end tag and
  reads one notice per `<notice>` start tag.
- `readNotice` requires `<notice>`, then loops until the first end tag and overwrites
  its four locals from `<name>`, `<url>`, `<copyright>` and `<license>`.
- `readTag` / `readText` read the text of one such element. `readLicense` hands that
  text to `LicenseResolver.read`.
- `skip` has an empty body.

The project has four modules.

- `XmlPull` (`xml_pull.dfy`) holds the pull-parser cursor the reader calls.
  - The document is a sequence of events (`StartTag`, `EndTag`, `Text`) and a cursor
    `pos` that counts the events consumed.
  - `next()`, `nextTag()`, `require()`, `getName()`, `getText()` and
    `isWhitespace()` are the methods of the class `PullParser`.
  - Every exception is an `XmlError` value that names the check that gave up.
- `JavaIo`, in the same file, holds the `InputStream`, reduced to its events and a
  `closed` flag.
- `NoticesModel` (`notices_model.dfy`) holds a functional specification of each reader
  method. Each function takes the events and the cursor, and returns the value read
  and the new cursor, or the failure.
- `NoticesXmlParser` (`notices_xml_parser.dfy`) holds the reader's methods, written
  imperatively over the shared cursor. Each is proved to compute exactly what its
  `NoticesModel` function says.
- `NoticesProperties` (`notices_properties.dfy`) states what the reader does on whole
  documents.
  - A document written out from a list of notice entries reads back as one notice per
    `<notice>`. Each field of a notice is the last occurrence of that field, or
    absent.
  - Each loop stops at the first end tag it meets, and nothing after `</notices>` is read.
  - Unknown elements are not skipped.
  - `readNotice`'s and `readTag`'s opening `require` never fails.

`LicenseResolver.read` is a parameter `resolve: string -> L`, and the license type
`L` is generic.

### Where the code departs from the usual idiom (the model follows the code)

- **`skip` does nothing.** A conventional skip consumes the whole subtree of an unknown
  element. This one has an empty body, so the children of an unknown element are read
  by the enclosing loop, and the unknown element's own end tag ends that loop:
  - `UnknownEntry`: a `<notice>` nested in an unknown element among the notices is
    collected, and the unknown element's end tag ends the document.
  - `UnknownChild`: fields nested in an unknown child of `<notice>` are taken as the
    notice's own, and the unknown child's end tag ends the notice.
- **Absent fields stay null, not `""`.** The four locals of `readNotice` start as
  `null`, and an absent element leaves its local as it is. The model uses `None`, and
  `OneNoticeExample` shows a notice whose url and copyright are `None`.
- **Nested markup in a field element fails at the closing `require`, rather than
  giving an empty value.** `readText` returns `""` but leaves the cursor on the nested
  start tag, so the closing `require(END_TAG, ...)` of `readTag` fails
  (`ReadTagAtCases`).
- **The loops stop at the first end tag, whatever its name.** With `skip` empty, the end
  tag of an unknown child inside `<notice>` ends the notice (`UnknownChild`), and this
  happens in well-formed XML too. Events after the closing `</notices>` are never
  read (`TrailingEventsIgnored`).

## Model

All source paths are under `library/src/main/java/de/psdev/licensesdialog/`; the table writes them out in full.

| member | source | states |
|---|---|---|
| XmlPull.NextTagAt | library/src/main/java/de/psdev/licensesdialog/NoticesXmlParser.java:154 | nextTag() advances once, and once more over a whitespace-only text event. It succeeds on a start or end tag and gives that event. On non-whitespace text, or on a second text after a whitespace one, it fails with NotATag. Running out of events, with or without a whitespace text first, fails with EndOfInput. |
| XmlPull.TypeOf | library/src/main/java/de/psdev/licensesdialog/NoticesXmlParser.java:57-59 | The event type that next() and getEventType() report is START_TAG exactly for a start tag, END_TAG exactly for an end tag and TEXT exactly for text. |
| XmlPull.PullParser.Name | library/src/main/java/de/psdev/licensesdialog/NoticesXmlParser.java:91 | getName() on the current start or end tag gives that tag's name. It is the same call as at line 63. |
| XmlPull.PullParser.GetText | library/src/main/java/de/psdev/licensesdialog/NoticesXmlParser.java:153 | getText() on the current text event gives its text verbatim. |
| XmlPull.PullParser.IsWhitespace | library/src/main/java/de/psdev/licensesdialog/NoticesXmlParser.java:154 | isWhitespace(), which nextTag() consults, holds exactly when every character of the current text is XML white space. |
| XmlPull.PullParser.constructor | library/src/main/java/de/psdev/licensesdialog/NoticesXmlParser.java:41-43 | A new parser set on the stream's events has consumed nothing. |
| XmlPull.PullParser.Next | library/src/main/java/de/psdev/licensesdialog/NoticesXmlParser.java:57 | next() consumes one event and reports its type. At the end of the events it fails and leaves the cursor where it was. |
| XmlPull.PullParser.NextTag | library/src/main/java/de/psdev/licensesdialog/NoticesXmlParser.java:44 | The cursor method returns and moves exactly as NextTagAt says. |
| XmlPull.PullParser.Require | library/src/main/java/de/psdev/licensesdialog/NoticesXmlParser.java:142 | require() succeeds exactly when the current event is the wanted tag, and otherwise reports a Mismatch at the cursor. It never moves the cursor. |
| JavaIo.InputStream.Close | library/src/main/java/de/psdev/licensesdialog/NoticesXmlParser.java:49 | After close() the stream is closed. |
| NoticesModel.ReadTextAt | library/src/main/java/de/psdev/licensesdialog/NoticesXmlParser.java:148-157 | readText gives the text of a text event verbatim and then stops on a tag. After any other event it never fails: it gives "" having consumed that one event. With no event left it fails with EndOfInput. |
| NoticesModel.ReadTagAt | library/src/main/java/de/psdev/licensesdialog/NoticesXmlParser.java:139-146 | readTag succeeds only if it starts on <tag> and stops on </tag>. The text is "" for <tag></tag> and the verbatim text otherwise (a whitespace text before </tag> is passed over). If the current event is not <tag>, it fails with a Mismatch for <tag>. |
| NoticesModel.ReadTagAtCases | library/src/main/java/de/psdev/licensesdialog/NoticesXmlParser.java:139-146 | <tag></tag> gives "", and <tag>text</tag> gives the text. Nested markup fails at the closing require. The only failures after the opening tag are end of input, a non-tag after text, and a Mismatch for </tag>. |
| NoticesModel.SetField | library/src/main/java/de/psdev/licensesdialog/NoticesXmlParser.java:92-107 | A recognised element overwrites exactly its own local, the license with LicenseResolver.read of the text (line 136). The other three locals keep their values. |
| NoticesModel.NoticeLoop | library/src/main/java/de/psdev/licensesdialog/NoticesXmlParser.java:85-112 | readNotice's loop, when it succeeds, stops just after an end tag that it reached. |
| NoticesModel.NoticeLoopOut | library/src/main/java/de/psdev/licensesdialog/NoticesXmlParser.java:85 | If the events run out inside <notice>, reading fails with EndOfInput. |
| NoticesModel.NoticeLoopEndTag | library/src/main/java/de/psdev/licensesdialog/NoticesXmlParser.java:85 | Any end tag ends readNotice's loop with the four fields as they are. |
| NoticesModel.NoticeLoopPass | library/src/main/java/de/psdev/licensesdialog/NoticesXmlParser.java:87-111 | Text and unknown start tags are passed over one event at a time, and the fields are unchanged. |
| NoticesModel.NoticeLoopChild | library/src/main/java/de/psdev/licensesdialog/NoticesXmlParser.java:91-107 | For a recognised child, a readTag failure ends the notice with that failure. Otherwise the child's text overwrites its field (the license through the resolver) and the loop goes on after the child's end tag. |
| NoticesModel.ReadNoticeAt | library/src/main/java/de/psdev/licensesdialog/NoticesXmlParser.java:77-114 | readNotice succeeds only from <notice>, and fails with a Mismatch for <notice> otherwise. It starts with all four fields null, so an empty <notice></notice> gives a notice whose four fields are null. |
| NoticesModel.RootLoop | library/src/main/java/de/psdev/licensesdialog/NoticesXmlParser.java:57-73 | The notices loop, when it succeeds, stops just after an end tag that it reached. |
| NoticesModel.RootLoopEndTag | library/src/main/java/de/psdev/licensesdialog/NoticesXmlParser.java:57 | Any end tag ends the notices loop with no further notices. |
| NoticesModel.ParseDocumentAt | library/src/main/java/de/psdev/licensesdialog/NoticesXmlParser.java:53-75 | parse(XmlPullParser) succeeds only from <notices>, and fails with a Mismatch for <notices> otherwise. |
| NoticesModel.ParseEvents | library/src/main/java/de/psdev/licensesdialog/NoticesXmlParser.java:37-51 | A successful parse starts with nextTag() reaching <notices>. If the first tag is some other tag, the parse fails with a Mismatch for <notices> there. |
| NoticesXmlParser.Parse | library/src/main/java/de/psdev/licensesdialog/NoticesXmlParser.java:37-51 | For a stream that is open on entry, parse(InputStream) returns exactly ParseEvents of the stream's events. The stream is closed on every path, success or failure. |
| NoticesXmlParser.ParseDocument | library/src/main/java/de/psdev/licensesdialog/NoticesXmlParser.java:53-75 | The loop that appends each notice read returns, and leaves the cursor, exactly as ParseDocumentAt says. |
| NoticesXmlParser.ReadNotice | library/src/main/java/de/psdev/licensesdialog/NoticesXmlParser.java:77-114 | The loop that overwrites the four locals returns, and leaves the cursor, exactly as ReadNoticeAt says. |
| NoticesXmlParser.ReadField | library/src/main/java/de/psdev/licensesdialog/NoticesXmlParser.java:92-107 | Each recognised element's branch overwrites only its own local, with readTag's text (the license resolved). It fails as readTag fails. |
| NoticesXmlParser.ReadName | library/src/main/java/de/psdev/licensesdialog/NoticesXmlParser.java:116-119 | readName is readTag for "name". |
| NoticesXmlParser.ReadUrl | library/src/main/java/de/psdev/licensesdialog/NoticesXmlParser.java:121-124 | readUrl is readTag for "url". |
| NoticesXmlParser.ReadCopyright | library/src/main/java/de/psdev/licensesdialog/NoticesXmlParser.java:126-130 | readCopyright is readTag for "copyright". |
| NoticesXmlParser.ReadLicense | library/src/main/java/de/psdev/licensesdialog/NoticesXmlParser.java:132-137 | readLicense resolves readTag's text for "license" and fails as readTag fails. |
| NoticesXmlParser.ReadTag | library/src/main/java/de/psdev/licensesdialog/NoticesXmlParser.java:139-146 | The method's result and cursor are exactly ReadTagAt's. |
| NoticesXmlParser.ReadText | library/src/main/java/de/psdev/licensesdialog/NoticesXmlParser.java:148-157 | The method's result and cursor are exactly ReadTextAt's. |
| NoticesXmlParser.Skip | library/src/main/java/de/psdev/licensesdialog/NoticesXmlParser.java:159-161 | skip changes nothing about the parser. |
| NoticesProperties.LastContentIsLast | library/src/main/java/de/psdev/licensesdialog/NoticesXmlParser.java:92-103 | The value kept for a field is the content of its last occurrence among the children. "No value" means the field does not occur at all. |
| NoticesProperties.OverrideAppend | library/src/main/java/de/psdev/licensesdialog/NoticesXmlParser.java:92-107 | Overwriting fields from two runs of children in turn is the same as overwriting from the whole run. |
| NoticesProperties.OverrideLast | library/src/main/java/de/psdev/licensesdialog/NoticesXmlParser.java:92-107 | The fields after a run of children are the fields after all but the last child, with the last child applied. |
| NoticesProperties.ChildRead | library/src/main/java/de/psdev/licensesdialog/NoticesXmlParser.java:87-107 | One written-out child moves readNotice's loop past its events and applies its value. |
| NoticesProperties.ChildrenRead | library/src/main/java/de/psdev/licensesdialog/NoticesXmlParser.java:85-112 | readNotice's loop over written-out children gives each field its last occurrence, the license through the resolver. Text is passed over. |
| NoticesProperties.EntryRead | library/src/main/java/de/psdev/licensesdialog/NoticesXmlParser.java:57-68 | A written-out <notice> entry adds exactly the notice its children describe. A text entry adds nothing. |
| NoticesProperties.EntriesRead | library/src/main/java/de/psdev/licensesdialog/NoticesXmlParser.java:55-73 | The notices loop over written-out entries adds one notice per <notice> entry, in document order. |
| NoticesProperties.ParseFromRoot | library/src/main/java/de/psdev/licensesdialog/NoticesXmlParser.java:44-56 | A stream that opens with <notices> parses as the notices loop from just after it. |
| NoticesProperties.RootPassesUnknown | library/src/main/java/de/psdev/licensesdialog/NoticesXmlParser.java:69-72 | An unknown start tag among the notices is passed over by one event. |
| NoticesProperties.RootReadsNotice | library/src/main/java/de/psdev/licensesdialog/NoticesXmlParser.java:65-68 | A <notice> that reads successfully is prepended to what the notices loop reads after it. |
| NoticesProperties.DocumentRead | library/src/main/java/de/psdev/licensesdialog/NoticesXmlParser.java:37-114 | Any document written out from notice entries, followed by any events, parses to one notice per <notice>, in order. Each field is its last occurrence, "" for an empty element, and null when absent. |
| NoticesProperties.UnknownEntry | library/src/main/java/de/psdev/licensesdialog/NoticesXmlParser.java:69-72 | Among the notices, an unknown element's children are read as if they stood among the notices, and its end tag ends the document. |
| NoticesProperties.UnknownChild | library/src/main/java/de/psdev/licensesdialog/NoticesXmlParser.java:108-111 | Inside <notice>, an unknown child's fields are taken as the notice's own, its end tag ends the notice, and reading resumes among the notices. |
| NoticesProperties.RootStopsAtFirstEndTag | library/src/main/java/de/psdev/licensesdialog/NoticesXmlParser.java:57 | The notices loop stops at the first end tag, whatever its name. |
| NoticesProperties.NoticeStopsAtFirstEndTag | library/src/main/java/de/psdev/licensesdialog/NoticesXmlParser.java:85 | readNotice's loop stops at the first end tag, whatever its name, with the fields unchanged. |
| NoticesProperties.ReadTagSamePrefix | library/src/main/java/de/psdev/licensesdialog/NoticesXmlParser.java:139-146 | readTag depends only on the events it consumed. |
| NoticesProperties.NoticeLoopSamePrefix | library/src/main/java/de/psdev/licensesdialog/NoticesXmlParser.java:85-112 | readNotice's loop depends only on the events it consumed. |
| NoticesProperties.RootLoopSamePrefix | library/src/main/java/de/psdev/licensesdialog/NoticesXmlParser.java:57-73 | The notices loop depends only on the events it consumed. |
| NoticesProperties.TrailingEventsIgnored | library/src/main/java/de/psdev/licensesdialog/NoticesXmlParser.java:37-75 | A stream that parses successfully parses to the same notices with any events appended. |
| NoticesProperties.NoticeLoopOpensCleanly | library/src/main/java/de/psdev/licensesdialog/NoticesXmlParser.java:142 | readNotice's loop never fails at readTag's opening require. |
| NoticesProperties.RootLoopOpensCleanly | library/src/main/java/de/psdev/licensesdialog/NoticesXmlParser.java:80 | The notices loop never fails at readNotice's or readTag's opening require. |
| NoticesProperties.OpeningRequiresNeverFail | library/src/main/java/de/psdev/licensesdialog/NoticesXmlParser.java:80 | Whatever the events, a failed parse never fails at readNotice's or readTag's opening require. Their callers have already dispatched on that tag. |
| NoticesProperties.OneNoticeExample | library/src/main/java/de/psdev/licensesdialog/NoticesXmlParser.java:37-114 | <notices><notice><name>Lib</name><license>apache2</license></notice></notices> gives one notice: name "Lib", url and copyright null, and the resolved "apache2" license. |
| NoticesProperties.MismatchedEndTagExample | library/src/main/java/de/psdev/licensesdialog/NoticesXmlParser.java:57-114 | The events of <notices><notice></x></notices> parse to one notice with all four fields null: the end tag </x> ends the notice whatever its name. |
| NoticesProperties.EarlyEndExample | library/src/main/java/de/psdev/licensesdialog/NoticesXmlParser.java:57-114 | <notices><notice><foo></foo><name>x</name></notice></notices> parses to one notice with all four fields null: </foo> ends the notice, <name> and its text are passed over among the notices, and </name> ends the document. |

## Left out

- The character-level XML tokeniser is not modelled. `Xml.newPullParser()`, `setInput` with its encoding detection, and the `FEATURE_PROCESS_NAMESPACES` setting are outside the model. Its output, the sequence of start-tag, end-tag and text events, is the model's input. Comments, processing instructions, entity expansion and attributes are therefore not represented.
- `XmlPull.NextTagAt` passes over exactly one whitespace-only text event before a tag. This is how the pull parser behaves on its own event stream, where adjacent character data is one event.
- `LicenseResolver.read` and the `License` classes are not part of this model. The resolver is the parameter `resolve`, and the license type is generic. Loading license text from resources is I/O.
- The `Notices` and `Notice` classes are not part of this model. `Notices` is a sequence that the reader appends to. `Notice` is a record of four optional fields.
- `XmlPullParserException` and `IOException` are collapsed into one failure value, `XmlError`. It records which check failed, not the exception's class or message. I/O errors in the middle of the stream are not modelled. The stream's events are fixed when it is opened.
- `JavaIo.InputStream.Close` is modelled only as setting `closed`. An `IOException` from `close()` itself is not modelled.
- Reading a stream that is already closed is not modelled. `NoticesXmlParser.Parse` requires a stream that is open on entry, as every caller opens it just before. After its own `close()` the reader reads nothing more.
- The tokeniser's well-formedness checks are not modelled. The model reads any event sequence, including one with an end tag that does not close the open element. On such a sequence the model may return notices where the Java pull parser throws an `XmlPullParserException`: for `<notices><notice></x></notices>` the model returns one notice with no fields (`MismatchedEndTagExample`). `NoticesProperties.RootStopsAtFirstEndTag` and `NoticesProperties.NoticeStopsAtFirstEndTag` state what the loops do on any event sequence. In well-formed XML an unknown child can still end a notice early. The notices loop then reads the notice's remaining children as its own and stops at the first of their end tags (`EarlyEndExample`).
