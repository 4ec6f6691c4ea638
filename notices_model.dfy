/** The notices reader (NoticesXmlParser) as functions over the event sequence: each
    function takes the number of events consumed so far and returns what its Java
    counterpart returns together with the number consumed when it returns. The
    methods in module NoticesXmlParser are proved to compute exactly these. */
module NoticesModel {
  import opened XmlPull

  datatype Option<T> = None | Some(value: T)

  /** A notice as the reader builds it. `None` is Java's null: the field's element
      never appeared. `L` is the license type that LicenseResolver.read produces. */
  datatype Notice<L> = Notice(name: Option<string>, url: Option<string>,
                              copyright: Option<string>, license: Option<L>)

  function NoFields<L>(): Notice<L>
  {
    Notice(None, None, None, None)
  }

  /** The child elements readNotice recognises. */
  predicate IsFieldTag(element: string)
  {
    element == "name" || element == "url" || element == "copyright" || element == "license"
  }

  /** A method result `r`, with the cursor left at `pos`, is what the step `s` says. */
  ghost predicate Tracks<T>(s: Step<T>, r: Result<T>, pos: nat)
  {
    match s
    case Done(v, e) => r == Ok(v) && pos == e
    case Fail(err) => r == Err(err)
  }

  function Prepend<T>(xs: seq<T>, s: Step<seq<T>>): Step<seq<T>>
  {
    match s
    case Done(v, e) => Done(xs + v, e)
    case Fail(err) => Fail(err)
  }

  lemma PrependNothing<T>(s: Step<seq<T>>)
    ensures Prepend([], s) == s
  {
    if s.Done? {
      assert [] + s.value == s.value;
    }
  }

  lemma PrependDone<T>(xs: seq<T>, e: nat)
    ensures Prepend(xs, Done([], e)) == Done(xs, e)
  {
    assert xs + [] == xs;
  }

  lemma PrependTwice<T>(xs: seq<T>, ys: seq<T>, s: Step<seq<T>>)
    ensures Prepend(xs, Prepend(ys, s)) == Prepend(xs + ys, s)
  {
    if s.Done? {
      assert xs + (ys + s.value) == (xs + ys) + s.value;
    }
  }

  /** readText: the text of the next event if it is character data (then move on to
      the next tag), otherwise the empty string. */
  function ReadTextAt(toks: seq<Token>, pos: nat): (r: Step<string>)
    ensures r.Done? ==> pos < r.end <= |toks|
    ensures r.Done? && !toks[pos].Text? ==> r.value == "" && r.end == pos + 1
    ensures r.Done? && toks[pos].Text? ==> r.value == toks[pos].text && r.end > pos + 1 && !toks[r.end - 1].Text?
    ensures pos >= |toks| ==> r == Fail(EndOfInput)
    ensures pos < |toks| && !toks[pos].Text? ==> r == Done("", pos + 1)
    ensures pos + 1 < |toks| && toks[pos].Text? && !toks[pos + 1].Text? ==> r == Done(toks[pos].text, pos + 2)
  {
    if pos >= |toks| then Fail(EndOfInput)
    else if toks[pos].Text? then
      var t := NextTagAt(toks, pos + 1);
      if t.Fail? then Fail(t.error) else Done(toks[pos].text, t.end)
    else Done("", pos + 1)
  }

  /** readTag: with the cursor on <tag>, the element's text, verbatim, and the cursor
      left on </tag>. Only <tag></tag> and <tag>text</tag> are accepted (a whitespace
      text event between the text and the end tag is passed over by nextTag); nested
      markup fails at the closing require. */
  function ReadTagAt(toks: seq<Token>, pos: nat, tag: string): (r: Step<string>)
    ensures r.Done? ==> CurrentIs(toks, pos, StartTag(tag)) && pos < r.end <= |toks|
    ensures r.Done? ==> toks[r.end - 1] == EndTag(tag)
    ensures r.Done? ==> (r.value == "" && r.end == pos + 1) ||
                        (toks[pos] == Text(r.value) &&
                         (r.end == pos + 2 || (r.end == pos + 3 && IsWhitespaceText(toks[pos + 1]))))
    ensures !CurrentIs(toks, pos, StartTag(tag)) ==> r == Fail(Mismatch(pos, StartTag(tag)))
  {
    if !CurrentIs(toks, pos, StartTag(tag)) then Fail(Mismatch(pos, StartTag(tag)))
    else
      var t := ReadTextAt(toks, pos);
      if t.Fail? then t
      else if CurrentIs(toks, t.end, EndTag(tag)) then t
      else Fail(Mismatch(t.end, EndTag(tag)))
  }

  /** readTag on the three shapes it meets after <tag>: an empty element, a text
      followed by the end tag, and nested markup; and the only failures it reports. */
  lemma ReadTagAtCases(toks: seq<Token>, pos: nat, tag: string)
    requires CurrentIs(toks, pos, StartTag(tag))
    ensures pos < |toks| && toks[pos] == EndTag(tag) ==> ReadTagAt(toks, pos, tag) == Done("", pos + 1)
    ensures pos + 1 < |toks| && toks[pos].Text? && toks[pos + 1] == EndTag(tag) ==>
              ReadTagAt(toks, pos, tag) == Done(toks[pos].text, pos + 2)
    ensures pos < |toks| && toks[pos].StartTag? ==> ReadTagAt(toks, pos, tag) == Fail(Mismatch(pos + 1, EndTag(tag)))
    ensures ReadTagAt(toks, pos, tag).Fail? ==>
              ReadTagAt(toks, pos, tag).error == EndOfInput || ReadTagAt(toks, pos, tag).error.NotATag? ||
              ReadTagAt(toks, pos, tag).error == Mismatch(ReadTagAt(toks, pos, tag).error.at, EndTag(tag))
  {
  }

  /** The assignment readNotice makes for a recognised child element; readLicense
      hands the text to LicenseResolver.read, here `resolve`. */
  function SetField<L>(acc: Notice<L>, element: string, text: string, resolve: string -> L): (r: Notice<L>)
    ensures element == "name" ==> r.name == Some(text)
    ensures element == "url" ==> r.url == Some(text)
    ensures element == "copyright" ==> r.copyright == Some(text)
    ensures element == "license" ==> r.license == Some(resolve(text))
    ensures element != "name" ==> r.name == acc.name
    ensures element != "url" ==> r.url == acc.url
    ensures element != "copyright" ==> r.copyright == acc.copyright
    ensures IsFieldTag(element) && element != "license" ==> r.license == acc.license
  {
    if element == "name" then acc.(name := Some(text))
    else if element == "url" then acc.(url := Some(text))
    else if element == "copyright" then acc.(copyright := Some(text))
    else acc.(license := Some(resolve(text)))
  }

  /** The loop of readNotice: `acc` holds the four locals. It stops at the first end
      tag, whatever its name; text events are passed over; an unknown start tag is
      "skipped" without moving the cursor, so its children are met by this loop. */
  function NoticeLoop<L>(toks: seq<Token>, pos: nat, resolve: string -> L, acc: Notice<L>): (r: Step<Notice<L>>)
    ensures r.Done? ==> pos < r.end <= |toks| && toks[r.end - 1].EndTag?
    decreases |toks| - pos
  {
    if pos >= |toks| then Fail(EndOfInput)
    else match toks[pos]
      case EndTag(_) => Done(acc, pos + 1)
      case Text(_) => NoticeLoop(toks, pos + 1, resolve, acc)
      case StartTag(element) =>
        if IsFieldTag(element) then
          var t := ReadTagAt(toks, pos + 1, element);
          if t.Fail? then Fail(t.error)
          else NoticeLoop(toks, t.end, resolve, SetField(acc, element, t.value, resolve))
        else NoticeLoop(toks, pos + 1, resolve, acc)
  }

  /** The events ran out before the end tag. */
  lemma NoticeLoopOut<L>(toks: seq<Token>, pos: nat, resolve: string -> L, acc: Notice<L>)
    requires pos >= |toks|
    ensures NoticeLoop(toks, pos, resolve, acc) == Fail(EndOfInput)
  {
  }

  /** The first end tag ends the loop with the fields as they are. */
  lemma NoticeLoopEndTag<L>(toks: seq<Token>, pos: nat, resolve: string -> L, acc: Notice<L>)
    requires pos < |toks| && toks[pos].EndTag?
    ensures NoticeLoop(toks, pos, resolve, acc) == Done(acc, pos + 1)
  {
  }

  /** Character data and unknown start tags are passed over one event at a time. */
  lemma NoticeLoopPass<L>(toks: seq<Token>, pos: nat, resolve: string -> L, acc: Notice<L>)
    requires pos < |toks| && (toks[pos].Text? || (toks[pos].StartTag? && !IsFieldTag(toks[pos].name)))
    ensures NoticeLoop(toks, pos, resolve, acc) == NoticeLoop(toks, pos + 1, resolve, acc)
  {
  }

  /** A recognised child element is read by readTag: its failure ends the loop, its
      text sets the field and the loop goes on after the element's end tag. */
  lemma NoticeLoopChild<L>(toks: seq<Token>, pos: nat, resolve: string -> L, acc: Notice<L>, element: string)
    requires pos < |toks| && toks[pos] == StartTag(element) && IsFieldTag(element)
    ensures var t := ReadTagAt(toks, pos + 1, element);
            NoticeLoop(toks, pos, resolve, acc) ==
              if t.Fail? then Fail(t.error)
              else NoticeLoop(toks, t.end, resolve, SetField(acc, element, t.value, resolve))
  {
  }

  /** readNotice: with the cursor on <notice>, the notice read up to the first end tag. */
  function ReadNoticeAt<L>(toks: seq<Token>, pos: nat, resolve: string -> L): (r: Step<Notice<L>>)
    ensures r.Done? ==> CurrentIs(toks, pos, StartTag("notice")) && pos < r.end <= |toks|
    ensures !CurrentIs(toks, pos, StartTag("notice")) ==> r == Fail(Mismatch(pos, StartTag("notice")))
    ensures CurrentIs(toks, pos, StartTag("notice")) && pos < |toks| && toks[pos].EndTag? ==> r == Done(NoFields(), pos + 1)
  {
    if !CurrentIs(toks, pos, StartTag("notice")) then Fail(Mismatch(pos, StartTag("notice")))
    else NoticeLoop(toks, pos, resolve, NoFields())
  }

  /** The loop of parse(XmlPullParser): one notice for each <notice> start tag met,
      in order, up to the first end tag. */
  function RootLoop<L>(toks: seq<Token>, pos: nat, resolve: string -> L): (r: Step<seq<Notice<L>>>)
    ensures r.Done? ==> pos < r.end <= |toks| && toks[r.end - 1].EndTag?
    decreases |toks| - pos
  {
    if pos >= |toks| then Fail(EndOfInput)
    else match toks[pos]
      case EndTag(_) => Done([], pos + 1)
      case Text(_) => RootLoop(toks, pos + 1, resolve)
      case StartTag(element) =>
        if element == "notice" then
          var t := ReadNoticeAt(toks, pos + 1, resolve);
          if t.Fail? then Fail(t.error)
          else Prepend([t.value], RootLoop(toks, t.end, resolve))
        else RootLoop(toks, pos + 1, resolve)
  }

  /** The first end tag among the notices ends the root loop with no more notices. */
  lemma RootLoopEndTag<L>(toks: seq<Token>, pos: nat, resolve: string -> L)
    requires pos < |toks| && toks[pos].EndTag?
    ensures RootLoop(toks, pos, resolve) == Done([], pos + 1)
  {
  }

  /** parse(XmlPullParser): the current event must be <notices>. */
  function ParseDocumentAt<L>(toks: seq<Token>, pos: nat, resolve: string -> L): (r: Step<seq<Notice<L>>>)
    ensures r.Done? ==> CurrentIs(toks, pos, StartTag("notices")) && pos < r.end <= |toks|
    ensures !CurrentIs(toks, pos, StartTag("notices")) ==> r == Fail(Mismatch(pos, StartTag("notices")))
  {
    if !CurrentIs(toks, pos, StartTag("notices")) then Fail(Mismatch(pos, StartTag("notices")))
    else RootLoop(toks, pos, resolve)
  }

  /** parse(InputStream), apart from the stream: nextTag() from the start of the
      document, then parse(XmlPullParser). It succeeds only when the first tag reached
      is <notices>. */
  function ParseEvents<L>(toks: seq<Token>, resolve: string -> L): (r: Result<seq<Notice<L>>>)
    ensures r.Ok? ==> NextTagAt(toks, 0).Done? && NextTagAt(toks, 0).value == StartTag("notices")
    ensures NextTagAt(toks, 0).Done? && NextTagAt(toks, 0).value != StartTag("notices") ==>
              r == Err(Mismatch(NextTagAt(toks, 0).end, StartTag("notices")))
  {
    var t := NextTagAt(toks, 0);
    if t.Fail? then Err(t.error)
    else match ParseDocumentAt(toks, t.end, resolve)
      case Done(ns, _) => Ok(ns)
      case Fail(err) => Err(err)
  }
}
