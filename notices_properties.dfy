/** What the notices reader does, stated against an independent description of the
    notices file format: a document is a list of entries, a <notice> entry a list of
    children, and RenderDocument writes such a document out as pull-parser events. */
module NoticesProperties {
  import opened XmlPull
  import opened NoticesModel

  /** A child of <notice>: a field element <tag>content</tag>, or character data. */
  datatype Child = Field(tag: string, content: string) | ChildText(text: string)

  /** A child of <notices>: a <notice> element, or character data. */
  datatype Entry = NoticeElement(children: seq<Child>) | EntryText(text: string)

  predicate FieldsKnown(children: seq<Child>)
  {
    forall i :: 0 <= i < |children| && children[i].Field? ==> IsFieldTag(children[i].tag)
  }

  predicate EntriesKnown(entries: seq<Entry>)
  {
    forall i :: 0 <= i < |entries| && entries[i].NoticeElement? ==> FieldsKnown(entries[i].children)
  }

  /** An empty element is written <tag></tag>: a tokeniser reports no empty text event. */
  function RenderChild(c: Child): seq<Token>
  {
    match c
    case Field(tag, content) =>
      [StartTag(tag)] + (if content == "" then [] else [Text(content)]) + [EndTag(tag)]
    case ChildText(text) => [Text(text)]
  }

  function RenderChildren(children: seq<Child>): seq<Token>
  {
    if children == [] then []
    else RenderChildren(children[..|children| - 1]) + RenderChild(children[|children| - 1])
  }

  function RenderEntry(e: Entry): seq<Token>
  {
    match e
    case NoticeElement(children) => [StartTag("notice")] + RenderChildren(children) + [EndTag("notice")]
    case EntryText(text) => [Text(text)]
  }

  function RenderEntries(entries: seq<Entry>): seq<Token>
  {
    if entries == [] then []
    else RenderEntries(entries[..|entries| - 1]) + RenderEntry(entries[|entries| - 1])
  }

  function RenderDocument(entries: seq<Entry>): seq<Token>
  {
    [StartTag("notices")] + RenderEntries(entries) + [EndTag("notices")]
  }

  /** The content of the last `tag` field among `children`, if there is one. */
  function LastContent(children: seq<Child>, tag: string): Option<string>
  {
    if children == [] then None
    else
      var last := children[|children| - 1];
      if last.Field? && last.tag == tag then Some(last.content)
      else LastContent(children[..|children| - 1], tag)
  }

  /** LastContent finds the last `tag` field, and None means there is none. */
  lemma {:induction false} LastContentIsLast(children: seq<Child>, tag: string)
    ensures LastContent(children, tag).Some? ==>
              exists i :: 0 <= i < |children| && children[i] == Field(tag, LastContent(children, tag).value) &&
                forall j :: i < j < |children| ==> !(children[j].Field? && children[j].tag == tag)
    ensures LastContent(children, tag).None? ==>
              forall i :: 0 <= i < |children| ==> !(children[i].Field? && children[i].tag == tag)
    decreases |children|
  {
    if children != [] {
      var init := children[..|children| - 1];
      LastContentIsLast(init, tag);
      if !(children[|children| - 1].Field? && children[|children| - 1].tag == tag) {
        assert forall i :: 0 <= i < |init| ==> init[i] == children[i];
      }
    }
  }

  function Or<T>(first: Option<T>, otherwise: Option<T>): Option<T>
  {
    if first.Some? then first else otherwise
  }

  /** `acc` with every field that occurs among `children` replaced by its last occurrence;
      the license text goes through `resolve`. */
  function Override<L>(acc: Notice<L>, children: seq<Child>, resolve: string -> L): Notice<L>
  {
    Notice(Or(LastContent(children, "name"), acc.name),
           Or(LastContent(children, "url"), acc.url),
           Or(LastContent(children, "copyright"), acc.copyright),
           match LastContent(children, "license")
           case Some(text) => Some(resolve(text))
           case None => acc.license)
  }

  /** The notice a <notice> element describes: absent fields null, the last occurrence
      of a repeated field wins. */
  function ExpectedNotice<L>(children: seq<Child>, resolve: string -> L): Notice<L>
  {
    Override(NoFields(), children, resolve)
  }

  /** The notices an entry contributes: one for a <notice> element, none for text. */
  function NoticesOf<L>(e: Entry, resolve: string -> L): seq<Notice<L>>
  {
    if e.NoticeElement? then [ExpectedNotice(e.children, resolve)] else []
  }

  /** One notice per <notice> entry, in document order. */
  function ExpectedNotices<L>(entries: seq<Entry>, resolve: string -> L): seq<Notice<L>>
  {
    if entries == [] then []
    else ExpectedNotices(entries[..|entries| - 1], resolve) + NoticesOf(entries[|entries| - 1], resolve)
  }

  // ---------------------------------------------------------------------------
  // Helpers about slices.

  lemma LastContentAppend(front: seq<Child>, back: seq<Child>, tag: string)
    ensures LastContent(front + back, tag) == Or(LastContent(back, tag), LastContent(front, tag))
    decreases |back|
  {
    if back != [] {
      assert (front + back)[..|front + back| - 1] == front + back[..|back| - 1];
      LastContentAppend(front, back[..|back| - 1], tag);
    } else {
      assert front + back == front;
    }
  }

  lemma OverrideAppend<L>(acc: Notice<L>, front: seq<Child>, back: seq<Child>, resolve: string -> L)
    ensures Override(Override(acc, front, resolve), back, resolve) == Override(acc, front + back, resolve)
  {
    LastContentAppend(front, back, "name");
    LastContentAppend(front, back, "url");
    LastContentAppend(front, back, "copyright");
    LastContentAppend(front, back, "license");
  }

  // ---------------------------------------------------------------------------
  // The two loops over written-out documents.

  /** A child's value applied to the fields read so far. */
  function Apply<L>(acc: Notice<L>, c: Child, resolve: string -> L): Notice<L>
  {
    if c.Field? then SetField(acc, c.tag, c.content, resolve) else acc
  }

  lemma OverrideLast<L>(acc: Notice<L>, children: seq<Child>, resolve: string -> L)
    requires children != []
    requires children[|children| - 1].Field? ==> IsFieldTag(children[|children| - 1].tag)
    ensures Override(acc, children, resolve)
            == Apply(Override(acc, children[..|children| - 1], resolve), children[|children| - 1], resolve)
  {
  }

  lemma FieldsKnownInit(children: seq<Child>)
    requires children != [] && FieldsKnown(children)
    ensures FieldsKnown(children[..|children| - 1])
    ensures children[|children| - 1].Field? ==> IsFieldTag(children[|children| - 1].tag)
  {
    var init := children[..|children| - 1];
    forall i | 0 <= i < |init| && init[i].Field? ensures IsFieldTag(init[i].tag) {
      assert init[i] == children[i];
    }
  }

  /** The events of child `c` stand at positions q, q + 1, ... of `toks`. */
  predicate ChildAt(toks: seq<Token>, q: nat, c: Child)
  {
    match c
    case Field(tag, content) =>
      if content == "" then q + 2 <= |toks| && toks[q] == StartTag(tag) && toks[q + 1] == EndTag(tag)
      else q + 3 <= |toks| && toks[q] == StartTag(tag) && toks[q + 1] == Text(content) && toks[q + 2] == EndTag(tag)
    case ChildText(text) => q < |toks| && toks[q] == Text(text)
  }

  /** The events of `children` stand in `toks` from position `pos` on. */
  predicate ChildrenAt(toks: seq<Token>, pos: nat, children: seq<Child>)
  {
    if children == [] then pos <= |toks|
    else ChildrenAt(toks, pos, children[..|children| - 1]) &&
         ChildAt(toks, pos + |RenderChildren(children[..|children| - 1])|, children[|children| - 1])
  }

  lemma ChildRead<L>(toks: seq<Token>, q: nat, c: Child, end: nat, resolve: string -> L, acc: Notice<L>)
    requires c.Field? ==> IsFieldTag(c.tag)
    requires ChildAt(toks, q, c) && end == q + |RenderChild(c)|
    ensures NoticeLoop(toks, q, resolve, acc) == NoticeLoop(toks, end, resolve, Apply(acc, c, resolve))
  {
    match c
    case Field(tag, content) =>
      assert ReadTagAt(toks, q + 1, tag) == Done(content, end);
    case ChildText(text) =>
  }

  /** readNotice's loop over the events of `children` assigns each field its last
      occurrence and passes over character data. */
  lemma {:induction false} ChildrenRead<L>(toks: seq<Token>, pos: nat, children: seq<Child>, end: nat,
                                           resolve: string -> L, acc: Notice<L>)
    requires FieldsKnown(children)
    requires ChildrenAt(toks, pos, children) && end == pos + |RenderChildren(children)|
    ensures NoticeLoop(toks, pos, resolve, acc) == NoticeLoop(toks, end, resolve, Override(acc, children, resolve))
    decreases |children|
  {
    if children == [] {
      assert Override(acc, children, resolve) == acc;
    } else {
      var init, c := children[..|children| - 1], children[|children| - 1];
      var mid := Override(acc, init, resolve);
      var q := pos + |RenderChildren(init)|;
      assert |RenderChildren(children)| == |RenderChildren(init)| + |RenderChild(c)|;
      FieldsKnownInit(children);
      ChildrenRead(toks, pos, init, q, resolve, acc);
      ChildRead(toks, q, c, end, resolve, mid);
      assert Apply(mid, c, resolve) == Override(acc, children, resolve) by {
        OverrideLast(acc, children, resolve);
      }
    }
  }

  lemma EntriesKnownInit(entries: seq<Entry>)
    requires entries != [] && EntriesKnown(entries)
    ensures EntriesKnown(entries[..|entries| - 1])
    ensures entries[|entries| - 1].NoticeElement? ==> FieldsKnown(entries[|entries| - 1].children)
  {
    var init := entries[..|entries| - 1];
    forall i | 0 <= i < |init| && init[i].NoticeElement? ensures FieldsKnown(init[i].children) {
      assert init[i] == entries[i];
    }
  }

  /** The events of entry `e` stand at positions q, q + 1, ... of `toks`. */
  predicate EntryAt(toks: seq<Token>, q: nat, e: Entry)
  {
    match e
    case NoticeElement(children) =>
      q + 2 + |RenderChildren(children)| <= |toks| && toks[q] == StartTag("notice") &&
      ChildrenAt(toks, q + 1, children) && toks[q + 1 + |RenderChildren(children)|] == EndTag("notice")
    case EntryText(text) => q < |toks| && toks[q] == Text(text)
  }

  /** The events of `entries` stand in `toks` from position `pos` on. */
  predicate EntriesAt(toks: seq<Token>, pos: nat, entries: seq<Entry>)
  {
    if entries == [] then pos <= |toks|
    else EntriesAt(toks, pos, entries[..|entries| - 1]) &&
         EntryAt(toks, pos + |RenderEntries(entries[..|entries| - 1])|, entries[|entries| - 1])
  }

  lemma {:induction false} ChildrenAtAppend(toks: seq<Token>, pos: nat, children: seq<Child>, more: seq<Token>)
    requires ChildrenAt(toks, pos, children)
    ensures ChildrenAt(toks + more, pos, children)
    decreases |children|
  {
    if children != [] {
      ChildrenAtAppend(toks, pos, children[..|children| - 1], more);
    }
  }

  lemma EntryAtAppend(toks: seq<Token>, q: nat, e: Entry, more: seq<Token>)
    requires EntryAt(toks, q, e)
    ensures EntryAt(toks + more, q, e)
  {
    match e
    case NoticeElement(children) =>
      var close := q + 1 + |RenderChildren(children)|;
      ChildrenAtAppend(toks, q + 1, children, more);
      assert (toks + more)[q] == toks[q] && (toks + more)[close] == toks[close];
    case EntryText(_) =>
      assert (toks + more)[q] == toks[q];
  }

  lemma EntriesAtAppendLast(toks: seq<Token>, pos: nat, entries: seq<Entry>, more: seq<Token>)
    requires entries != [] && EntriesAt(toks, pos, entries)
    requires EntriesAt(toks + more, pos, entries[..|entries| - 1])
    ensures EntriesAt(toks + more, pos, entries)
  {
    var q := pos + |RenderEntries(entries[..|entries| - 1])|;
    EntryAtAppend(toks, q, entries[|entries| - 1], more);
  }

  lemma {:induction false} EntriesAtAppend(toks: seq<Token>, pos: nat, entries: seq<Entry>, more: seq<Token>)
    requires EntriesAt(toks, pos, entries)
    ensures EntriesAt(toks + more, pos, entries)
    decreases |entries|
  {
    if entries != [] {
      EntriesAtAppend(toks, pos, entries[..|entries| - 1], more);
      EntriesAtAppendLast(toks, pos, entries, more);
    }
  }

  lemma ChildAtEnd(p: seq<Token>, c: Child)
    ensures ChildAt(p + RenderChild(c), |p|, c)
  {
    var r := RenderChild(c);
    assert (p + r)[|p|] == r[0];
    if |r| > 1 {
      assert (p + r)[|p| + 1] == r[1];
    }
    if |r| > 2 {
      assert (p + r)[|p| + 2] == r[2];
    }
  }

  /** The events of `children` written out after any prefix stand where they were written. */
  lemma {:induction false} ChildrenAtEnd(p: seq<Token>, children: seq<Child>)
    ensures ChildrenAt(p + RenderChildren(children), |p|, children)
    decreases |children|
  {
    if children != [] {
      var init, c := children[..|children| - 1], children[|children| - 1];
      var q := p + RenderChildren(init);
      assert p + RenderChildren(children) == q + RenderChild(c);
      ChildrenAtEnd(p, init);
      ChildrenAtAppend(q, |p|, init, RenderChild(c));
      ChildAtEnd(q, c);
    }
  }

  lemma EntryAtEnd(p: seq<Token>, e: Entry)
    ensures EntryAt(p + RenderEntry(e), |p|, e)
  {
    match e
    case NoticeElement(children) =>
      var q := p + [StartTag("notice")];
      var inner := RenderChildren(children);
      assert p + RenderEntry(e) == q + inner + [EndTag("notice")];
      ChildrenAtEnd(q, children);
      ChildrenAtAppend(q + inner, |q|, children, [EndTag("notice")]);
    case EntryText(text) =>
      assert (p + RenderEntry(e))[|p|] == Text(text);
  }

  lemma EntriesAtSnoc(toks: seq<Token>, pos: nat, entries: seq<Entry>, q: nat)
    requires entries != [] && q == pos + |RenderEntries(entries[..|entries| - 1])|
    requires EntriesAt(toks, pos, entries[..|entries| - 1])
    requires EntryAt(toks, q, entries[|entries| - 1])
    ensures EntriesAt(toks, pos, entries)
  {
  }

  lemma {:induction false} EntriesAtEnd(p: seq<Token>, entries: seq<Entry>)
    ensures EntriesAt(p + RenderEntries(entries), |p|, entries)
    decreases |entries|
  {
    if entries != [] {
      var init, e := entries[..|entries| - 1], entries[|entries| - 1];
      var q := p + RenderEntries(init);
      var all := p + RenderEntries(entries);
      assert all == q + RenderEntry(e);
      EntriesAtEnd(p, init);
      EntriesAtAppend(q, |p|, init, RenderEntry(e));
      EntryAtEnd(q, e);
      EntriesAtSnoc(all, |p|, entries, |q|);
    }
  }

  /** A stream that opens with <notices> is read by the root loop from there. */
  lemma ParseFromRoot<L>(toks: seq<Token>, ns: seq<Notice<L>>, end: nat, resolve: string -> L)
    requires 0 < |toks| && toks[0] == StartTag("notices")
    requires RootLoop(toks, 1, resolve) == Done(ns, end)
    ensures ParseEvents(toks, resolve) == Ok(ns)
  {
    assert NextTagAt(toks, 0) == Done(StartTag("notices"), 1);
  }

  /** An unknown start tag among the notices is passed over by one event. */
  lemma RootPassesUnknown<L>(toks: seq<Token>, pos: nat, resolve: string -> L)
    requires pos < |toks| && toks[pos].StartTag? && toks[pos].name != "notice"
    ensures RootLoop(toks, pos, resolve) == RootLoop(toks, pos + 1, resolve)
  {
  }

  /** Character data among the notices is passed over by one event. */
  lemma RootPassesText<L>(toks: seq<Token>, pos: nat, resolve: string -> L)
    requires pos < |toks| && toks[pos].Text?
    ensures RootLoop(toks, pos, resolve) == RootLoop(toks, pos + 1, resolve)
  {
  }

  /** A written-out <notice> element reads as the notice its children describe. */
  lemma NoticeRead<L>(toks: seq<Token>, q: nat, children: seq<Child>, close: nat, resolve: string -> L)
    requires FieldsKnown(children) && ChildrenAt(toks, q + 1, children)
    requires close == q + 1 + |RenderChildren(children)| && close < |toks| && toks[close] == EndTag("notice")
    requires toks[q] == StartTag("notice")
    ensures ReadNoticeAt(toks, q + 1, resolve) == Done(ExpectedNotice(children, resolve), close + 1)
  {
    ChildrenRead(toks, q + 1, children, close, resolve, NoFields());
    NoticeLoopEndTag(toks, close, resolve, ExpectedNotice(children, resolve));
  }

  /** One entry: a <notice> element yields one notice, character data none. */
  lemma EntryRead<L>(toks: seq<Token>, q: nat, e: Entry, end: nat, resolve: string -> L)
    requires e.NoticeElement? ==> FieldsKnown(e.children)
    requires EntryAt(toks, q, e) && end == q + |RenderEntry(e)|
    ensures RootLoop(toks, q, resolve) == Prepend(NoticesOf(e, resolve), RootLoop(toks, end, resolve))
  {
    match e
    case NoticeElement(children) =>
      var close := q + 1 + |RenderChildren(children)|;
      NoticeRead(toks, q, children, close, resolve);
      RootReadsNotice(toks, q, ExpectedNotice(children, resolve), end, resolve);
    case EntryText(text) =>
      RootPassesText(toks, q, resolve);
      PrependNothing(RootLoop(toks, end, resolve));
  }

  /** Where the last of `entries` stands, and what the ones before it satisfy. */
  lemma EntriesAtLast(toks: seq<Token>, pos: nat, entries: seq<Entry>, q: nat, end: nat)
    requires entries != [] && EntriesKnown(entries) && EntriesAt(toks, pos, entries)
    requires q == pos + |RenderEntries(entries[..|entries| - 1])| && end == pos + |RenderEntries(entries)|
    ensures EntriesKnown(entries[..|entries| - 1]) && EntriesAt(toks, pos, entries[..|entries| - 1])
    ensures var e := entries[|entries| - 1];
            EntryAt(toks, q, e) && end == q + |RenderEntry(e)| && (e.NoticeElement? ==> FieldsKnown(e.children))
  {
    EntriesKnownInit(entries);
  }

  /** The root loop over the events of `entries` collects one notice per <notice>
      entry, in order, and then carries on with whatever follows. */
  lemma {:induction false} EntriesRead<L>(toks: seq<Token>, pos: nat, entries: seq<Entry>, end: nat,
                                          resolve: string -> L)
    requires EntriesKnown(entries)
    requires EntriesAt(toks, pos, entries) && end == pos + |RenderEntries(entries)|
    ensures RootLoop(toks, pos, resolve) == Prepend(ExpectedNotices(entries, resolve), RootLoop(toks, end, resolve))
    decreases |entries|
  {
    if entries == [] {
      PrependNothing(RootLoop(toks, pos, resolve));
    } else {
      var init, e := entries[..|entries| - 1], entries[|entries| - 1];
      var q := pos + |RenderEntries(init)|;
      var after := RootLoop(toks, end, resolve);
      EntriesAtLast(toks, pos, entries, q, end);
      calc {
        RootLoop(toks, pos, resolve);
        { EntriesRead(toks, pos, init, q, resolve); }
        Prepend(ExpectedNotices(init, resolve), RootLoop(toks, q, resolve));
        { EntryRead(toks, q, e, end, resolve); }
        Prepend(ExpectedNotices(init, resolve), Prepend(NoticesOf(e, resolve), after));
        { PrependTwice(ExpectedNotices(init, resolve), NoticesOf(e, resolve), after); }
        Prepend(ExpectedNotices(init, resolve) + NoticesOf(e, resolve), after);
        Prepend(ExpectedNotices(entries, resolve), after);
      }
    }
  }

  // ---------------------------------------------------------------------------
  // Properties of the reader.

  /** Where the parts of a written-out document stand. */
  lemma DocumentLayout(entries: seq<Entry>, rest: seq<Token>)
    ensures var toks, n := RenderDocument(entries) + rest, |RenderEntries(entries)|;
            1 + n < |toks| && toks[0] == StartTag("notices") && toks[1 + n] == EndTag("notices") &&
            EntriesAt(toks, 1, entries)
  {
    var h1 := [StartTag("notices")] + RenderEntries(entries);
    var h2 := h1 + [EndTag("notices")];
    EntriesAtEnd([StartTag("notices")], entries);
    EntriesAtAppend(h1, 1, entries, [EndTag("notices")]);
    EntriesAtAppend(h2, 1, entries, rest);
  }

  lemma DocumentReadAt<L>(toks: seq<Token>, entries: seq<Entry>, close: nat, resolve: string -> L)
    requires EntriesKnown(entries)
    requires close == 1 + |RenderEntries(entries)| && close < |toks|
    requires toks[0] == StartTag("notices") && toks[close].EndTag? && EntriesAt(toks, 1, entries)
    ensures ParseEvents(toks, resolve) == Ok(ExpectedNotices(entries, resolve))
  {
    var ns := ExpectedNotices(entries, resolve);
    RootLoopEndTag(toks, close, resolve);
    EntriesRead(toks, 1, entries, close, resolve);
    PrependDone(ns, close + 1);
    ParseFromRoot(toks, ns, close + 1, resolve);
  }

  /** A document written out from `entries` reads back as one notice per <notice>
      entry, in document order, each field its last occurrence (verbatim text; "" for
      an empty element; null when absent), whatever events follow </notices>. */
  lemma DocumentRead<L>(entries: seq<Entry>, rest: seq<Token>, resolve: string -> L)
    requires EntriesKnown(entries)
    ensures ParseEvents(RenderDocument(entries) + rest, resolve) == Ok(ExpectedNotices(entries, resolve))
  {
    DocumentLayout(entries, rest);
    DocumentReadAt(RenderDocument(entries) + rest, entries, 1 + |RenderEntries(entries)|, resolve);
  }

  /** The events of an unknown element among the notices, written out. */
  function UnknownEntryEvents(before: seq<Entry>, element: string, inside: seq<Entry>, rest: seq<Token>): seq<Token>
  {
    [StartTag("notices")] + RenderEntries(before) + [StartTag(element)] +
    RenderEntries(inside) + [EndTag(element)] + rest
  }

  lemma UnknownEntryTags(before: seq<Entry>, element: string, inside: seq<Entry>, rest: seq<Token>,
                         p1: nat, p3: nat)
    requires p1 == 1 + |RenderEntries(before)| && p3 == p1 + 1 + |RenderEntries(inside)|
    ensures var toks := UnknownEntryEvents(before, element, inside, rest);
            p3 < |toks| && toks[0] == StartTag("notices") && toks[p1] == StartTag(element) &&
            toks[p3] == EndTag(element)
  {
  }

  lemma UnknownEntryBefore(before: seq<Entry>, element: string, inside: seq<Entry>, rest: seq<Token>)
    ensures EntriesAt(UnknownEntryEvents(before, element, inside, rest), 1, before)
  {
    var h1 := [StartTag("notices")] + RenderEntries(before);
    var h2 := h1 + [StartTag(element)];
    var h3 := h2 + RenderEntries(inside);
    var h4 := h3 + [EndTag(element)];
    EntriesAtEnd([StartTag("notices")], before);
    EntriesAtAppend(h1, 1, before, [StartTag(element)]);
    EntriesAtAppend(h2, 1, before, RenderEntries(inside));
    EntriesAtAppend(h3, 1, before, [EndTag(element)]);
    EntriesAtAppend(h4, 1, before, rest);
  }

  lemma UnknownEntryInside(before: seq<Entry>, element: string, inside: seq<Entry>, rest: seq<Token>, p2: nat)
    requires p2 == 2 + |RenderEntries(before)|
    ensures EntriesAt(UnknownEntryEvents(before, element, inside, rest), p2, inside)
  {
    var h2 := [StartTag("notices")] + RenderEntries(before) + [StartTag(element)];
    var h3 := h2 + RenderEntries(inside);
    var h4 := h3 + [EndTag(element)];
    assert |h2| == p2;
    EntriesAtEnd(h2, inside);
    EntriesAtAppend(h3, |h2|, inside, [EndTag(element)]);
    EntriesAtAppend(h4, |h2|, inside, rest);
  }

  lemma UnknownEntryAt<L>(toks: seq<Token>, p1: nat, p2: nat, p3: nat, ns: seq<Notice<L>>, ms: seq<Notice<L>>,
                          resolve: string -> L)
    requires p2 == p1 + 1 && p2 <= p3 < |toks| && toks[0] == StartTag("notices")
    requires toks[p1].StartTag? && toks[p1].name != "notice" && toks[p3].EndTag?
    requires RootLoop(toks, 1, resolve) == Prepend(ns, RootLoop(toks, p1, resolve))
    requires RootLoop(toks, p2, resolve) == Prepend(ms, RootLoop(toks, p3, resolve))
    ensures ParseEvents(toks, resolve) == Ok(ns + ms)
  {
    var last := RootLoop(toks, p3, resolve);
    RootStopsAtFirstEndTag(toks, p3, p3, resolve);
    calc {
      RootLoop(toks, 1, resolve);
      Prepend(ns, RootLoop(toks, p1, resolve));
      { RootPassesUnknown(toks, p1, resolve); }
      Prepend(ns, RootLoop(toks, p2, resolve));
      Prepend(ns, Prepend(ms, last));
      { PrependTwice(ns, ms, last); }
      Prepend(ns + ms, last);
      { PrependDone(ns + ms, p3 + 1); }
      Done(ns + ms, p3 + 1);
    }
    ParseFromRoot(toks, ns + ms, p3 + 1, resolve);
  }

  /** skip() does not move the cursor, so an unknown element among the notices has its
      children read by the root loop (a <notice> inside it is collected), and its own
      end tag ends the document: nothing after it is read. */
  lemma UnknownEntry<L>(before: seq<Entry>, element: string, inside: seq<Entry>,
                        rest: seq<Token>, resolve: string -> L)
    requires element != "notice"
    requires EntriesKnown(before) && EntriesKnown(inside)
    ensures ParseEvents(UnknownEntryEvents(before, element, inside, rest), resolve)
            == Ok(ExpectedNotices(before, resolve) + ExpectedNotices(inside, resolve))
  {
    var toks := UnknownEntryEvents(before, element, inside, rest);
    var p1 := 1 + |RenderEntries(before)|;
    var p2 := p1 + 1;
    var p3 := p2 + |RenderEntries(inside)|;
    UnknownEntryTags(before, element, inside, rest, p1, p3);
    UnknownEntryBefore(before, element, inside, rest);
    UnknownEntryInside(before, element, inside, rest, p2);
    EntriesRead(toks, 1, before, p1, resolve);
    EntriesRead(toks, p2, inside, p3, resolve);
    UnknownEntryAt(toks, p1, p2, p3, ExpectedNotices(before, resolve), ExpectedNotices(inside, resolve), resolve);
  }

  /** The events of an unknown element inside a <notice>, written out. */
  function UnknownChildEvents(before: seq<Child>, element: string, inside: seq<Child>,
                              after: seq<Entry>, close: string, rest: seq<Token>): seq<Token>
  {
    [StartTag("notices"), StartTag("notice")] + RenderChildren(before) +
    [StartTag(element)] + RenderChildren(inside) + [EndTag(element)] +
    RenderEntries(after) + [EndTag(close)] + rest
  }

  lemma UnknownChildTags(before: seq<Child>, element: string, inside: seq<Child>,
                         after: seq<Entry>, close: string, rest: seq<Token>, p1: nat, p3: nat, p5: nat)
    requires p1 == 2 + |RenderChildren(before)| && p3 == p1 + 1 + |RenderChildren(inside)|
    requires p5 == p3 + 1 + |RenderEntries(after)|
    ensures var toks := UnknownChildEvents(before, element, inside, after, close, rest);
            p5 < |toks| && toks[0] == StartTag("notices") && toks[1] == StartTag("notice") &&
            toks[p1] == StartTag(element) && toks[p3] == EndTag(element) && toks[p5] == EndTag(close)
  {
  }

  lemma UnknownChildBefore(before: seq<Child>, element: string, inside: seq<Child>,
                           after: seq<Entry>, close: string, rest: seq<Token>)
    ensures ChildrenAt(UnknownChildEvents(before, element, inside, after, close, rest), 2, before)
  {
    var h0 := [StartTag("notices"), StartTag("notice")];
    var h1 := h0 + RenderChildren(before);
    var h2 := h1 + [StartTag(element)];
    var h3 := h2 + RenderChildren(inside);
    var h4 := h3 + [EndTag(element)];
    var h5 := h4 + RenderEntries(after);
    var h6 := h5 + [EndTag(close)];
    ChildrenAtEnd(h0, before);
    ChildrenAtAppend(h1, 2, before, [StartTag(element)]);
    ChildrenAtAppend(h2, 2, before, RenderChildren(inside));
    ChildrenAtAppend(h3, 2, before, [EndTag(element)]);
    ChildrenAtAppend(h4, 2, before, RenderEntries(after));
    ChildrenAtAppend(h5, 2, before, [EndTag(close)]);
    ChildrenAtAppend(h6, 2, before, rest);
  }

  lemma UnknownChildInside(before: seq<Child>, element: string, inside: seq<Child>,
                           after: seq<Entry>, close: string, rest: seq<Token>, p2: nat)
    requires p2 == 3 + |RenderChildren(before)|
    ensures ChildrenAt(UnknownChildEvents(before, element, inside, after, close, rest), p2, inside)
  {
    var h2 := [StartTag("notices"), StartTag("notice")] + RenderChildren(before) + [StartTag(element)];
    var h3 := h2 + RenderChildren(inside);
    var h4 := h3 + [EndTag(element)];
    var h5 := h4 + RenderEntries(after);
    var h6 := h5 + [EndTag(close)];
    assert |h2| == p2;
    ChildrenAtEnd(h2, inside);
    ChildrenAtAppend(h3, |h2|, inside, [EndTag(element)]);
    ChildrenAtAppend(h4, |h2|, inside, RenderEntries(after));
    ChildrenAtAppend(h5, |h2|, inside, [EndTag(close)]);
    ChildrenAtAppend(h6, |h2|, inside, rest);
  }

  lemma UnknownChildAfter(before: seq<Child>, element: string, inside: seq<Child>,
                          after: seq<Entry>, close: string, rest: seq<Token>, p4: nat)
    requires p4 == 4 + |RenderChildren(before)| + |RenderChildren(inside)|
    ensures EntriesAt(UnknownChildEvents(before, element, inside, after, close, rest), p4, after)
  {
    var h4 := [StartTag("notices"), StartTag("notice")] + RenderChildren(before) + [StartTag(element)] +
              RenderChildren(inside) + [EndTag(element)];
    var h5 := h4 + RenderEntries(after);
    var h6 := h5 + [EndTag(close)];
    assert |h4| == p4;
    EntriesAtEnd(h4, after);
    EntriesAtAppend(h5, |h4|, after, [EndTag(close)]);
    EntriesAtAppend(h6, |h4|, after, rest);
  }

  /** A <notice> start tag among the notices adds the notice read from it. */
  lemma RootReadsNotice<L>(toks: seq<Token>, pos: nat, n: Notice<L>, end: nat, resolve: string -> L)
    requires pos < |toks| && toks[pos] == StartTag("notice")
    requires ReadNoticeAt(toks, pos + 1, resolve) == Done(n, end)
    ensures RootLoop(toks, pos, resolve) == Prepend([n], RootLoop(toks, end, resolve))
  {
  }

  lemma UnknownChildNotice<L>(toks: seq<Token>, p1: nat, p2: nat, p3: nat, mid: Notice<L>, n: Notice<L>,
                              resolve: string -> L)
    requires p2 == p1 + 1 && 2 <= p1 && p2 <= p3 < |toks| && toks[1] == StartTag("notice")
    requires toks[p1].StartTag? && !IsFieldTag(toks[p1].name) && toks[p3].EndTag?
    requires NoticeLoop(toks, 2, resolve, NoFields()) == NoticeLoop(toks, p1, resolve, mid)
    requires NoticeLoop(toks, p2, resolve, mid) == NoticeLoop(toks, p3, resolve, n)
    ensures ReadNoticeAt(toks, 2, resolve) == Done(n, p3 + 1)
  {
    NoticeLoopPass(toks, p1, resolve, mid);
    NoticeStopsAtFirstEndTag(toks, p3, p3, resolve, n);
  }

  lemma UnknownChildAt<L>(toks: seq<Token>, p4: nat, p5: nat, n: Notice<L>, ns: seq<Notice<L>>, resolve: string -> L)
    requires 2 <= p4 <= p5 < |toks| && toks[0] == StartTag("notices") && toks[1] == StartTag("notice")
    requires toks[p5].EndTag? && ReadNoticeAt(toks, 2, resolve) == Done(n, p4)
    requires RootLoop(toks, p4, resolve) == Prepend(ns, RootLoop(toks, p5, resolve))
    ensures ParseEvents(toks, resolve) == Ok([n] + ns)
  {
    var last := RootLoop(toks, p5, resolve);
    RootStopsAtFirstEndTag(toks, p5, p5, resolve);
    calc {
      RootLoop(toks, 1, resolve);
      { RootReadsNotice(toks, 1, n, p4, resolve); }
      Prepend([n], RootLoop(toks, p4, resolve));
      Prepend([n], Prepend(ns, last));
      { PrependTwice([n], ns, last); }
      Prepend([n] + ns, last);
      { PrependDone([n] + ns, p5 + 1); }
      Done([n] + ns, p5 + 1);
    }
    ParseFromRoot(toks, [n] + ns, p5 + 1, resolve);
  }

  /** Inside a <notice>, an unknown child element is not skipped either: the fields in
      it are read as the notice's own, and its end tag ends the notice, so the root
      loop resumes right after it. */
  lemma UnknownChild<L>(before: seq<Child>, element: string, inside: seq<Child>,
                        after: seq<Entry>, close: string, rest: seq<Token>, resolve: string -> L)
    requires !IsFieldTag(element)
    requires FieldsKnown(before) && FieldsKnown(inside) && EntriesKnown(after)
    ensures ParseEvents(UnknownChildEvents(before, element, inside, after, close, rest), resolve)
            == Ok([ExpectedNotice(before + inside, resolve)] + ExpectedNotices(after, resolve))
  {
    var toks := UnknownChildEvents(before, element, inside, after, close, rest);
    var p1 := 2 + |RenderChildren(before)|;
    var p2 := p1 + 1;
    var p3 := p2 + |RenderChildren(inside)|;
    var p4 := p3 + 1;
    var p5 := p4 + |RenderEntries(after)|;
    var mid := Override(NoFields(), before, resolve);
    UnknownChildTags(before, element, inside, after, close, rest, p1, p3, p5);
    UnknownChildBefore(before, element, inside, after, close, rest);
    UnknownChildInside(before, element, inside, after, close, rest, p2);
    UnknownChildAfter(before, element, inside, after, close, rest, p4);
    ChildrenRead(toks, 2, before, p1, resolve, NoFields());
    ChildrenRead(toks, p2, inside, p3, resolve, mid);
    EntriesRead(toks, p4, after, p5, resolve);
    OverrideAppend(NoFields(), before, inside, resolve);
    UnknownChildNotice(toks, p1, p2, p3, mid, Override(mid, inside, resolve), resolve);
    UnknownChildAt(toks, p4, p5, Override(mid, inside, resolve), ExpectedNotices(after, resolve), resolve);
  }

  /** The root loop stops at the first end tag, whatever its name, after passing over
      text and start tags other than <notice>. */
  lemma {:induction false} RootStopsAtFirstEndTag<L>(toks: seq<Token>, pos: nat, stop: nat, resolve: string -> L)
    requires pos <= stop < |toks| && toks[stop].EndTag?
    requires forall i :: pos <= i < stop ==> toks[i].Text? || (toks[i].StartTag? && toks[i].name != "notice")
    ensures RootLoop(toks, pos, resolve) == Done([], stop + 1)
    decreases stop - pos
  {
    if pos < stop {
      RootStopsAtFirstEndTag(toks, pos + 1, stop, resolve);
    }
  }

  /** readNotice's loop stops at the first end tag, whatever its name, after passing
      over text and start tags of unknown elements; the fields stay as they were. */
  lemma {:induction false} NoticeStopsAtFirstEndTag<L>(toks: seq<Token>, pos: nat, stop: nat,
                                                      resolve: string -> L, acc: Notice<L>)
    requires pos <= stop < |toks| && toks[stop].EndTag?
    requires forall i :: pos <= i < stop ==> toks[i].Text? || (toks[i].StartTag? && !IsFieldTag(toks[i].name))
    ensures NoticeLoop(toks, pos, resolve, acc) == Done(acc, stop + 1)
    decreases stop - pos
  {
    if pos < stop {
      NoticeStopsAtFirstEndTag(toks, pos + 1, stop, resolve, acc);
    }
  }

  // ---------------------------------------------------------------------------
  // Nothing past the stopping point is read.

  predicate SamePrefix(toks: seq<Token>, other: seq<Token>, k: nat)
  {
    k <= |toks| && k <= |other| && forall i :: 0 <= i < k ==> toks[i] == other[i]
  }

  lemma ReadTagSamePrefix(toks: seq<Token>, other: seq<Token>, pos: nat, tag: string)
    requires ReadTagAt(toks, pos, tag).Done? && SamePrefix(toks, other, ReadTagAt(toks, pos, tag).end)
    ensures ReadTagAt(other, pos, tag) == ReadTagAt(toks, pos, tag)
  {
    var e := ReadTagAt(toks, pos, tag).end;
    assert toks[pos - 1] == other[pos - 1] && toks[pos] == other[pos];
    if toks[pos].Text? {
      assert toks[pos + 1] == other[pos + 1];
      if e == pos + 3 {
        assert toks[pos + 2] == other[pos + 2];
      }
    }
  }

  lemma {:induction false} NoticeLoopSamePrefix<L>(toks: seq<Token>, other: seq<Token>, pos: nat,
                                                  resolve: string -> L, acc: Notice<L>)
    requires NoticeLoop(toks, pos, resolve, acc).Done?
    requires SamePrefix(toks, other, NoticeLoop(toks, pos, resolve, acc).end)
    ensures NoticeLoop(other, pos, resolve, acc) == NoticeLoop(toks, pos, resolve, acc)
    decreases |toks| - pos
  {
    assert toks[pos] == other[pos];
    match toks[pos]
    case EndTag(_) =>
    case Text(_) =>
      NoticeLoopSamePrefix(toks, other, pos + 1, resolve, acc);
    case StartTag(element) =>
      if IsFieldTag(element) {
        var t := ReadTagAt(toks, pos + 1, element);
        ReadTagSamePrefix(toks, other, pos + 1, element);
        NoticeLoopSamePrefix(toks, other, t.end, resolve, SetField(acc, element, t.value, resolve));
      } else {
        NoticeLoopSamePrefix(toks, other, pos + 1, resolve, acc);
      }
  }

  /** The root loop's result depends only on the events it consumed: any events may
      stand after them. */
  lemma {:induction false} RootLoopSamePrefix<L>(toks: seq<Token>, other: seq<Token>, pos: nat, resolve: string -> L)
    requires RootLoop(toks, pos, resolve).Done?
    requires SamePrefix(toks, other, RootLoop(toks, pos, resolve).end)
    ensures RootLoop(other, pos, resolve) == RootLoop(toks, pos, resolve)
    decreases |toks| - pos
  {
    assert toks[pos] == other[pos];
    match toks[pos]
    case EndTag(_) =>
    case Text(_) =>
      RootLoopSamePrefix(toks, other, pos + 1, resolve);
    case StartTag(element) =>
      if element == "notice" {
        var t := ReadNoticeAt(toks, pos + 1, resolve);
        NoticeLoopSamePrefix(toks, other, pos + 1, resolve, NoFields());
        RootLoopSamePrefix(toks, other, t.end, resolve);
      } else {
        RootLoopSamePrefix(toks, other, pos + 1, resolve);
      }
  }

  /** A stream that reads successfully reads the same with any events appended. */
  lemma TrailingEventsIgnored<L>(toks: seq<Token>, rest: seq<Token>, resolve: string -> L)
    requires ParseEvents(toks, resolve).Ok?
    ensures ParseEvents(toks + rest, resolve) == ParseEvents(toks, resolve)
  {
    var other := toks + rest;
    var t := NextTagAt(toks, 0);
    assert toks[0] == other[0];
    if t.end == 2 {
      assert toks[1] == other[1];
    }
    assert NextTagAt(other, 0) == t;
    RootLoopSamePrefix(toks, other, t.end, resolve);
  }

  // ---------------------------------------------------------------------------
  // The opening require() of readNotice and of readTag never fails.

  /** A failure of the require(START_TAG, ...) at the top of readNotice or readTag. */
  predicate OpeningMismatch(e: XmlError)
  {
    e.Mismatch? && e.want.StartTag? && (e.want.name == "notice" || IsFieldTag(e.want.name))
  }

  lemma {:induction false} NoticeLoopOpensCleanly<L>(toks: seq<Token>, pos: nat, resolve: string -> L, acc: Notice<L>)
    ensures NoticeLoop(toks, pos, resolve, acc).Fail? ==> !OpeningMismatch(NoticeLoop(toks, pos, resolve, acc).error)
    decreases |toks| - pos
  {
    if pos < |toks| {
      match toks[pos]
      case EndTag(_) =>
      case Text(_) =>
        NoticeLoopOpensCleanly(toks, pos + 1, resolve, acc);
      case StartTag(element) =>
        if IsFieldTag(element) {
          var t := ReadTagAt(toks, pos + 1, element);
          if t.Done? {
            NoticeLoopOpensCleanly(toks, t.end, resolve, SetField(acc, element, t.value, resolve));
          }
        } else {
          NoticeLoopOpensCleanly(toks, pos + 1, resolve, acc);
        }
    }
  }

  lemma {:induction false} RootLoopOpensCleanly<L>(toks: seq<Token>, pos: nat, resolve: string -> L)
    ensures RootLoop(toks, pos, resolve).Fail? ==> !OpeningMismatch(RootLoop(toks, pos, resolve).error)
    decreases |toks| - pos
  {
    if pos < |toks| {
      match toks[pos]
      case EndTag(_) =>
      case Text(_) =>
        RootLoopOpensCleanly(toks, pos + 1, resolve);
      case StartTag(element) =>
        if element == "notice" {
          NoticeLoopOpensCleanly(toks, pos + 1, resolve, NoFields());
          var t := ReadNoticeAt(toks, pos + 1, resolve);
          if t.Done? {
            RootLoopOpensCleanly(toks, t.end, resolve);
          }
        } else {
          RootLoopOpensCleanly(toks, pos + 1, resolve);
        }
    }
  }

  /** Whatever the events, a failed parse never fails at readNotice's or readTag's
      opening require: their callers have already dispatched on that tag. */
  lemma OpeningRequiresNeverFail<L>(toks: seq<Token>, resolve: string -> L)
    ensures ParseEvents(toks, resolve).Err? ==> !OpeningMismatch(ParseEvents(toks, resolve).error)
  {
    var t := NextTagAt(toks, 0);
    if t.Done? {
      RootLoopOpensCleanly(toks, t.end, resolve);
    }
  }

  // ---------------------------------------------------------------------------
  // A worked example.

  function OneNoticeChildren(): seq<Child>
  {
    [Field("name", "Lib"), Field("license", "apache2")]
  }

  lemma OneNoticeFieldEvents()
    ensures RenderChildren(OneNoticeChildren())
            == [StartTag("name"), Text("Lib"), EndTag("name"),
                StartTag("license"), Text("apache2"), EndTag("license")]
  {
    var children := OneNoticeChildren();
    assert children[..1] == [Field("name", "Lib")];
    assert [Field("name", "Lib")][..0] == [];
    assert RenderChildren(children[..1]) == [StartTag("name"), Text("Lib"), EndTag("name")];
  }

  lemma RenderOneEntry(e: Entry)
    ensures RenderEntries([e]) == RenderEntry(e)
  {
    assert [e][..0] == [];
  }

  lemma OneNoticeEvents()
    ensures RenderDocument([NoticeElement(OneNoticeChildren())])
            == [StartTag("notices"), StartTag("notice"),
                StartTag("name"), Text("Lib"), EndTag("name"),
                StartTag("license"), Text("apache2"), EndTag("license"),
                EndTag("notice"), EndTag("notices")]
  {
    OneNoticeFieldEvents();
    RenderOneEntry(NoticeElement(OneNoticeChildren()));
  }

  lemma OneNoticeValue<L>(resolve: string -> L)
    ensures ExpectedNotices([NoticeElement(OneNoticeChildren())], resolve)
            == [Notice(Some("Lib"), None, None, Some(resolve("apache2")))]
  {
    var children := OneNoticeChildren();
    var doc := [NoticeElement(children)];
    assert children[..1] == [Field("name", "Lib")];
    assert [Field("name", "Lib")][..0] == [];
    assert LastContent(children, "name") == Some("Lib");
    assert LastContent(children, "url") == None;
    assert LastContent(children, "copyright") == None;
    assert LastContent(children, "license") == Some("apache2");
    assert doc[..0] == [];
    assert ExpectedNotices(doc, resolve) == [ExpectedNotice(children, resolve)];
  }

  /** <notices><notice><name>Lib</name><license>apache2</license></notice></notices>
      gives one notice whose url and copyright are null, not "". */
  lemma OneNoticeExample<L>(resolve: string -> L)
    ensures ParseEvents([StartTag("notices"), StartTag("notice"),
                         StartTag("name"), Text("Lib"), EndTag("name"),
                         StartTag("license"), Text("apache2"), EndTag("license"),
                         EndTag("notice"), EndTag("notices")], resolve)
            == Ok([Notice(Some("Lib"), None, None, Some(resolve("apache2")))])
  {
    var doc := [NoticeElement(OneNoticeChildren())];
    assert FieldsKnown(OneNoticeChildren());
    assert EntriesKnown(doc);
    DocumentRead(doc, [], resolve);
    assert RenderDocument(doc) + [] == RenderDocument(doc);
    OneNoticeEvents();
    OneNoticeValue(resolve);
  }

  /** An end tag that closes nothing still ends the notice: the event sequence of
      <notices><notice></x></notices>, which a strict tokeniser rejects, reads as one
      notice with no fields. */
  lemma MismatchedEndTagExample<L>(resolve: string -> L)
    ensures ParseEvents([StartTag("notices"), StartTag("notice"), EndTag("x"), EndTag("notices")], resolve)
            == Ok([NoFields()])
  {
    var toks := [StartTag("notices"), StartTag("notice"), EndTag("x"), EndTag("notices")];
    NoticeLoopEndTag(toks, 2, resolve, NoFields());
    RootReadsNotice(toks, 1, NoFields(), 3, resolve);
    RootLoopEndTag(toks, 3, resolve);
    PrependDone<Notice<L>>([NoFields()], 4);
  }

  /** In well-formed XML, the end tag of an unknown child ends the notice early, and the
      notice's remaining children are then read among the notices: the name after <foo/>
      is lost, and the loop stops at </name>. */
  lemma EarlyEndExample<L>(resolve: string -> L)
    ensures ParseEvents([StartTag("notices"), StartTag("notice"), StartTag("foo"), EndTag("foo"),
                         StartTag("name"), Text("x"), EndTag("name"),
                         EndTag("notice"), EndTag("notices")], resolve)
            == Ok([NoFields()])
  {
    var toks := [StartTag("notices"), StartTag("notice"), StartTag("foo"), EndTag("foo"),
                 StartTag("name"), Text("x"), EndTag("name"),
                 EndTag("notice"), EndTag("notices")];
    NoticeLoopPass(toks, 2, resolve, NoFields());
    NoticeLoopEndTag(toks, 3, resolve, NoFields());
    RootReadsNotice(toks, 1, NoFields(), 4, resolve);
    RootPassesUnknown(toks, 4, resolve);
    RootPassesText(toks, 5, resolve);
    RootLoopEndTag(toks, 6, resolve);
    PrependDone<Notice<L>>([NoFields()], 7);
  }
}
