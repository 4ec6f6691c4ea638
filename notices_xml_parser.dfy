/** NoticesXmlParser: the static reader methods, walking the shared pull-parser cursor
    step by step. Each method is proved to leave the cursor, and to return, what the
    matching function of NoticesModel says; Parse also closes the stream. */
module NoticesXmlParser {
  import opened XmlPull
  import opened JavaIo
  import opened NoticesModel

  /** parse(InputStream): set the parser on the stream, move to the first tag, read the
      document, and close the stream whether reading succeeded or failed. */
  method Parse<L>(input: InputStream, resolve: string -> L) returns (r: Result<seq<Notice<L>>>)
    requires !input.closed
    modifies input
    ensures input.closed
    ensures r == ParseEvents(input.events, resolve)
  {
    var parser := new PullParser(input.events);
    var first := parser.NextTag();
    if first.Err? {
      r := Err(first.error);
    } else {
      r := ParseDocument(parser, resolve);
    }
    input.Close();
  }

  /** parse(XmlPullParser): require <notices>, then add one notice per <notice> start
      tag until the first end tag. */
  method ParseDocument<L>(parser: PullParser, resolve: string -> L) returns (r: Result<seq<Notice<L>>>)
    requires parser.Valid()
    modifies parser
    ensures parser.Valid()
    ensures Tracks(ParseDocumentAt(parser.toks, old(parser.pos), resolve), r, parser.pos)
  {
    var notices: seq<Notice<L>> := [];
    var root := parser.Require(StartTag("notices"));
    if root.Err? {
      return Err(root.error);
    }
    PrependNothing(RootLoop(parser.toks, parser.pos, resolve));
    while true
      invariant parser.Valid() && old(parser.pos) <= parser.pos
      invariant ParseDocumentAt(parser.toks, old(parser.pos), resolve)
                == Prepend(notices, RootLoop(parser.toks, parser.pos, resolve))
      decreases |parser.toks| - parser.pos
    {
      ghost var before := parser.pos;
      var event := parser.Next();
      if event.Err? {
        return Err(event.error);
      }
      if event.value == EndTagEvent {
        assert RootLoop(parser.toks, before, resolve) == Done([], parser.pos);
        assert notices + [] == notices;
        break;
      }
      if event.value != StartTagEvent {
        continue;
      }
      var name := parser.Name();
      if name == "notice" {
        var notice := ReadNotice(parser, resolve);
        if notice.Err? {
          return Err(notice.error);
        }
        PrependTwice(notices, [notice.value], RootLoop(parser.toks, parser.pos, resolve));
        notices := notices + [notice.value];
      } else {
        Skip(parser);
      }
    }
    return Ok(notices);
  }

  /** readNotice: require <notice>, then overwrite the four fields from the recognised
      child elements until the first end tag. The four locals are held in `notice`. */
  method ReadNotice<L>(parser: PullParser, resolve: string -> L) returns (r: Result<Notice<L>>)
    requires parser.Valid()
    modifies parser
    ensures parser.Valid()
    ensures Tracks(ReadNoticeAt(parser.toks, old(parser.pos), resolve), r, parser.pos)
  {
    var open := parser.Require(StartTag("notice"));
    if open.Err? {
      return Err(open.error);
    }
    var notice: Notice<L> := NoFields();
    while true
      invariant parser.Valid()
      invariant ReadNoticeAt(parser.toks, old(parser.pos), resolve) == NoticeLoop(parser.toks, parser.pos, resolve, notice)
      decreases |parser.toks| - parser.pos
    {
      ghost var before := parser.pos;
      var event := parser.Next();
      if event.Err? {
        NoticeLoopOut(parser.toks, before, resolve, notice);
        return Err(event.error);
      }
      if event.value == EndTagEvent {
        NoticeLoopEndTag(parser.toks, before, resolve, notice);
        break;
      }
      if event.value != StartTagEvent {
        NoticeLoopPass(parser.toks, before, resolve, notice);
        continue;
      }
      var element := parser.Name();
      if IsFieldTag(element) {
        NoticeLoopChild(parser.toks, before, resolve, notice, element);
        var updated := ReadField(parser, element, resolve, notice);
        if updated.Err? {
          return Err(updated.error);
        }
        notice := updated.value;
      } else {
        NoticeLoopPass(parser.toks, before, resolve, notice);
        Skip(parser);
      }
    }
    return Ok(notice);
  }

  /** The branches of readNotice's loop for the four recognised elements: readName,
      readUrl, readCopyright or readLicense, whose result overwrites its local. */
  method ReadField<L>(parser: PullParser, element: string, resolve: string -> L, acc: Notice<L>)
    returns (r: Result<Notice<L>>)
    requires parser.Valid() && IsFieldTag(element)
    modifies parser
    ensures parser.Valid()
    ensures var t := ReadTagAt(parser.toks, old(parser.pos), element);
            if t.Fail? then r == Err(t.error)
            else r == Ok(SetField(acc, element, t.value, resolve)) && parser.pos == t.end
  {
    if element == "name" {
      var text := ReadName(parser);
      if text.Err? {
        return Err(text.error);
      }
      return Ok(acc.(name := Some(text.value)));
    } else if element == "url" {
      var text := ReadUrl(parser);
      if text.Err? {
        return Err(text.error);
      }
      return Ok(acc.(url := Some(text.value)));
    } else if element == "copyright" {
      var text := ReadCopyright(parser);
      if text.Err? {
        return Err(text.error);
      }
      return Ok(acc.(copyright := Some(text.value)));
    } else {
      var resolved := ReadLicense(parser, resolve);
      if resolved.Err? {
        return Err(resolved.error);
      }
      return Ok(acc.(license := Some(resolved.value)));
    }
  }

  method ReadName(parser: PullParser) returns (r: Result<string>)
    requires parser.Valid()
    modifies parser
    ensures parser.Valid()
    ensures Tracks(ReadTagAt(parser.toks, old(parser.pos), "name"), r, parser.pos)
  {
    r := ReadTag(parser, "name");
  }

  method ReadUrl(parser: PullParser) returns (r: Result<string>)
    requires parser.Valid()
    modifies parser
    ensures parser.Valid()
    ensures Tracks(ReadTagAt(parser.toks, old(parser.pos), "url"), r, parser.pos)
  {
    r := ReadTag(parser, "url");
  }

  method ReadCopyright(parser: PullParser) returns (r: Result<string>)
    requires parser.Valid()
    modifies parser
    ensures parser.Valid()
    ensures Tracks(ReadTagAt(parser.toks, old(parser.pos), "copyright"), r, parser.pos)
  {
    r := ReadTag(parser, "copyright");
  }

  /** readLicense: the text of <license>, resolved by LicenseResolver.read. */
  method ReadLicense<L>(parser: PullParser, resolve: string -> L) returns (r: Result<L>)
    requires parser.Valid()
    modifies parser
    ensures parser.Valid()
    ensures match ReadTagAt(parser.toks, old(parser.pos), "license")
            case Done(text, e) => r == Ok(resolve(text)) && parser.pos == e
            case Fail(err) => r == Err(err)
  {
    var text := ReadTag(parser, "license");
    if text.Err? {
      return Err(text.error);
    }
    return Ok(resolve(text.value));
  }

  /** readTag: require <tag>, read its text, require </tag>. */
  method ReadTag(parser: PullParser, tag: string) returns (r: Result<string>)
    requires parser.Valid()
    modifies parser
    ensures parser.Valid()
    ensures Tracks(ReadTagAt(parser.toks, old(parser.pos), tag), r, parser.pos)
  {
    var open := parser.Require(StartTag(tag));
    if open.Err? {
      return Err(open.error);
    }
    var title := ReadText(parser);
    if title.Err? {
      return title;
    }
    var close := parser.Require(EndTag(tag));
    if close.Err? {
      return Err(close.error);
    }
    return title;
  }

  /** readText: the text of the next event if it is character data, else "". */
  method ReadText(parser: PullParser) returns (r: Result<string>)
    requires parser.Valid()
    modifies parser
    ensures parser.Valid()
    ensures Tracks(ReadTextAt(parser.toks, old(parser.pos)), r, parser.pos)
  {
    var result := "";
    var event := parser.Next();
    if event.Err? {
      return Err(event.error);
    }
    if event.value == TextEvent {
      result := parser.GetText();
      var tag := parser.NextTag();
      if tag.Err? {
        return Err(tag.error);
      }
    }
    return Ok(result);
  }

  /** skip: an empty body. It neither moves the cursor nor consumes the unknown
      element's subtree. */
  method Skip(parser: PullParser)
    ensures unchanged(parser)
  {
  }
}
