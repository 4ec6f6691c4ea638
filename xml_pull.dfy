/** The pull-parser cursor that the notices reader sits on (org.xmlpull.v1.XmlPullParser),
    reduced to the calls the reader makes: next(), nextTag(), require(), getName(),
    getText() and isWhitespace(). The character-level tokeniser is not modelled: its
    output is given as a sequence of events. */
module XmlPull {

  /** One event reported by the pull parser. */
  datatype Token = StartTag(name: string) | EndTag(name: string) | Text(text: string)

  /** The event type constants START_TAG, END_TAG and TEXT. */
  datatype EventType = StartTagEvent | EndTagEvent | TextEvent

  /** getEventType(): the type constant of an event. */
  function TypeOf(t: Token): (e: EventType)
    ensures e == StartTagEvent <==> t.StartTag?
    ensures e == EndTagEvent <==> t.EndTag?
    ensures e == TextEvent <==> t.Text?
  {
    match t
    case StartTag(_) => StartTagEvent
    case EndTag(_) => EndTagEvent
    case Text(_) => TextEvent
  }

  /** Every exception the reader can see, collapsed into one failure outcome that
      records which check gave up. */
  datatype XmlError =
    | EndOfInput                    // the events ran out inside an open element
    | NotATag(at: nat)              // nextTag() stopped on character data
    | Mismatch(at: nat, want: Token) // require() found another event than `want`

  /** The outcome of a cursor method. */
  datatype Result<T> = Ok(value: T) | Err(error: XmlError)

  /** The outcome of a reading step in the functional model: the value read and the
      number of events consumed once it is read. */
  datatype Step<T> = Done(value: T, end: nat) | Fail(error: XmlError)

  /** The white space of XML 1.0 (production S of section 2.3). */
  predicate IsXmlSpace(c: char)
  {
    c == ' ' || c == '\t' || c == '\n' || c == '\r'
  }

  predicate IsWhitespaceText(t: Token)
  {
    t.Text? && forall i :: 0 <= i < |t.text| ==> IsXmlSpace(t.text[i])
  }

  /** Cursor convention: `pos` events have been consumed, so the current event is
      toks[pos - 1]; `pos == 0` is the start of the document, before any event. */
  predicate CurrentIs(toks: seq<Token>, pos: nat, want: Token)
  {
    0 < pos <= |toks| && toks[pos - 1] == want
  }

  /** nextTag(): advance once, once more over a whitespace-only text event, and
      demand that the event reached is a start or end tag. */
  function NextTagAt(toks: seq<Token>, pos: nat): (r: Step<Token>)
    ensures r.Done? ==> pos < r.end <= pos + 2 && r.end <= |toks|
    ensures r.Done? ==> r.value == toks[r.end - 1] && !r.value.Text?
    ensures r.Done? ==> forall i :: pos <= i < r.end - 1 ==> IsWhitespaceText(toks[i])
    ensures pos < |toks| && !toks[pos].Text? ==> r == Done(toks[pos], pos + 1)
    ensures pos + 1 < |toks| && IsWhitespaceText(toks[pos]) && !toks[pos + 1].Text? ==>
              r == Done(toks[pos + 1], pos + 2)
    ensures pos < |toks| && toks[pos].Text? && !IsWhitespaceText(toks[pos]) ==>
              r == Fail(NotATag(pos + 1))
    ensures pos + 1 < |toks| && IsWhitespaceText(toks[pos]) && toks[pos + 1].Text? ==>
              r == Fail(NotATag(pos + 2))
    ensures pos >= |toks| || (pos + 1 == |toks| && IsWhitespaceText(toks[pos])) ==> r == Fail(EndOfInput)
    ensures r.Fail? ==> r.error == EndOfInput || r.error.NotATag?
  {
    if pos >= |toks| then Fail(EndOfInput)
    else if IsWhitespaceText(toks[pos]) then
      if pos + 1 >= |toks| then Fail(EndOfInput)
      else if toks[pos + 1].Text? then Fail(NotATag(pos + 2))
      else Done(toks[pos + 1], pos + 2)
    else if toks[pos].Text? then Fail(NotATag(pos + 1))
    else Done(toks[pos], pos + 1)
  }

  /** The pull parser: a fixed sequence of events and a cursor that only moves forward. */
  class PullParser {
    const toks: seq<Token>
    var pos: nat

    ghost predicate Valid()
      reads this
    {
      pos <= |toks|
    }

    constructor (events: seq<Token>)
      ensures toks == events && pos == 0 && Valid()
    {
      toks := events;
      pos := 0;
    }

    /** getName() on a start or end tag. */
    function Name(): (n: string)
      reads this
      requires 0 < pos <= |toks| && !toks[pos - 1].Text?
      ensures toks[pos - 1] == StartTag(n) || toks[pos - 1] == EndTag(n)
    {
      toks[pos - 1].name
    }

    /** getText() on a text event. */
    function GetText(): (t: string)
      reads this
      requires 0 < pos <= |toks| && toks[pos - 1].Text?
      ensures toks[pos - 1] == Text(t)
    {
      toks[pos - 1].text
    }

    /** isWhitespace() on a text event. */
    function IsWhitespace(): (b: bool)
      reads this
      requires 0 < pos <= |toks| && toks[pos - 1].Text?
      ensures b <==> forall c :: c in toks[pos - 1].text ==> IsXmlSpace(c)
    {
      IsWhitespaceText(toks[pos - 1])
    }

    /** next(): consume one event and report its type; at the end of the events the
        document is unfinished, which is a failure. */
    method Next() returns (r: Result<EventType>)
      requires Valid()
      modifies this
      ensures Valid()
      ensures old(pos) < |toks| ==> r == Ok(TypeOf(toks[old(pos)])) && pos == old(pos) + 1
      ensures old(pos) == |toks| ==> r == Err(EndOfInput) && pos == old(pos)
    {
      if pos == |toks| {
        r := Err(EndOfInput);
      } else {
        r := Ok(TypeOf(toks[pos]));
        pos := pos + 1;
      }
    }

    method NextTag() returns (r: Result<EventType>)
      requires Valid()
      modifies this
      ensures Valid()
      ensures match NextTagAt(toks, old(pos))
              case Done(t, e) => r == Ok(TypeOf(t)) && pos == e
              case Fail(err) => r == Err(err)
    {
      r := Next();
      if r.Ok? && r.value == TextEvent && IsWhitespace() {
        r := Next();
      }
      if r.Ok? && r.value == TextEvent {
        r := Err(NotATag(pos));
      }
    }

    /** require(type, null, name): the current event must be `want`, a start or end tag. */
    method Require(want: Token) returns (r: Result<()>)
      requires Valid()
      ensures r == if CurrentIs(toks, pos, want) then Ok(()) else Err(Mismatch(pos, want))
    {
      if 0 < pos && toks[pos - 1] == want {
        r := Ok(());
      } else {
        r := Err(Mismatch(pos, want));
      }
    }
  }
}

/** The byte stream handed to the reader, reduced to the events the tokeniser makes
    of it and to whether it has been closed. */
module JavaIo {
  import opened XmlPull

  class InputStream {
    const events: seq<Token>
    var closed: bool

    constructor (events: seq<Token>)
      ensures this.events == events && !closed
    {
      this.events := events;
      closed := false;
    }

    /** close(): closing a closed stream has no further effect. */
    method Close()
      modifies this
      ensures closed
    {
      closed := true;
    }
  }
}
