/** iCalendar events: finding the VEVENT blocks of a calendar and the properties that are their own. */
module ICalEvents {
  import opened Wrappers
  import opened Text
  import opened ICalText

  // ----- VEVENT blocks -----

  /** The lines of one event, and the calendar's METHOD when it ended. */
  datatype Event = Event(lines: seq<string>, calMethod: string)

  datatype Scanner = Scanner(events: seq<Event>, inEvent: bool, current: seq<string>, calMethod: string)

  const START := Scanner([], false, [], "")

  /** What an unfolded line is to the search for events. */
  datatype Mark = MethodIs(value: string) | Begins | Ends | Inner(line: string)

  type Marker = string -> Mark

  function MarkOf(raw: string): Mark {
    var line := TrimSpace(raw);
    if HasPrefix(line, "METHOD:") then MethodIs(TrimSpace(line[7..]))
    else if HasPrefix(line, "BEGIN:VEVENT") then Begins
    else if HasPrefix(line, "END:VEVENT") then Ends
    else Inner(line)
  }

  function Marked(s: Scanner, m: Mark): Scanner {
    match m
    case MethodIs(value) => s.(calMethod := value)
    case Begins => s.(inEvent := true, current := [])
    case Ends => s.(inEvent := false, events := s.events + [Event(s.current, s.calMethod)])
    case Inner(line) => if s.inEvent then s.(current := s.current + [line]) else s
  }

  function Scan(mark: Marker, s: Scanner, lines: seq<string>): Scanner
    decreases |lines|
  {
    if lines == [] then s else Scan(mark, Marked(s, mark(lines[0])), lines[1..])
  }

  lemma {:induction false} ScanAppend(mark: Marker, s: Scanner, a: seq<string>, b: seq<string>)
    ensures Scan(mark, s, a + b) == Scan(mark, Scan(mark, s, a), b)
    decreases |a|
  {
    if a == [] {
      assert a + b == b;
    } else {
      assert (a + b)[1..] == a[1..] + b;
      ScanAppend(mark, Marked(s, mark(a[0])), a[1..], b);
    }
  }

  lemma ScanOne(mark: Marker, s: Scanner, line: string)
    ensures Scan(mark, s, [line]) == Marked(s, mark(line))
  {
    assert [line][1..] == [];
  }

  lemma ScanSnoc(mark: Marker, s: Scanner, lines: seq<string>, i: nat)
    requires i < |lines|
    ensures Scan(mark, s, lines[..i + 1]) == Marked(Scan(mark, s, lines[..i]), mark(lines[i]))
  {
    assert lines[..i + 1] == lines[..i] + [lines[i]];
    ScanAppend(mark, s, lines[..i], [lines[i]]);
    ScanOne(mark, Scan(mark, s, lines[..i]), lines[i]);
  }

  /** The loop over the unfolded lines of a calendar. */
  method ExtractEvents(data: string) returns (events: seq<Event>)
    ensures events == Scan(MarkOf, START, Unfold(SplitOn(Normalized(data), '\n'))).events
  {
    var lines := UnfoldICal(data);
    var inEvent, current, calMethod := false, [], "";
    events := [];
    for i := 0 to |lines|
      invariant Scanner(events, inEvent, current, calMethod) == Scan(MarkOf, START, lines[..i])
    {
      ScanSnoc(MarkOf, START, lines, i);
      var line := TrimSpace(lines[i]);
      if HasPrefix(line, "METHOD:") {
        calMethod := TrimSpace(line[7..]);
      } else if HasPrefix(line, "BEGIN:VEVENT") {
        inEvent, current := true, [];
      } else if HasPrefix(line, "END:VEVENT") {
        inEvent, events := false, events + [Event(current, calMethod)];
      } else if inEvent {
        current := current + [line];
      }
    }
    assert lines[..|lines|] == lines;
  }

  // ----- a calendar's chunks -----

  /** A line outside events, or an event from its BEGIN to its END. */
  datatype Chunk = Outside(line: string) | Vevent(begin: string, body: seq<string>, end: string)

  /** Body lines are trimmed, and like the lines outside they begin or end no event. */
  predicate ChunkOk(mark: Marker, c: Chunk) {
    match c
    case Outside(line) => mark(line).Inner? || mark(line).MethodIs?
    case Vevent(begin, body, end) =>
      mark(begin) == Begins && mark(end) == Ends && forall k :: 0 <= k < |body| ==> mark(body[k]) == Inner(body[k])
  }

  function ChunkLines(c: Chunk): seq<string> {
    if c.Outside? then [c.line] else [c.begin] + c.body + [c.end]
  }

  function CalendarLines(chunks: seq<Chunk>): seq<string> {
    if chunks == [] then [] else ChunkLines(chunks[0]) + CalendarLines(chunks[1..])
  }

  function MethodAfter(mark: Marker, calMethod: string, c: Chunk): string {
    if c.Outside? && mark(c.line).MethodIs? then mark(c.line).value else calMethod
  }

  /** The events of a calendar in order, each with the METHOD last given before it. */
  function EventsOf(mark: Marker, chunks: seq<Chunk>, calMethod: string): seq<Event>
    decreases |chunks|
  {
    if chunks == [] then []
    else (if chunks[0].Vevent? then [Event(chunks[0].body, calMethod)] else [])
         + EventsOf(mark, chunks[1..], MethodAfter(mark, calMethod, chunks[0]))
  }

  lemma {:induction false} BodyIsCollected(mark: Marker, s: Scanner, body: seq<string>)
    requires s.inEvent && forall k :: 0 <= k < |body| ==> mark(body[k]) == Inner(body[k])
    ensures Scan(mark, s, body) == s.(current := s.current + body)
    decreases |body|
  {
    if body == [] {
      assert s.current + body == s.current;
    } else {
      BodyIsCollected(mark, Marked(s, mark(body[0])), body[1..]);
      assert (s.current + [body[0]]) + body[1..] == s.current + body;
    }
  }

  lemma ChunkIsScanned(mark: Marker, s: Scanner, c: Chunk)
    requires !s.inEvent && ChunkOk(mark, c)
    ensures !Scan(mark, s, ChunkLines(c)).inEvent
    ensures Scan(mark, s, ChunkLines(c)).calMethod == MethodAfter(mark, s.calMethod, c)
    ensures Scan(mark, s, ChunkLines(c)).events == s.events + (if c.Vevent? then [Event(c.body, s.calMethod)] else [])
  {
    match c
    case Outside(line) =>
      ScanOne(mark, s, line);
      assert s.events + [] == s.events;
    case Vevent(begin, body, end) =>
      var opened_ := Marked(s, Begins);
      ScanAppend(mark, s, [begin] + body, [end]);
      ScanAppend(mark, s, [begin], body);
      ScanOne(mark, s, begin);
      BodyIsCollected(mark, opened_, body);
      ScanOne(mark, Scan(mark, opened_, body), end);
      assert [] + body == body;
  }

  lemma {:induction false} CalendarIsScanned(mark: Marker, s: Scanner, chunks: seq<Chunk>)
    requires !s.inEvent && forall k :: 0 <= k < |chunks| ==> ChunkOk(mark, chunks[k])
    ensures Scan(mark, s, CalendarLines(chunks)).events == s.events + EventsOf(mark, chunks, s.calMethod)
    ensures !Scan(mark, s, CalendarLines(chunks)).inEvent
    decreases |chunks|
  {
    if chunks == [] {
      assert s.events + [] == s.events;
    } else {
      var c, rest := chunks[0], CalendarLines(chunks[1..]);
      var t := Scan(mark, s, ChunkLines(c));
      ScanAppend(mark, s, ChunkLines(c), rest);
      ChunkIsScanned(mark, s, c);
      CalendarIsScanned(mark, t, chunks[1..]);
      Regroup(s.events, if c.Vevent? then [Event(c.body, s.calMethod)] else [], EventsOf(mark, chunks[1..], t.calMethod));
    }
  }

  lemma EmptyLine()
    ensures MarkOf("") == Inner("")
  {
    TrimTrimmed("");
  }

  // ----- the words that mark a line -----

  /** The line, white space around it aside, begins with the word. */
  predicate Starts(line: string, word: string) { HasPrefix(TrimSpace(line), word) }

  lemma FirstChar(t: string, word: string)
    requires word != ""
    ensures HasPrefix(t, word) ==> t != "" && t[0] == word[0]
  {
  }

  lemma DifferentStart(line: string, word: string, other: string)
    requires word != "" && other != "" && word[0] != other[0]
    ensures Starts(line, word) ==> !Starts(line, other)
  {
    FirstChar(TrimSpace(line), word);
    FirstChar(TrimSpace(line), other);
  }

  /** An event begins with a line that starts with BEGIN:VEVENT and ends with one that starts with
      END:VEVENT; what follows METHOD: is the method; every other line is its own text, trimmed. */
  lemma MarkExactly(line: string)
    ensures MarkOf(line) == Begins <==> Starts(line, "BEGIN:VEVENT")
    ensures MarkOf(line) == Ends <==> Starts(line, "END:VEVENT")
    ensures MarkOf(line).MethodIs? <==> Starts(line, "METHOD:")
    ensures Starts(line, "METHOD:") ==> MarkOf(line) == MethodIs(TrimSpace(TrimSpace(line)[|"METHOD:"|..]))
    ensures !Starts(line, "BEGIN:VEVENT") && !Starts(line, "END:VEVENT") && !Starts(line, "METHOD:") ==>
              MarkOf(line) == Inner(TrimSpace(line))
  {
    DifferentStart(line, "METHOD:", "BEGIN:VEVENT");
    DifferentStart(line, "METHOD:", "END:VEVENT");
    DifferentStart(line, "BEGIN:VEVENT", "END:VEVENT");
  }

  /** A line outside events neither begins nor ends one; an event stands between the two words, and its
      lines are trimmed and start with none of the three. */
  predicate ChunkReads(c: Chunk) {
    match c
    case Outside(line) => !Starts(line, "BEGIN:VEVENT") && !Starts(line, "END:VEVENT")
    case Vevent(begin, body, end) =>
      Starts(begin, "BEGIN:VEVENT") && Starts(end, "END:VEVENT") && forall k :: 0 <= k < |body| ==> BodyLine(body[k])
  }

  predicate BodyLine(line: string) {
    TrimSpace(line) == line && !Starts(line, "BEGIN:VEVENT") && !Starts(line, "END:VEVENT") && !Starts(line, "METHOD:")
  }

  /** The method after a chunk: a METHOD line outside events replaces it. */
  function MethodGiven(calMethod: string, c: Chunk): string {
    if c.Outside? && Starts(c.line, "METHOD:") then TrimSpace(TrimSpace(c.line)[|"METHOD:"|..]) else calMethod
  }

  function EventsGiven(chunks: seq<Chunk>, calMethod: string): seq<Event>
    decreases |chunks|
  {
    if chunks == [] then []
    else (if chunks[0].Vevent? then [Event(chunks[0].body, calMethod)] else [])
         + EventsGiven(chunks[1..], MethodGiven(calMethod, chunks[0]))
  }

  lemma ChunkIsMarked(c: Chunk, calMethod: string)
    requires ChunkReads(c)
    ensures ChunkOk(MarkOf, c) && MethodAfter(MarkOf, calMethod, c) == MethodGiven(calMethod, c)
  {
    match c
    case Outside(line) => MarkExactly(line);
    case Vevent(begin, body, end) =>
      MarkExactly(begin);
      MarkExactly(end);
      forall k | 0 <= k < |body|
        ensures MarkOf(body[k]) == Inner(body[k])
      {
        MarkExactly(body[k]);
      }
  }

  lemma {:induction false} EventsAreGiven(chunks: seq<Chunk>, calMethod: string)
    requires forall k :: 0 <= k < |chunks| ==> ChunkReads(chunks[k])
    ensures forall k :: 0 <= k < |chunks| ==> ChunkOk(MarkOf, chunks[k])
    ensures EventsOf(MarkOf, chunks, calMethod) == EventsGiven(chunks, calMethod)
    decreases |chunks|
  {
    if chunks != [] {
      ChunkIsMarked(chunks[0], calMethod);
      EventsAreGiven(chunks[1..], MethodGiven(calMethod, chunks[0]));
    }
  }

  /** A calendar's events are read from its bytes however its lines were folded: those between
      BEGIN:VEVENT and END:VEVENT, in order, each with the METHOD last given before it. */
  lemma FoldedCalendarIsRead(chunks: seq<Chunk>, folded: seq<seq<Piece>>, rows: seq<Row>)
    requires forall k :: 0 <= k < |chunks| ==> ChunkReads(chunks[k])
    requires forall k :: 0 <= k < |folded| ==> Cut(folded[k])
    requires Lines(folded) == CalendarLines(chunks)
    requires Texts(rows) == AllPhysical(folded) && forall k :: 0 <= k < |rows| ==> OneLine(rows[k].text)
    ensures Scan(MarkOf, START, Unfold(SplitOn(Normalized(Rendered(rows)), '\n'))).events == EventsGiven(chunks, "")
  {
    EventsAreGiven(chunks, "");
    UnfoldUndoesFold(folded, rows);
    ScanAppend(MarkOf, START, Lines(folded), [""]);
    CalendarIsScanned(MarkOf, START, chunks);
    ScanOne(MarkOf, Scan(MarkOf, START, Lines(folded)), "");
    EmptyLine();
    assert [] + EventsOf(MarkOf, chunks, "") == EventsOf(MarkOf, chunks, "");
  }

  // ----- an event's own properties -----

  /** Properties so far, and how many components are open. */
  datatype Nest = Nest(props: seq<Prop>, depth: nat)

  /** What a line is to the collection of properties. */
  datatype Tag = Opens | Closes | Own(props: seq<Prop>)

  type Tagger = string -> Tag

  /** A line without a colon holds no property. */
  function TagOf(line: string): Tag {
    if HasPrefix(line, "BEGIN:") then Opens
    else if HasPrefix(line, "END:") then Closes
    else match Parsed(line)
      case None => Own([])
      case Some(p) => Own([p])
  }

  function Nested(n: Nest, t: Tag): Nest {
    match t
    case Opens => n.(depth := n.depth + 1)
    case Closes => n.(depth := if n.depth > 0 then n.depth - 1 else 0)
    case Own(props) => if n.depth > 0 then n else n.(props := n.props + props)
  }

  function Collect(tag: Tagger, n: Nest, lines: seq<string>): Nest
    decreases |lines|
  {
    if lines == [] then n else Collect(tag, Nested(n, tag(lines[0])), lines[1..])
  }

  lemma {:induction false} CollectAppend(tag: Tagger, n: Nest, a: seq<string>, b: seq<string>)
    ensures Collect(tag, n, a + b) == Collect(tag, Collect(tag, n, a), b)
    decreases |a|
  {
    if a == [] {
      assert a + b == b;
    } else {
      assert (a + b)[1..] == a[1..] + b;
      CollectAppend(tag, Nested(n, tag(a[0])), a[1..], b);
    }
  }

  lemma CollectOne(tag: Tagger, n: Nest, line: string)
    ensures Collect(tag, n, [line]) == Nested(n, tag(line))
  {
    assert [line][1..] == [];
  }

  lemma CollectSnoc(tag: Tagger, n: Nest, lines: seq<string>, i: nat)
    requires i < |lines|
    ensures Collect(tag, n, lines[..i + 1]) == Nested(Collect(tag, n, lines[..i]), tag(lines[i]))
  {
    assert lines[..i + 1] == lines[..i] + [lines[i]];
    CollectAppend(tag, n, lines[..i], [lines[i]]);
    CollectOne(tag, Collect(tag, n, lines[..i]), lines[i]);
  }

  method CollectProps(lines: seq<string>) returns (props: seq<Prop>)
    ensures props == Collect(TagOf, Nest([], 0), lines).props
  {
    props := [];
    var subdepth: nat := 0;
    for i := 0 to |lines|
      invariant Nest(props, subdepth) == Collect(TagOf, Nest([], 0), lines[..i])
    {
      CollectSnoc(TagOf, Nest([], 0), lines, i);
      var line := lines[i];
      if HasPrefix(line, "BEGIN:") {
        subdepth := subdepth + 1;
      } else if HasPrefix(line, "END:") {
        if subdepth > 0 { subdepth := subdepth - 1; }
      } else if subdepth == 0 {
        var p := ParseICalProp(line);
        props := props + (if p.Some? then [p.value] else []);
      }
    }
    assert lines[..|lines|] == lines;
  }

  /** A well-nested body: lines, and components that are well-nested bodies between two marks. */
  datatype Item = Line(text: string) | Component(begin: string, items: seq<Item>, end: string)

  predicate ItemOk(tag: Tagger, i: Item) {
    match i
    case Line(text) => tag(text).Own?
    case Component(begin, items, end) =>
      tag(begin) == Opens && tag(end) == Closes && forall k :: 0 <= k < |items| ==> ItemOk(tag, items[k])
  }

  function ItemLines(i: Item): seq<string>
    decreases i, 0
  {
    match i
    case Line(text) => [text]
    case Component(begin, items, end) => [begin] + BodyLines(items) + [end]
  }

  function BodyLines(items: seq<Item>): seq<string>
    decreases items, |items|
  {
    if items == [] then [] else ItemLines(items[0]) + BodyLines(items[1..])
  }

  /** The properties on an item's own line; those inside a component are not the body's. */
  function OwnProps(tag: Tagger, i: Item): seq<Prop> {
    if i.Line? && tag(i.text).Own? then tag(i.text).props else []
  }

  function AllOwnProps(tag: Tagger, items: seq<Item>): seq<Prop> {
    if items == [] then [] else OwnProps(tag, items[0]) + AllOwnProps(tag, items[1..])
  }

  lemma {:induction false} ItemIsCollected(tag: Tagger, n: Nest, i: Item)
    requires ItemOk(tag, i)
    ensures Collect(tag, n, ItemLines(i)) == if n.depth > 0 then n else n.(props := n.props + OwnProps(tag, i))
    decreases i, 0
  {
    match i
    case Line(text) => CollectOne(tag, n, text);
    case Component(begin, items, end) =>
      var inner := n.(depth := n.depth + 1);
      CollectAppend(tag, n, [begin] + BodyLines(items), [end]);
      CollectAppend(tag, n, [begin], BodyLines(items));
      CollectOne(tag, n, begin);
      BodyIsSkipped(tag, inner, items);
      CollectOne(tag, inner, end);
      assert n.props + [] == n.props;
  }

  /** Inside a component nothing is collected. */
  lemma {:induction false} BodyIsSkipped(tag: Tagger, n: Nest, items: seq<Item>)
    requires n.depth > 0 && forall k :: 0 <= k < |items| ==> ItemOk(tag, items[k])
    ensures Collect(tag, n, BodyLines(items)) == n
    decreases items, |items|
  {
    if items != [] {
      CollectAppend(tag, n, ItemLines(items[0]), BodyLines(items[1..]));
      ItemIsCollected(tag, n, items[0]);
      BodyIsSkipped(tag, n, items[1..]);
    }
  }

  /** Of any well-nested body exactly the properties on its own lines are collected, in order. */
  lemma {:induction false} OwnPropsAreCollected(tag: Tagger, before: seq<Prop>, items: seq<Item>)
    requires forall k :: 0 <= k < |items| ==> ItemOk(tag, items[k])
    ensures Collect(tag, Nest(before, 0), BodyLines(items)) == Nest(before + AllOwnProps(tag, items), 0)
    decreases |items|
  {
    if items == [] {
      assert before + [] == before;
    } else {
      var own := OwnProps(tag, items[0]);
      CollectAppend(tag, Nest(before, 0), ItemLines(items[0]), BodyLines(items[1..]));
      ItemIsCollected(tag, Nest(before, 0), items[0]);
      OwnPropsAreCollected(tag, before + own, items[1..]);
      Regroup(before, own, AllOwnProps(tag, items[1..]));
    }
  }

  /** A body as it is written: a component stands between a BEGIN: and an END: line, and no other line
      starts with either word. */
  predicate ItemReads(i: Item) {
    match i
    case Line(text) => !HasPrefix(text, "BEGIN:") && !HasPrefix(text, "END:")
    case Component(begin, items, end) =>
      HasPrefix(begin, "BEGIN:") && HasPrefix(end, "END:") && forall k :: 0 <= k < |items| ==> ItemReads(items[k])
  }

  lemma TagExactly(line: string)
    ensures TagOf(line) == Opens <==> HasPrefix(line, "BEGIN:")
    ensures TagOf(line) == Closes <==> HasPrefix(line, "END:")
    ensures !HasPrefix(line, "BEGIN:") && !HasPrefix(line, "END:") ==>
              TagOf(line) == Own(if Parsed(line).Some? then [Parsed(line).value] else [])
  {
    FirstChar(line, "BEGIN:");
    FirstChar(line, "END:");
  }

  lemma {:induction false} ItemIsTagged(i: Item)
    requires ItemReads(i)
    ensures ItemOk(TagOf, i)
  {
    match i
    case Line(text) => TagExactly(text);
    case Component(begin, items, end) =>
      TagExactly(begin);
      TagExactly(end);
      forall k | 0 <= k < |items|
        ensures ItemOk(TagOf, items[k])
      {
        ItemIsTagged(items[k]);
      }
  }

  /** The properties the lines of the body itself hold; a line without a colon holds none. */
  function LineProps(items: seq<Item>): seq<Prop> {
    if items == [] then []
    else (if items[0].Line? && Parsed(items[0].text).Some? then [Parsed(items[0].text).value] else []) + LineProps(items[1..])
  }

  lemma {:induction false} LinePropsAreOwn(items: seq<Item>)
    requires forall k :: 0 <= k < |items| ==> ItemReads(items[k])
    ensures forall k :: 0 <= k < |items| ==> ItemOk(TagOf, items[k])
    ensures AllOwnProps(TagOf, items) == LineProps(items)
  {
    if items != [] {
      ItemIsTagged(items[0]);
      if items[0].Line? {
        TagExactly(items[0].text);
      }
      LinePropsAreOwn(items[1..]);
    }
  }

  /** What is collected of an event's lines: the properties on its own lines, in order, and nothing from
      the alarms and other components inside it. */
  lemma EventPropsAreCollected(items: seq<Item>)
    requires forall k :: 0 <= k < |items| ==> ItemReads(items[k])
    ensures Collect(TagOf, Nest([], 0), BodyLines(items)).props == LineProps(items)
  {
    LinePropsAreOwn(items);
    OwnPropsAreCollected(TagOf, [], items);
    assert [] + LineProps(items) == LineProps(items);
  }
}
