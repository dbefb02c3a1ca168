/** `parse_whatsapp_chat` (utils/parser.py:12-82) and `is_system_message`
    (utils/parser.py:115-140).

    The parser reads the export line by line. A header line (one that `Headers`
    recognises) closes the message being built, if any, and opens a new one, unless
    the header's sender and text look like a system notice, in which case no
    message is open until the next header. A line that is not a header and is not
    blank is appended, stripped and after a line break, to the open message; other
    lines are dropped. */
module Parser {
  import opened Wrappers
  import opened Text
  import opened DateTimes
  import opened Timestamps
  import opened Headers

  /** One row of the resulting table. */
  datatype Row = Row(timestamp: Option<DateTime>, sender: string, message: string)

  // ----- system notices -----

  /** The phrases that mark a line as a notice rather than a message. */
  const Indicators: seq<string> := [
    "Messages and calls are end-to-end encrypted",
    "created group",
    "added you",
    "removed you",
    "left the group",
    "changed the subject",
    "changed this group",
    "changed the group",
    "deleted this message",
    "This message was deleted",
    "<Media omitted>",
    "missed voice call",
    "missed video call"
  ]

  /** Whether one of `indicators`, lower-cased, occurs in `text`. */
  predicate AnyIndicator(text: string, indicators: seq<string>)
  {
    if indicators == [] then false
    else Contains(text, Lower(indicators[0])) || AnyIndicator(text, indicators[1..])
  }

  /** `is_system_message`: some indicator occurs, ignoring case, in "sender: message". */
  predicate IsSystemMessage(sender: string, message: string)
  {
    AnyIndicator(Lower(sender + ": " + message), Indicators)
  }

  lemma {:induction false} AnyIndicatorIff(text: string, indicators: seq<string>)
    ensures AnyIndicator(text, indicators) <==>
      exists k :: 0 <= k < |indicators| && Contains(text, Lower(indicators[k]))
  {
    if indicators != [] {
      AnyIndicatorIff(text, indicators[1..]);
      if exists k :: 0 <= k < |indicators| && Contains(text, Lower(indicators[k])) {
        var k :| 0 <= k < |indicators| && Contains(text, Lower(indicators[k]));
        if k > 0 { assert indicators[1..][k - 1] == indicators[k]; }
      }
    }
  }

  /** A line is a notice exactly when some indicator occurs in "sender: message" at
      some position, compared without case. */
  lemma SystemMessageIff(sender: string, message: string)
    ensures IsSystemMessage(sender, message) <==>
      exists k, i :: 0 <= k < |Indicators| && OccursAt(Lower(sender + ": " + message), Lower(Indicators[k]), i)
  {
    var text := Lower(sender + ": " + message);
    AnyIndicatorIff(text, Indicators);
    forall k | 0 <= k < |Indicators| ensures Contains(text, Lower(Indicators[k])) <==>
      exists i :: OccursAt(text, Lower(Indicators[k]), i)
    {
      ContainsIff(text, Lower(Indicators[k]));
    }
  }

  /** Text added after the message never turns a notice into a message. */
  lemma SystemMessageExtend(sender: string, message: string, more: string)
    requires IsSystemMessage(sender, message)
    ensures IsSystemMessage(sender, message + more)
  {
    var text := Lower(sender + ": " + message);
    AnyIndicatorIff(text, Indicators);
    var k :| 0 <= k < |Indicators| && Contains(text, Lower(Indicators[k]));
    assert sender + ": " + (message + more) == (sender + ": " + message) + more;
    LowerAppend(sender + ": " + message, more);
    ContainsExtend(text, Lower(Indicators[k]), [], Lower(more));
    assert [] + text + Lower(more) == text + Lower(more);
    AnyIndicatorIff(Lower(sender + ": " + (message + more)), Indicators);
  }

  // ----- the line-by-line state machine -----

  /** The rows already closed, and the message still open (`current_message`). */
  datatype State = State(done: seq<Row>, current: Option<Row>)

  const Init := State([], None)

  /** What a header opens: a row, or nothing for a notice. */
  function Open(h: Header): Option<Row>
  {
    var sender := Strip(h.sender);
    if IsSystemMessage(sender, h.body) then None
    else Some(Row(ParseTimestamp(h.stamp), sender, Strip(h.body)))
  }

  /** The open message, as a list of zero or one rows. */
  function Closed(current: Option<Row>): seq<Row>
  {
    if current.Some? then [current.value] else []
  }

  /** What the loop body sees in a line: a header, with what it opens, or plain text,
      already stripped. */
  datatype Event = Heading(opens: Option<Row>) | Plain(text: string)

  function Classify(line: string): Event
  {
    match MatchHeader(line)
    case Some(h) => Heading(Open(h))
    case None => Plain(Strip(line))
  }

  function Classified(lines: seq<string>): (es: seq<Event>)
    ensures |es| == |lines|
  {
    seq(|lines|, k requires 0 <= k < |lines| => Classify(lines[k]))
  }

  /** One pass of the loop body: a header closes the open message and opens its own;
      a non-blank plain line extends the open message. */
  function Step(st: State, e: Event): State
  {
    match e
    case Heading(opens) => State(st.done + Closed(st.current), opens)
    case Plain(text) =>
      if st.current.Some? && text != [] then
        State(st.done, Some(st.current.value.(message := st.current.value.message + "\n" + text)))
      else st
  }

  /** The loop over `events` from state `st`. */
  function RunFrom(st: State, events: seq<Event>): State
    decreases |events|
  {
    if events == [] then st else RunFrom(Step(st, events[0]), events[1..])
  }

  /** The last open message is kept too. */
  function Finish(st: State): seq<Row>
  {
    st.done + Closed(st.current)
  }

  /** The rows `parse_whatsapp_chat` returns for a file's text. */
  function ParseChat(content: string): seq<Row>
  {
    Finish(RunFrom(Init, Classified(Split(content, '\n'))))
  }

  lemma {:induction false} RunFromSnoc(st: State, events: seq<Event>, e: Event)
    ensures RunFrom(st, events + [e]) == Step(RunFrom(st, events), e)
    decreases |events|
  {
    if events != [] {
      assert (events + [e])[1..] == events[1..] + [e];
      RunFromSnoc(Step(st, events[0]), events[1..], e);
    }
  }

  lemma {:induction false} RunFromAppend(st: State, a: seq<Event>, b: seq<Event>)
    ensures RunFrom(st, a + b) == RunFrom(RunFrom(st, a), b)
    decreases |a|
  {
    if a != [] {
      assert (a + b)[1..] == a[1..] + b;
      RunFromAppend(Step(st, a[0]), a[1..], b);
    } else {
      assert a + b == b;
    }
  }

  lemma ClassifyHeader(line: string, j: nat)
    requires j < |Shapes| && MatchShape(Shapes[j], line).Some?
    requires forall k :: 0 <= k < j ==> MatchShape(Shapes[k], line).None?
    ensures Classify(line) == Heading(Open(MatchShape(Shapes[j], line).value))
  {
    assert MatchHeader(line) == MatchShape(Shapes[j], line);
  }

  lemma ClassifyPlain(line: string)
    requires forall k :: 0 <= k < |Shapes| ==> MatchShape(Shapes[k], line).None?
    ensures Classify(line) == Plain(Strip(line))
  {
    assert MatchShape(Shapes[0], line).None? && MatchShape(Shapes[1], line).None?;
  }

  /** The body of the loop over lines in `parse_whatsapp_chat`: the two header shapes
      are tried in turn; the first that matches closes the open message and opens
      the header's own (or none, for a notice); when neither matches, a non-blank
      line is appended to the open message. */
  method ReadLine(line: string, messages: seq<Row>, current: Option<Row>)
    returns (messages': seq<Row>, current': Option<Row>)
    ensures State(messages', current') == Step(State(messages, current), Classify(line))
  {
    messages', current' := messages, current;
    var matched := false;
    var j := 0;
    while j < |Shapes|
      invariant 0 <= j <= |Shapes|
      invariant !matched
      invariant forall k :: 0 <= k < j ==> MatchShape(Shapes[k], line).None?
      invariant messages' == messages && current' == current
    {
      var m := MatchShape(Shapes[j], line);
      if m.Some? {
        ClassifyHeader(line, j);
        if current'.Some? {
          messages' := messages' + [current'.value];
        }
        var h := m.value;
        var timestamp := ParseTimestamp(h.stamp);
        var sender := Strip(h.sender);
        if IsSystemMessage(sender, h.body) {
          current' := None;
          matched := true;
          break;
        }
        current' := Some(Row(timestamp, sender, Strip(h.body)));
        matched := true;
        break;
      }
      j := j + 1;
    }
    if !matched {
      ClassifyPlain(line);
      if current'.Some? && Strip(line) != [] {
        current' := Some(current'.value.(message := current'.value.message + "\n" + Strip(line)));
      }
    }
  }

  /** `parse_whatsapp_chat`: the loop over the file's lines, then the last open
      message. */
  method ParseWhatsAppChat(content: string) returns (rows: seq<Row>)
    ensures rows == ParseChat(content)
  {
    var lines := Split(content, '\n');
    var messages, current := ReadLines(lines);
    rows := messages;
    if current.Some? {
      rows := rows + [current.value];
    }
    assert rows == Finish(State(messages, current));
  }

  /** The loop over the lines: each line read in turn. */
  method ReadLines(lines: seq<string>) returns (messages: seq<Row>, current: Option<Row>)
    ensures State(messages, current) == RunFrom(Init, Classified(lines))
  {
    ghost var es := Classified(lines);
    messages, current := [], None;
    var i := 0;
    while i < |lines|
      invariant 0 <= i <= |lines|
      invariant State(messages, current) == RunFrom(Init, es[..i])
    {
      messages, current := ReadLine(lines[i], messages, current);
      assert es[i] == Classify(lines[i]);
      PrefixStep(es, i);
      i := i + 1;
    }
    assert es[..|lines|] == es;
  }

  /** One more event read is one more step run. */
  lemma PrefixStep(es: seq<Event>, i: nat)
    requires i < |es|
    ensures RunFrom(Init, es[..i + 1]) == Step(RunFrom(Init, es[..i]), es[i])
  {
    assert es[..i + 1] == es[..i] + [es[i]];
    RunFromSnoc(Init, es[..i], es[i]);
  }

  // ----- the rows, described message by message -----

  /** What the plain lines after a header add to its message: each non-blank line,
      stripped, after a line break. */
  function Continuation(follow: seq<Event>): string
  {
    if follow == [] then []
    else
      var piece := if follow[0].Plain? && follow[0].text != [] then "\n" + follow[0].text else [];
      piece + Continuation(follow[1..])
  }

  /** Index of the first header at or after `from`, or `|es|`. */
  function NextHeading(es: seq<Event>, from: nat): (k: nat)
    requires from <= |es|
    ensures from <= k <= |es|
    ensures k < |es| ==> es[k].Heading?
    ensures forall m :: from <= m < k ==> es[m].Plain?
    decreases |es| - from
  {
    if from == |es| || es[from].Heading? then from else NextHeading(es, from + 1)
  }

  /** The rows of the blocks from header `i` on: a header and the plain lines up to
      the next header form one block, which gives one row unless the header is a
      notice. */
  function Blocks(es: seq<Event>, i: nat): seq<Row>
    requires i <= |es|
    decreases |es| - i
  {
    if i == |es| || es[i].Plain? then []
    else
      var j := NextHeading(es, i + 1);
      var own := match es[i].opens
                 case None => []
                 case Some(r) => [r.(message := r.message + Continuation(es[i + 1..j]))];
      own + Blocks(es, j)
  }

  /** The rows of a file, block by block; lines before the first header belong to
      no block. */
  function Segments(lines: seq<string>): seq<Row>
  {
    var es := Classified(lines);
    Blocks(es, NextHeading(es, 0))
  }

  function Absorb(current: Option<Row>, follow: seq<Event>): Option<Row>
  {
    if current.Some? then Some(current.value.(message := current.value.message + Continuation(follow)))
    else None
  }

  /** Plain lines only extend the open message. */
  lemma {:induction false} RunPlain(d: seq<Row>, c: Option<Row>, follow: seq<Event>)
    requires forall m :: 0 <= m < |follow| ==> follow[m].Plain?
    ensures RunFrom(State(d, c), follow) == State(d, Absorb(c, follow))
    decreases |follow|
  {
    if follow != [] {
      var text := follow[0].text;
      var piece: string := if text != [] then "\n" + text else [];
      var c1 := if c.Some? && text != [] then Some(c.value.(message := c.value.message + piece)) else c;
      if c.Some? && text != [] {
        assert c.value.message + "\n" + text == c.value.message + piece;
      }
      assert Step(State(d, c), follow[0]) == State(d, c1);
      RunPlain(d, c1, follow[1..]);
      assert Continuation(follow) == piece + Continuation(follow[1..]);
      if c.Some? {
        if text == [] {
          assert piece + Continuation(follow[1..]) == Continuation(follow[1..]);
        } else {
          assert c.value.message + piece + Continuation(follow[1..]) == c.value.message + Continuation(follow);
        }
      }
      assert Absorb(c1, follow[1..]) == Absorb(c, follow);
    } else {
      assert Absorb(c, follow) == c by {
        if c.Some? { assert c.value.message + [] == c.value.message; }
      }
    }
  }

  /** From a header on, the state machine produces the blocks' rows after the rows it
      already has and the message it holds open. */
  lemma {:induction false} RunBlocks(es: seq<Event>, i: nat, d: seq<Row>, c: Option<Row>)
    requires i <= |es| && (i == |es| || es[i].Heading?)
    ensures Finish(RunFrom(State(d, c), es[i..])) == d + Closed(c) + Blocks(es, i)
    decreases |es| - i
  {
    if i == |es| {
      assert es[i..] == [];
    } else {
      var j := NextHeading(es, i + 1);
      var d1 := d + Closed(c);
      var c2 := Absorb(es[i].opens, es[i + 1..j]);
      RunOneBlock(es, i, d, c);
      RunBlocks(es, j, d1, c2);
      BlocksStep(es, i);
      Regroup(d, Closed(c), Closed(c2), Blocks(es, j));
    }
  }

  lemma Regroup(a: seq<Row>, b: seq<Row>, x: seq<Row>, y: seq<Row>)
    ensures (a + b) + x + y == a + b + (x + y)
  {
  }

  /** Running over one block: the header closes the open message, its plain lines
      extend the message it opens. */
  lemma RunOneBlock(es: seq<Event>, i: nat, d: seq<Row>, c: Option<Row>)
    requires i < |es| && es[i].Heading?
    ensures var j := NextHeading(es, i + 1);
      RunFrom(State(d, c), es[i..]) == RunFrom(State(d + Closed(c), Absorb(es[i].opens, es[i + 1..j])), es[j..])
  {
    var j := NextHeading(es, i + 1);
    var d1 := d + Closed(c);
    var o := es[i].opens;
    assert Step(State(d, c), es[i]) == State(d1, o);
    assert RunFrom(State(d, c), es[i..]) == RunFrom(State(d1, o), es[i..][1..]);
    assert es[i..][1..] == es[i + 1..j] + es[j..];
    RunFromAppend(State(d1, o), es[i + 1..j], es[j..]);
    RunPlain(d1, o, es[i + 1..j]);
  }

  /** The rows of the blocks from header `i`: the row of its own block, then the
      rest. */
  lemma BlocksStep(es: seq<Event>, i: nat)
    requires i < |es| && es[i].Heading?
    ensures var j := NextHeading(es, i + 1);
      Blocks(es, i) == Closed(Absorb(es[i].opens, es[i + 1..j])) + Blocks(es, j)
  {
  }

  /** The rows of `parse_whatsapp_chat` are the rows of the blocks: every header
      line that is not a notice gives one row, whose message is the header's text
      followed by the non-blank lines up to the next header. */
  lemma ParseChatIsSegments(content: string)
    ensures ParseChat(content) == Segments(Split(content, '\n'))
  {
    var es := Classified(Split(content, '\n'));
    var i := NextHeading(es, 0);
    assert es == es[..i] + es[i..];
    RunFromAppend(Init, es[..i], es[i..]);
    RunPlain([], None, es[..i]);
    RunBlocks(es, i, [], None);
  }

  // ----- consequences -----

  /** A line opens a block exactly when it matches a header shape. */
  lemma ClassifyHeadingIff(line: string)
    ensures Classify(line).Heading? <==> IsHeader(line)
    ensures !IsHeader(line) ==> Classify(line) == Plain(Strip(line))
  {
  }

  function CountHeadings(es: seq<Event>): nat
  {
    if es == [] then 0 else (if es[0].Heading? then 1 else 0) + CountHeadings(es[1..])
  }

  lemma {:induction false} CountHeadingsFrom(es: seq<Event>, i: nat, j: nat)
    requires i <= j <= |es|
    requires forall m :: i <= m < j ==> es[m].Plain?
    ensures CountHeadings(es[i..]) == CountHeadings(es[j..])
    decreases j - i
  {
    if i < j {
      assert es[i..][1..] == es[i + 1..];
      CountHeadingsFrom(es, i + 1, j);
    }
  }

  lemma {:induction false} BlocksBound(es: seq<Event>, i: nat)
    requires i <= |es|
    ensures |Blocks(es, i)| <= CountHeadings(es[i..])
    decreases |es| - i
  {
    if i < |es| && es[i].Heading? {
      var j := NextHeading(es, i + 1);
      assert es[i..][1..] == es[i + 1..];
      CountHeadingsFrom(es, i + 1, j);
      BlocksBound(es, j);
    }
  }

  /** There are never more rows than header lines: every row comes from its own
      header. */
  lemma RowsAtMostHeaders(content: string)
    ensures |ParseChat(content)| <= CountHeadings(Classified(Split(content, '\n')))
  {
    var es := Classified(Split(content, '\n'));
    var i := NextHeading(es, 0);
    ParseChatIsSegments(content);
    assert es[0..] == es;
    CountHeadingsFrom(es, 0, i);
    BlocksBound(es, i);
  }

  /** Text without a single header line gives no rows, whatever else it holds. */
  lemma NoHeaderNoRows(content: string)
    requires forall line <- Split(content, '\n') :: !IsHeader(line)
    ensures ParseChat(content) == []
  {
    var lines := Split(content, '\n');
    var es := Classified(lines);
    forall m | 0 <= m < |es| ensures es[m].Plain? {
      ClassifyHeadingIff(lines[m]);
    }
    ParseChatIsSegments(content);
  }

  /** An empty file gives no rows. */
  lemma EmptyChat()
    ensures ParseChat("") == []
  {
    assert Split("", '\n') == [""];
    assert !IsHeader("");
    NoHeaderNoRows("");
  }

  /** Row `r` has the sender and timestamp that the header event `e` opened. */
  predicate OpenedBy(r: Row, e: Event)
  {
    e.Heading? && e.opens.Some? && e.opens.value.sender == r.sender && e.opens.value.timestamp == r.timestamp
  }

  /** Every row of the blocks carries the sender and timestamp that some header
      opened. */
  lemma {:induction false} BlocksProvenance(es: seq<Event>, i: nat)
    requires i <= |es|
    ensures forall r <- Blocks(es, i) :: exists k :: i <= k < |es| && OpenedBy(r, es[k])
    decreases |es| - i
  {
    if i < |es| && es[i].Heading? {
      var j := NextHeading(es, i + 1);
      BlocksProvenance(es, j);
    }
  }

  /** Row `r` has the sender and timestamp of header line `line`, which is not a
      notice. */
  predicate FromHeaderLine(r: Row, line: string)
  {
    && IsHeader(line)
    && var h := MatchHeader(line).value;
    && !IsSystemMessage(Strip(h.sender), h.body)
    && r.sender == Strip(h.sender)
    && r.timestamp == ParseTimestamp(h.stamp)
  }

  /** Every row comes from a header line that is not a notice: its sender is that
      header's sender, stripped, and its timestamp is that header's stamp parsed. */
  lemma RowsComeFromHeaders(content: string)
    ensures forall r <- ParseChat(content) ::
      exists k :: 0 <= k < |Split(content, '\n')| && FromHeaderLine(r, Split(content, '\n')[k])
  {
    var lines := Split(content, '\n');
    var es := Classified(lines);
    ParseChatIsSegments(content);
    BlocksProvenance(es, NextHeading(es, 0));
    forall r | r in ParseChat(content) ensures exists k :: 0 <= k < |lines| && FromHeaderLine(r, lines[k]) {
      var k :| 0 <= k < |es| && OpenedBy(r, es[k]);
      OpenedByLine(r, lines[k]);
    }
  }

  lemma OpenedByLine(r: Row, line: string)
    requires OpenedBy(r, Classify(line))
    ensures FromHeaderLine(r, line)
  {
  }

  /** Every timestamp in the table is a real calendar date-time, as a Python
      `datetime` always is. */
  predicate StampsValid(rows: seq<Row>)
  {
    forall r <- rows :: r.timestamp.Some? ==> Valid(r.timestamp.value)
  }

  lemma ParsedStampsValid(content: string)
    ensures StampsValid(ParseChat(content))
  {
    var lines := Split(content, '\n');
    RowsComeFromHeaders(content);
    forall r | r in ParseChat(content) && r.timestamp.Some? ensures Valid(r.timestamp.value) {
      var k :| 0 <= k < |lines| && FromHeaderLine(r, lines[k]);
      ParseTimestampValid(MatchHeader(lines[k]).value.stamp);
    }
  }

  // ----- one-line files -----

  /** A file of one line gives the row its header opens, or nothing. */
  lemma OneLineChat(line: string)
    requires '\n' !in line
    ensures ParseChat(line) == (match Classify(line) case Heading(opens) => Closed(opens) case Plain(_) => [])
  {
    SplitJoin([line], '\n');
    assert Join([line], "\n") == line;
    var e := Classify(line);
    assert Classified([line]) == [e];
    assert RunFrom(Init, [e]) == Step(Init, e) by {
      assert [e][1..] == [];
    }
  }

  /** No indicator fits in a text shorter than every indicator. */
  lemma {:induction false} NoIndicatorFits(text: string, indicators: seq<string>)
    requires forall ind <- indicators :: |ind| > |text|
    ensures !AnyIndicator(text, indicators)
    decreases |indicators|
  {
    if indicators != [] {
      assert indicators[0] in indicators;
      assert !Contains(text, Lower(indicators[0]));
      assert forall ind <- indicators[1..] :: ind in indicators;
      NoIndicatorFits(text, indicators[1..]);
    }
  }

  /** The shortest indicator has nine characters, so "sender: message" shorter than
      that is never a notice. */
  lemma ShortIsNotNotice(sender: string, message: string)
    requires |sender| + |message| < 7
    ensures !IsSystemMessage(sender, message)
  {
    assert forall ind <- Indicators :: |ind| >= 9;
    NoIndicatorFits(Lower(sender + ": " + message), Indicators);
  }

  /** A one-line file holding an exported message with a stamp in seconds, in the
      bracket style, gives exactly that message, its sender and its date-time,
      unless the line is a notice. */
  lemma BracketSecondsLineRow(dt: DateTime, sender: string, body: string)
    requires Valid(dt)
    requires sender != [] && !IsSpace(sender[0]) && !IsSpace(sender[|sender| - 1])
    requires ':' !in sender && '\n' !in sender
    requires body == [] || (!IsSpace(body[0]) && !IsSpace(body[|body| - 1]))
    requires '\n' !in body
    ensures var rows := ParseChat(BracketLine(ExportStampSeconds(dt), sender, body));
      rows == if IsSystemMessage(sender, body) then [] else [Row(Some(dt), sender, body)]
  {
    var stamp := ExportStampSeconds(dt);
    var line := BracketLine(stamp, sender, body);
    ExportStampSecondsShape(dt);
    BracketLineMatches(stamp, sender, body);
    SecondsStampParses(dt);
    StripUnchanged(sender);
    StripUnchanged(body);
    StampHasNoBreak(stamp);
    BracketLineHasNoBreak(stamp, sender, body);
    OneLineChat(line);
  }

  lemma StampHasNoBreak(s: string)
    requires ExportShape(s) || SecondsShape(s) || TightShape(s)
    ensures '\n' !in s
  {
    if TightShape(s) {
      assert forall k :: 0 <= k < |s| ==> s[k] != '\n';
    } else {
      var m := if ExportShape(s) then s else s[..17];
      assert ExportShape(m);
      forall k | 0 <= k < |s| ensures s[k] != '\n' {
        if k < 17 { assert s[k] == m[k]; }
      }
    }
  }

  lemma BracketLineHasNoBreak(stamp: string, sender: string, body: string)
    requires '\n' !in stamp && '\n' !in sender && '\n' !in body
    ensures '\n' !in BracketLine(stamp, sender, body)
  {
  }

  /** "[12/05/2023, 14:30:05] Bob: hi" is read with its seconds, day first. */
  lemma BracketSecondsExample()
    ensures ParseChat("[12/05/2023, 14:30:05] Bob: hi") == [Row(Some(DateTime(2023, 5, 12, 14, 30, 5)), "Bob", "hi")]
  {
    var dt := DateTime(2023, 5, 12, 14, 30, 5);
    ExampleStamp();
    ExampleLine();
    ShortIsNotNotice("Bob", "hi");
    BracketSecondsLineRow(dt, "Bob", "hi");
  }

  lemma ExampleStamp()
    ensures ExportStampSeconds(DateTime(2023, 5, 12, 14, 30, 5)) == "12/05/2023, 14:30:05"
  {
  }

  lemma ExampleLine()
    ensures BracketLine("12/05/2023, 14:30:05", "Bob", "hi") == "[12/05/2023, 14:30:05] Bob: hi"
  {
  }

  /** A one-line file holding an exported message in the dash style gives exactly that
      message, its sender and its date-time, unless the line is a notice. */
  lemma DashLineRow(dt: DateTime, sender: string, body: string)
    requires Valid(dt) && dt.second == 0
    requires sender != [] && !IsSpace(sender[0]) && !IsSpace(sender[|sender| - 1])
    requires ':' !in sender && '\n' !in sender
    requires body == [] || (!IsSpace(body[0]) && !IsSpace(body[|body| - 1]))
    requires '\n' !in body
    ensures var rows := ParseChat(DashLine(ExportStamp(dt), sender, body));
      rows == if IsSystemMessage(sender, body) then [] else [Row(Some(dt), sender, body)]
  {
    var stamp := ExportStamp(dt);
    var line := DashLine(stamp, sender, body);
    ExportStampShape(dt);
    ExportLineMatches(dt, sender, body);
    ExportStampParses(dt);
    StripUnchanged(sender);
    StripUnchanged(body);
    StampHasNoBreak(stamp);
    DashLineHasNoBreak(stamp, sender, body);
    OneLineChat(line);
  }

  lemma DashLineHasNoBreak(stamp: string, sender: string, body: string)
    requires '\n' !in stamp && '\n' !in sender && '\n' !in body
    ensures '\n' !in DashLine(stamp, sender, body)
  {
  }

  /** A message that quotes an indicator anywhere, in any case, is a notice. */
  lemma QuotesIndicator(sender: string, before: string, k: nat, after: string)
    requires k < |Indicators|
    ensures IsSystemMessage(sender, before + Indicators[k] + after)
  {
    var ind := Lower(Indicators[k]);
    var head := sender + ": " + before;
    assert sender + ": " + (before + Indicators[k] + after) == head + Indicators[k] + after;
    LowerAppend(head + Indicators[k], after);
    LowerAppend(head, Indicators[k]);
    assert Contains(ind, ind) by { assert ind[..|ind|] == ind; }
    ContainsExtend(ind, ind, Lower(head), Lower(after));
    AnyIndicatorIff(Lower(sender + ": " + (before + Indicators[k] + after)), Indicators);
  }

  /** The encryption notice that opens every export, written on 1 January 2024 at
      09:00, gives no row. */
  lemma EncryptionNoticeDropped()
    ensures ParseChat(DashLine("01/01/2024, 09:00", "Alice", "Messages and calls are end-to-end encrypted.")) == []
  {
    var body := "Messages and calls are end-to-end encrypted.";
    NoticeStamp();
    assert body == "" + Indicators[0] + ".";
    QuotesIndicator("Alice", "", 0, ".");
    NoticeBody();
    DashLineRow(DateTime(2024, 1, 1, 9, 0, 0), "Alice", body);
  }

  lemma NoticeBody()
    ensures var body := "Messages and calls are end-to-end encrypted.";
      !IsSpace(body[0]) && !IsSpace(body[|body| - 1]) && '\n' !in body
  {
    var body := "Messages and calls are end-to-end encrypted.";
    assert forall c <- body :: c != '\n';
  }

  lemma NoticeStamp()
    ensures ExportStamp(DateTime(2024, 1, 1, 9, 0, 0)) == "01/01/2024, 09:00"
  {
  }

  /** A one-line file whose dash header has no whitespace after the comma keeps its
      message, with no timestamp: the pattern matches, every layout rejects the stamp,
      and the later bracket pattern is not tried instead. */
  lemma TightLineRow(s: string, sender: string, body: string)
    requires TightShape(s)
    requires sender != [] && !IsSpace(sender[0]) && !IsSpace(sender[|sender| - 1])
    requires ':' !in sender && '\n' !in sender
    requires body == [] || (!IsSpace(body[0]) && !IsSpace(body[|body| - 1]))
    requires '\n' !in body
    ensures var rows := ParseChat(DashLine(s, sender, body));
      rows == if IsSystemMessage(sender, body) then [] else [Row(None, sender, body)]
  {
    var line := DashLine(s, sender, body);
    TightLineMatches(s, sender, body);
    TightStampRejected(s);
    StripUnchanged(sender);
    StripUnchanged(body);
    StampHasNoBreak(s);
    DashLineHasNoBreak(s, sender, body);
    OneLineChat(line);
  }

  /** "1/1/24,9:00 - A: x" gives the message "x" from A, with no timestamp. */
  lemma TightLineExample()
    ensures ParseChat("1/1/24,9:00 - A: x") == [Row(None, "A", "x")]
  {
    TightLineText();
    ShortIsNotNotice("A", "x");
    TightLineRow("1/1/24,9:00", "A", "x");
  }

  lemma TightLineText()
    ensures DashLine("1/1/24,9:00", "A", "x") == "1/1/24,9:00 - A: x"
  {
  }
}

