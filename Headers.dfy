/** The two header-line regular expressions of the WhatsApp parser
    (utils/parser.py:25-30), written as recognisers that return the three groups:

      Dash:    `(<stamp>)\s*-\s*([^:]+):\s*(.*)`
      Bracket: `\[(<stamp>)\]\s*([^:]+):\s*(.*)`
      <stamp>: `\d{1,2}/\d{1,2}/\d{2,4},\s*\d{1,2}:\d{2}(?::\d{2})?(?:\s*[APap][Mm])?`

    `re.match` anchors at the start of the line but not at its end. Every repeated or
    optional part of these patterns has only one choice that can lead to a match (a
    shorter digit run leaves a digit where a separator is needed, a skipped optional
    part leaves a ':' or a letter where '-' or ']' is needed), with one exception:
    in `\s*([^:]+):`, when nothing but whitespace lies between the separator and the
    first colon, `\s*` gives back its last character so that `[^:]+` can match it,
    and the sender group is that one whitespace character. */
module Headers {
  import opened Wrappers
  import opened Text
  import opened DateTimes

  /** The three groups of a header match: timestamp text, sender, message text. */
  datatype Header = Header(stamp: string, sender: string, body: string)

  /** The two line shapes, in the order they are tried. */
  datatype Shape = Dash | Bracket

  const Shapes: seq<Shape> := [Dash, Bracket]

  /** The maximal digit run at `i` has a length in `lo..hi` and is followed by `sep`;
      gives the index just after `sep`. */
  function DigitsThen(t: string, i: nat, lo: nat, hi: nat, sep: char): (r: Option<nat>)
    requires i <= |t|
    ensures r.Some? ==> i + lo + 1 <= r.value <= |t| && t[r.value - 1] == sep
    ensures r.Some? ==> forall k :: i <= k < r.value - 1 ==> IsDigit(t[k])
  {
    var n := DigitRun(t, i);
    if lo <= n <= hi && i + n < |t| && t[i + n] == sep then Some(i + n + 1) else None
  }

  /** End of the `<stamp>` group when it starts at `i`: a date, then a time. */
  function StampEnd(t: string, i: nat): (e: Option<nat>)
    requires i <= |t|
    ensures e.Some? ==> i < e.value <= |t| && IsDigit(t[i])
  {
    var p3 :- DateEnd(t, i);
    TimeEnd(t, p3)
  }

  /** `\d{1,2}/\d{1,2}/\d{2,4},` from `i`. */
  function DateEnd(t: string, i: nat): (e: Option<nat>)
    requires i <= |t|
    ensures e.Some? ==> i < e.value <= |t| && IsDigit(t[i])
  {
    var p1 :- DigitsThen(t, i, 1, 2, '/');
    assert IsDigit(t[i]);
    var p2 :- DigitsThen(t, p1, 1, 2, '/');
    DigitsThen(t, p2, 2, 4, ',')
  }

  /** `\s*\d{1,2}:\d{2}(?::\d{2})?(?:\s*[AaPp][Mm])?` from `p`. */
  function TimeEnd(t: string, p: nat): (e: Option<nat>)
    requires p <= |t|
    ensures e.Some? ==> p < e.value <= |t|
  {
    var p4 :- DigitsThen(t, SkipSpaces(t, p), 1, 2, ':');
    if !(p4 + 2 <= |t| && IsDigit(t[p4]) && IsDigit(t[p4 + 1])) then None
    else
      var p5 := p4 + 2;
      var p6 := if p5 + 3 <= |t| && t[p5] == ':' && IsDigit(t[p5 + 1]) && IsDigit(t[p5 + 2])
                then p5 + 3 else p5;
      var q := SkipSpaces(t, p6);
      var p7 := if q + 2 <= |t| && t[q] in "APap" && t[q + 1] in "Mm" then q + 2 else p6;
      Some(p7)
  }

  /** `\s*([^:]+):\s*(.*)` from `p`: the sender runs to the first colon, the message
      runs from the first non-whitespace character after it to the end of the line. */
  function SenderAndBody(t: string, p: nat): (r: Option<(string, string)>)
    requires p <= |t|
    ensures r.Some? ==> r.value.0 != [] && ':' !in r.value.0
    ensures r.Some? ==> (r.value.1 == [] || !IsSpace(r.value.1[0])) && '\n' !in r.value.1
  {
    var c := IndexOf(t, ':', p);
    if c == |t| then None
    else
      var w := SkipSpaces(t, p);
      if w == c && c == p then None
      else
        var sender := if w < c then t[w..c] else t[c - 1..c];
        var b := SkipSpaces(t, c + 1);
        var body := t[b..IndexOf(t, '\n', b)];
        assert ':' !in sender by {
          forall k | 0 <= k < |sender| ensures sender[k] != ':' {
            if w < c { assert sender[k] == t[w + k]; } else { assert sender[k] == t[c - 1]; }
          }
        }
        assert '\n' !in body by {
          forall k | 0 <= k < |body| ensures body[k] != '\n' { assert body[k] == t[b + k]; }
        }
        Some((sender, body))
  }

  /** The sender group needs a colon after the separator, and not right after it. */
  lemma SenderAndBodySome(t: string, p: nat)
    requires p <= |t|
    ensures SenderAndBody(t, p).Some? <==> p < |t| && t[p] != ':' && exists c :: p < c < |t| && t[c] == ':'
  {
    if IndexOf(t, ':', p) == |t| {
      assert forall c :: p < c < |t| ==> t[c] != ':';
    }
  }

  /** `re.match` of one shape against a line. */
  function MatchShape(shape: Shape, t: string): Option<Header>
  {
    match shape
    case Dash =>
      var e :- StampEnd(t, 0);
      DashTail(t, e)
    case Bracket =>
      if t == [] || t[0] != '[' then None
      else
        var e :- StampEnd(t, 1);
        BracketTail(t, e)
  }

  /** The dash shape once its stamp has ended at `e`: spaces, '-', then the sender
      and the message. */
  function DashTail(t: string, e: nat): Option<Header>
    requires e <= |t|
  {
    var d := SkipSpaces(t, e);
    if d == |t| || t[d] != '-' then None
    else
      var sb :- SenderAndBody(t, d + 1);
      Some(Header(t[..e], sb.0, sb.1))
  }

  /** The bracket shape once its stamp has ended at `e`: ']', then the sender and
      the message. */
  function BracketTail(t: string, e: nat): Option<Header>
    requires 1 <= e <= |t|
  {
    if e == |t| || t[e] != ']' then None
    else
      var sb :- SenderAndBody(t, e + 1);
      Some(Header(t[1..e], sb.0, sb.1))
  }

  /** The header groups of the first shape that matches the line. */
  function MatchHeader(t: string): Option<Header>
  {
    if MatchShape(Dash, t).Some? then MatchShape(Dash, t) else MatchShape(Bracket, t)
  }

  predicate IsHeader(t: string)
  {
    MatchHeader(t).Some?
  }

  // ----- properties -----

  /** What a match promises about its groups: the sender has no colon and is not
      empty, the message starts with a non-whitespace character and has no line
      break, and the line itself starts with a digit or '['. */
  lemma MatchHeaderGroups(t: string)
    requires IsHeader(t)
    ensures var h := MatchHeader(t).value;
      && h.sender != [] && ':' !in h.sender
      && (h.body == [] || !IsSpace(h.body[0]))
      && '\n' !in h.body
      && (IsDigit(t[0]) || t[0] == '[')
  {
    if MatchShape(Dash, t).Some? {
      var e := StampEnd(t, 0).value;
      assert DashTail(t, e).Some?;
    } else {
      var e := StampEnd(t, 1).value;
      assert BracketTail(t, e).Some?;
    }
  }

  /** The two shapes never both match: a dash header starts with a digit, a bracket
      header with '['. */
  lemma ShapesExclusive(t: string)
    ensures !(MatchShape(Dash, t).Some? && MatchShape(Bracket, t).Some?)
  {
  }

  // ----- the export format is read back -----

  /** A line as WhatsApp writes it: "<stamp> - <sender>: <message>". */
  function DashLine(stamp: string, sender: string, body: string): string
  {
    stamp + " - " + sender + ": " + body
  }

  /** A line written in the export format matches the dash shape, and the groups are
      the stamp, the sender and the message it was written from. */
  lemma ExportLineMatches(dt: DateTime, sender: string, body: string)
    requires Valid(dt)
    requires sender != [] && !IsSpace(sender[0]) && ':' !in sender
    requires (body == [] || !IsSpace(body[0])) && '\n' !in body
    ensures MatchHeader(DashLine(ExportStamp(dt), sender, body)) == Some(Header(ExportStamp(dt), sender, body))
  {
    ExportStampShape(dt);
    DashLineMatches(ExportStamp(dt), sender, body);
  }

  lemma DashLineMatches(s: string, sender: string, body: string)
    requires ExportShape(s)
    requires sender != [] && !IsSpace(sender[0]) && ':' !in sender
    requires (body == [] || !IsSpace(body[0])) && '\n' !in body
    ensures MatchHeader(DashLine(s, sender, body)) == Some(Header(s, sender, body))
  {
    var t := DashLine(s, sender, body);
    DashLineFacts(s, sender, body);
    DashMatchAt(t, 17, 18);
  }

  /** Where the parts of an exported dash line sit. */
  lemma DashLineFacts(s: string, sender: string, body: string)
    requires ExportShape(s)
    requires sender != [] && !IsSpace(sender[0]) && ':' !in sender
    requires (body == [] || !IsSpace(body[0])) && '\n' !in body
    ensures var t := DashLine(s, sender, body);
      && |t| > 19 && StampEnd(t, 0) == Some(17) && t[..17] == s
      && (forall k :: 17 <= k < 18 ==> IsSpace(t[k])) && t[18] == '-'
      && SenderAndBody(t, 19) == Some((sender, body))
  {
    DashLineStamp(s, sender, body);
    DashLineSender(s, sender, body);
  }

  lemma DashLineStamp(s: string, sender: string, body: string)
    requires ExportShape(s)
    ensures var t := DashLine(s, sender, body);
      && |t| > 19 && StampEnd(t, 0) == Some(17) && t[..17] == s
      && (forall k :: 17 <= k < 18 ==> IsSpace(t[k])) && t[18] == '-'
  {
    var t := DashLine(s, sender, body);
    DashLineLayout(s, sender, body);
    StampEndOfShape(s, t);
  }

  lemma DashLineSender(s: string, sender: string, body: string)
    requires |s| == 17
    requires sender != [] && !IsSpace(sender[0]) && ':' !in sender
    requires (body == [] || !IsSpace(body[0])) && '\n' !in body
    ensures SenderAndBody(DashLine(s, sender, body), 19) == Some((sender, body))
  {
    DashLineLayout(s, sender, body);
    SenderAndBodyAfter(s + " -", sender, body);
  }

  lemma DashLineLayout(s: string, sender: string, body: string)
    ensures var t := DashLine(s, sender, body);
      && t == (s + " -") + " " + sender + ": " + body
      && t[..|s| + 2] == s + " -" && t[..|s|] == s && t[|s|] == ' ' && t[|s| + 1] == '-'
  {
  }

  /** A dash match stated by positions: the stamp ends at `e`, the '-' sits at `d`. */
  lemma DashMatchAt(t: string, e: nat, d: nat)
    requires StampEnd(t, 0) == Some(e) && e < d < |t| && t[d] == '-'
    requires forall k :: e <= k < d ==> IsSpace(t[k])
    requires SenderAndBody(t, d + 1).Some?
    ensures var sb := SenderAndBody(t, d + 1).value;
      MatchHeader(t) == Some(Header(t[..e], sb.0, sb.1))
  {
    DashShapeAt(t, e, d);
  }

  lemma DashShapeAt(t: string, e: nat, d: nat)
    requires StampEnd(t, 0) == Some(e) && e < d < |t| && t[d] == '-'
    requires forall k :: e <= k < d ==> IsSpace(t[k])
    requires SenderAndBody(t, d + 1).Some?
    ensures var sb := SenderAndBody(t, d + 1).value;
      MatchShape(Dash, t) == Some(Header(t[..e], sb.0, sb.1))
  {
    SkipSpacesTo(t, e, d);
    DashTailAt(t, e, d);
  }

  lemma DashTailAt(t: string, e: nat, d: nat)
    requires e < d < |t| && SkipSpaces(t, e) == d && t[d] == '-'
    requires SenderAndBody(t, d + 1).Some?
    ensures var sb := SenderAndBody(t, d + 1).value;
      DashTail(t, e) == Some(Header(t[..e], sb.0, sb.1))
  {
  }

  lemma SenderAndBodyAfter(prefix: string, sender: string, body: string)
    requires sender != [] && !IsSpace(sender[0]) && ':' !in sender
    requires (body == [] || !IsSpace(body[0])) && '\n' !in body
    ensures var t := prefix + " " + sender + ": " + body;
      SenderAndBody(t, |prefix|) == Some((sender, body))
  {
    var t := prefix + " " + sender + ": " + body;
    var p := |prefix|;
    var c := p + 1 + |sender|;
    assert t[p] == ' ';
    assert t[p + 1..c] == sender;
    assert t[c] == ':' && t[c + 1] == ' ';
    assert t[c + 2..] == body;
    SenderAndBodyAt(t, p, c);
  }

  /** `SenderAndBody` on a line laid out as " <sender>: <message>" from `p`, stated
      by positions. */
  lemma SenderAndBodyAt(t: string, p: nat, c: nat)
    requires p + 1 < c && c + 2 <= |t|
    requires t[p] == ' ' && !IsSpace(t[p + 1]) && t[c] == ':' && t[c + 1] == ' '
    requires ':' !in t[p + 1..c]
    requires c + 2 == |t| || !IsSpace(t[c + 2])
    requires '\n' !in t[c + 2..]
    ensures SenderAndBody(t, p) == Some((t[p + 1..c], t[c + 2..]))
  {
    assert forall k :: p <= k < c ==> t[k] != ':' by {
      forall k | p < k < c ensures t[k] != ':' { assert t[k] == t[p + 1..c][k - p - 1]; }
    }
    assert IndexOf(t, ':', p) == c;
    assert SkipSpaces(t, p) == p + 1;
    assert SkipSpaces(t, c + 1) == c + 2;
    assert forall k :: c + 2 <= k < |t| ==> t[k] != '\n' by {
      forall k | c + 2 <= k < |t| ensures t[k] != '\n' { assert t[k] == t[c + 2..][k - c - 2]; }
    }
    assert IndexOf(t, '\n', c + 2) == |t|;
    assert t[c + 2..|t|] == t[c + 2..];
  }

  lemma DigitsThenAt(t: string, i: nat, n: nat, lo: nat, hi: nat, sep: char)
    requires i + n < |t| && t[i + n] == sep && !IsDigit(sep) && lo <= n <= hi
    requires forall k :: i <= k < i + n ==> IsDigit(t[k])
    ensures DigitsThen(t, i, lo, hi, sep) == Some(i + n + 1)
  {
  }

  lemma StampEndOfShape(s: string, t: string)
    requires ExportShape(s)
    requires |t| >= 19 && t[..19] == s + " -"
    ensures StampEnd(t, 0) == Some(17)
  {
    assert forall k :: 0 <= k < 17 ==> t[k] == s[k];
    assert t[17] == ' ' && t[18] == '-';
    StampEndAt(t);
  }

  lemma StampEndAt(t: string)
    requires |t| >= 19 && t[2] == '/' && t[5] == '/' && t[10] == ',' && t[11] == ' ' && t[14] == ':'
    requires forall k :: 0 <= k < 17 && k !in {2, 5, 10, 11, 14} ==> IsDigit(t[k])
    requires t[17] == ' ' && t[18] == '-'
    ensures StampEnd(t, 0) == Some(17)
  {
    DateEndAt(t);
    TimeEndAt(t);
  }

  lemma DateEndAt(t: string)
    requires |t| >= 11 && t[2] == '/' && t[5] == '/' && t[10] == ','
    requires forall k :: 0 <= k < 10 && k !in {2, 5} ==> IsDigit(t[k])
    ensures DateEnd(t, 0) == Some(11)
  {
    DigitsThenAt(t, 0, 2, 1, 2, '/');
    DigitsThenAt(t, 3, 2, 1, 2, '/');
    DigitsThenAt(t, 6, 4, 2, 4, ',');
  }

  lemma TimeEndAt(t: string)
    requires |t| >= 19 && t[11] == ' ' && t[14] == ':' && t[17] == ' ' && t[18] == '-'
    requires forall k :: 12 <= k < 17 && k != 14 ==> IsDigit(t[k])
    ensures TimeEnd(t, 11) == Some(17)
  {
    assert IsDigit(t[12]);
    assert SkipSpaces(t, 11) == 12;
    DigitsThenAt(t, 12, 2, 1, 2, ':');
    assert IsDigit(t[15]) && IsDigit(t[16]);
    assert SkipSpaces(t, 17) == 18;
    assert t[18] !in "APap";
  }

  /** A dash line whose stamp has no whitespace after the comma still matches the
      dash shape: the pattern's `\s*` accepts the missing space. */
  lemma TightLineMatches(s: string, sender: string, body: string)
    requires TightShape(s)
    requires sender != [] && !IsSpace(sender[0]) && ':' !in sender
    requires (body == [] || !IsSpace(body[0])) && '\n' !in body
    ensures MatchHeader(DashLine(s, sender, body)) == Some(Header(s, sender, body))
  {
    var t := DashLine(s, sender, body);
    TightLineStamp(s, sender, body);
    TightLineSender(s, sender, body);
    DashMatchAt(t, 11, 12);
  }

  lemma TightLineStamp(s: string, sender: string, body: string)
    requires TightShape(s)
    ensures var t := DashLine(s, sender, body);
      && |t| > 13 && StampEnd(t, 0) == Some(11) && t[..11] == s
      && (forall k :: 11 <= k < 12 ==> IsSpace(t[k])) && t[12] == '-'
  {
    var t := DashLine(s, sender, body);
    DashLineLayout(s, sender, body);
    assert forall k :: 0 <= k < 11 ==> t[k] == s[k];
    TightDateEnd(t);
    TightTimeEnd(t);
  }

  lemma TightLineSender(s: string, sender: string, body: string)
    requires |s| == 11
    requires sender != [] && !IsSpace(sender[0]) && ':' !in sender
    requires (body == [] || !IsSpace(body[0])) && '\n' !in body
    ensures SenderAndBody(DashLine(s, sender, body), 13) == Some((sender, body))
  {
    DashLineLayout(s, sender, body);
    SenderAndBodyAfter(s + " -", sender, body);
  }

  lemma TightDateEnd(t: string)
    requires |t| >= 7 && t[1] == '/' && t[3] == '/' && t[6] == ','
    requires forall k :: 0 <= k < 6 && k !in {1, 3} ==> IsDigit(t[k])
    ensures DateEnd(t, 0) == Some(7)
  {
    DigitsThenAt(t, 0, 1, 1, 2, '/');
    DigitsThenAt(t, 2, 1, 1, 2, '/');
    DigitsThenAt(t, 4, 2, 2, 4, ',');
  }

  lemma TightTimeEnd(t: string)
    requires |t| >= 13 && t[8] == ':' && t[11] == ' ' && t[12] == '-'
    requires forall k :: 7 <= k < 11 && k != 8 ==> IsDigit(t[k])
    ensures TimeEnd(t, 7) == Some(11)
  {
    assert IsDigit(t[7]);
    assert SkipSpaces(t, 7) == 7;
    DigitsThenAt(t, 7, 1, 1, 2, ':');
    assert IsDigit(t[9]) && IsDigit(t[10]);
    assert SkipSpaces(t, 11) == 12;
    assert t[12] !in "APap";
  }

  /** A line as WhatsApp writes it in the bracket style: "[<stamp>] <sender>: <message>". */
  function BracketLine(stamp: string, sender: string, body: string): string
  {
    "[" + stamp + "] " + sender + ": " + body
  }

  /** A bracket line whose stamp is written with or without seconds matches the
      bracket shape (the dash shape needs a digit first), and the groups are the
      stamp, the sender and the message it was written from. */
  lemma BracketLineMatches(s: string, sender: string, body: string)
    requires ExportShape(s) || SecondsShape(s)
    requires sender != [] && !IsSpace(sender[0]) && ':' !in sender
    requires (body == [] || !IsSpace(body[0])) && '\n' !in body
    ensures MatchHeader(BracketLine(s, sender, body)) == Some(Header(s, sender, body))
  {
    var t := BracketLine(s, sender, body);
    BracketLineStamp(s, sender, body);
    BracketLineSender(s, sender, body);
    BracketMatchAt(t, |s| + 1);
  }

  /** A bracket match stated by positions: the stamp ends at `e`, where ']' sits. */
  lemma BracketMatchAt(t: string, e: nat)
    requires t != [] && t[0] == '[' && StampEnd(t, 1) == Some(e) && e < |t| && t[e] == ']'
    requires SenderAndBody(t, e + 1).Some?
    ensures var sb := SenderAndBody(t, e + 1).value;
      MatchHeader(t) == Some(Header(t[1..e], sb.0, sb.1))
  {
    assert MatchShape(Dash, t).None? by {
      assert !IsDigit(t[0]);
    }
    BracketShapeAt(t, e);
  }

  lemma BracketShapeAt(t: string, e: nat)
    requires t != [] && t[0] == '[' && StampEnd(t, 1) == Some(e) && e < |t| && t[e] == ']'
    requires SenderAndBody(t, e + 1).Some?
    ensures var sb := SenderAndBody(t, e + 1).value;
      MatchShape(Bracket, t) == Some(Header(t[1..e], sb.0, sb.1))
  {
    BracketTailAt(t, e);
  }

  lemma BracketTailAt(t: string, e: nat)
    requires 1 <= e < |t| && t[e] == ']'
    requires SenderAndBody(t, e + 1).Some?
    ensures var sb := SenderAndBody(t, e + 1).value;
      BracketTail(t, e) == Some(Header(t[1..e], sb.0, sb.1))
  {
  }

  lemma BracketLineStamp(s: string, sender: string, body: string)
    requires ExportShape(s) || SecondsShape(s)
    ensures var t := BracketLine(s, sender, body);
      && |t| > |s| + 1 && t[0] == '[' && t[1..|s| + 1] == s && t[|s| + 1] == ']'
      && StampEnd(t, 1) == Some(|s| + 1)
  {
    BracketLineLayout(s, sender, body);
    BracketStampOf(s, BracketLine(s, sender, body));
  }

  lemma BracketLineSender(s: string, sender: string, body: string)
    requires sender != [] && !IsSpace(sender[0]) && ':' !in sender
    requires (body == [] || !IsSpace(body[0])) && '\n' !in body
    ensures SenderAndBody(BracketLine(s, sender, body), |s| + 2) == Some((sender, body))
  {
    BracketLineLayout(s, sender, body);
    SenderAndBodyAfter("[" + s + "]", sender, body);
  }

  lemma BracketLineLayout(s: string, sender: string, body: string)
    ensures var t := BracketLine(s, sender, body);
      && t == ("[" + s + "]") + " " + sender + ": " + body
      && |t| > |s| + 2 && t[0] == '[' && t[1..|s| + 1] == s && t[|s| + 1] == ']'
  {
  }

  /** The stamp of a bracket line, with or without seconds, ends at its ']'. */
  lemma BracketStampOf(s: string, t: string)
    requires ExportShape(s) || SecondsShape(s)
    requires |t| > |s| + 1 && t[0] == '[' && t[1..|s| + 1] == s && t[|s| + 1] == ']'
    ensures StampEnd(t, 1) == Some(|s| + 1)
  {
    var m := s[..17];
    assert ExportShape(m) by {
      if ExportShape(s) { assert m == s; }
    }
    forall k | 0 <= k < |s| ensures t[k + 1] == s[k] {
      assert t[1..|s| + 1][k] == s[k];
    }
    forall k | 0 <= k < 17 ensures t[k + 1] == m[k] {
      assert s[k] == m[k];
    }
    assert IsDigit(m[12]) && IsDigit(m[13]) && IsDigit(m[15]) && IsDigit(m[16]);
    assert forall k :: 1 <= k < 11 && k !in {3, 6} ==> IsDigit(t[k]) by {
      forall k | 1 <= k < 11 && k !in {3, 6} ensures IsDigit(t[k]) {
        assert t[k] == m[k - 1];
      }
    }
    BracketDateAt(t);
    BracketTimeAt(t, |s| + 1);
  }

  lemma BracketDateAt(t: string)
    requires |t| > 12 && t[3] == '/' && t[6] == '/' && t[11] == ','
    requires forall k :: 1 <= k < 11 && k !in {3, 6} ==> IsDigit(t[k])
    ensures DateEnd(t, 1) == Some(12)
  {
    DigitsThenAt(t, 1, 2, 1, 2, '/');
    DigitsThenAt(t, 4, 2, 1, 2, '/');
    DigitsThenAt(t, 7, 4, 2, 4, ',');
  }

  lemma BracketTimeAt(t: string, e: nat)
    requires (e == 18 || e == 21) && e < |t| && t[e] == ']'
    requires t[12] == ' ' && t[15] == ':'
    requires IsDigit(t[13]) && IsDigit(t[14]) && IsDigit(t[16]) && IsDigit(t[17])
    requires e == 21 ==> t[18] == ':' && IsDigit(t[19]) && IsDigit(t[20])
    ensures TimeEnd(t, 12) == Some(e)
  {
    assert SkipSpaces(t, 12) == 13;
    DigitsThenAt(t, 13, 2, 1, 2, ':');
    assert SkipSpaces(t, e) == e;
    assert t[e] !in "APap";
  }
}
