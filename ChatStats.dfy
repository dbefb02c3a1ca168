/** `get_participants` and `get_chat_stats` (utils/parser.py:143-173): read-only
    summaries of the parsed table. */
module ChatStats {
  import opened Wrappers
  import opened Text
  import opened DateTimes
  import opened Sorting
  import opened Parser

  /** The sender column. */
  function Senders(rows: seq<Row>): (r: seq<string>)
    ensures |r| == |rows|
    ensures forall i :: 0 <= i < |rows| ==> r[i] == rows[i].sender
  {
    seq(|rows|, i requires 0 <= i < |rows| => rows[i].sender)
  }

  /** The senders are exactly the names that some row carries. */
  lemma SendersIff(rows: seq<Row>, name: string)
    ensures name in Senders(rows) <==> exists r <- rows :: r.sender == name
  {
    var s := Senders(rows);
    if name in s {
      var i :| 0 <= i < |s| && s[i] == name;
      assert rows[i] in rows;
    }
    if r :| r in rows && r.sender == name {
      var i :| 0 <= i < |rows| && rows[i] == r;
      assert s[i] == name;
    }
  }

  /** `get_participants`: every sender once, in ascending order, and nothing else;
      as many names as there are distinct senders. */
  function GetParticipants(rows: seq<Row>): (r: seq<string>)
    ensures StrictlySorted(r)
    ensures forall name :: name in r <==> name in Senders(rows)
    ensures |r| == |Elements(Senders(rows))|
    ensures rows == [] ==> r == []
  {
    var r := SortedDistinct(Senders(rows));
    StrictlySortedCard(r);
    assert Elements(r) == Elements(Senders(rows));
    r
  }

  /** A name is listed exactly when some row was sent by it. */
  lemma ParticipantsAreSenders(rows: seq<Row>, name: string)
    ensures name in GetParticipants(rows) <==> exists r <- rows :: r.sender == name
  {
    SendersIff(rows, name);
  }

  // ----- statistics -----

  /** `df['timestamp'].dropna()`: the timestamps that are present, in row order. */
  function Stamps(rows: seq<Row>): (ts: seq<DateTime>)
    ensures |ts| <= |rows|
    ensures forall t <- ts :: Some(t) in Timestamps(rows)
    ensures forall row <- rows :: row.timestamp.Some? ==> row.timestamp.value in ts
    decreases |rows|
  {
    if rows == [] then []
    else
      var rest := Stamps(rows[1..]);
      assert forall t <- rest :: Some(t) in Timestamps(rows) by {
        forall t | t in rest ensures Some(t) in Timestamps(rows) {
          var i :| 0 <= i < |rows[1..]| && rows[1..][i].timestamp == Some(t);
          assert Timestamps(rows)[i + 1] == Some(t);
        }
      }
      assert forall row <- rows :: row == rows[0] || row in rows[1..] by {
        forall row | row in rows ensures row == rows[0] || row in rows[1..] {
          var i :| 0 <= i < |rows| && rows[i] == row;
          if i > 0 { assert rows[1..][i - 1] == row; }
        }
      }
      if rows[0].timestamp.Some? then
        assert Timestamps(rows)[0] == rows[0].timestamp;
        [rows[0].timestamp.value] + rest
      else rest
  }

  /** The timestamp column. */
  function Timestamps(rows: seq<Row>): (r: seq<Option<DateTime>>)
    ensures |r| == |rows|
    ensures forall i :: 0 <= i < |rows| ==> r[i] == rows[i].timestamp
  {
    seq(|rows|, i requires 0 <= i < |rows| => rows[i].timestamp)
  }

  /** Every present timestamp is kept: the list is empty only when every row lacks
      one. */
  lemma {:induction false} StampsEmptyIff(rows: seq<Row>)
    ensures Stamps(rows) == [] <==> forall r <- rows :: r.timestamp.None?
    decreases |rows|
  {
    if rows != [] {
      StampsEmptyIff(rows[1..]);
      if Stamps(rows) == [] {
        forall r | r in rows ensures r.timestamp.None? {
          var i :| 0 <= i < |rows| && rows[i] == r;
          if i > 0 { assert rows[1..][i - 1] == r; }
        }
      }
    }
  }

  datatype Stats = Stats(totalMessages: nat, participants: nat, dateRange: string)

  const NotAvailable := "N/A"

  /** "<earliest> - <latest>", both as "Mon DD, YYYY". */
  function DateRange(lo: DateTime, hi: DateTime): (r: string)
    requires Valid(lo) && Valid(hi)
    ensures |r| == 27
  {
    ShortDateRoundTrip(lo);
    ShortDateRoundTrip(hi);
    ShortDate(lo) + " - " + ShortDate(hi)
  }

  /** `get_chat_stats`: the number of rows, the number of distinct senders (never
      more than the rows), and a date range that is "N/A" exactly when no row has a
      timestamp. */
  function GetChatStats(rows: seq<Row>): (r: Stats)
    requires StampsValid(rows)
    ensures rows == [] ==> r == Stats(0, 0, NotAvailable)
    ensures r.totalMessages == |rows|
    ensures r.participants == |Elements(Senders(rows))| <= |rows|
    ensures r.dateRange == NotAvailable <==> forall row <- rows :: row.timestamp.None?
  {
    if rows == [] then Stats(0, 0, NotAvailable)
    else
      DistinctAtMostLength(Senders(rows));
      StampsEmptyIff(rows);
      var ts := Stamps(rows);
      if ts == [] then Stats(|rows|, |Elements(Senders(rows))|, NotAvailable)
      else
        StampValid(rows, Earliest(ts));
        StampValid(rows, Latest(ts));
        Stats(|rows|, |Elements(Senders(rows))|, DateRange(Earliest(ts), Latest(ts)))
  }

  lemma StampValid(rows: seq<Row>, t: DateTime)
    requires StampsValid(rows) && t in Stamps(rows)
    ensures Valid(t)
  {
    var i :| 0 <= i < |rows| && Timestamps(rows)[i] == Some(t);
    assert rows[i] in rows;
  }

  /** When some row has a timestamp, the date range names the calendar date of the
      earliest and of the latest timestamp present. */
  lemma DateRangeSpan(rows: seq<Row>)
    requires StampsValid(rows)
    requires exists row <- rows :: row.timestamp.Some?
    ensures var d := GetChatStats(rows).dateRange;
      && |d| == 27 && d[12..15] == " - "
      && (exists lo <- Stamps(rows) :: (forall t <- Stamps(rows) :: !Before(t, lo))
           && ParseShortDate(d[..12]) == Some((lo.year, lo.month, lo.day)))
      && (exists hi <- Stamps(rows) :: (forall t <- Stamps(rows) :: !Before(hi, t))
           && ParseShortDate(d[15..]) == Some((hi.year, hi.month, hi.day)))
  {
    StampsEmptyIff(rows);
    var ts := Stamps(rows);
    var lo, hi := Earliest(ts), Latest(ts);
    StampValid(rows, lo);
    StampValid(rows, hi);
    assert GetChatStats(rows).dateRange == DateRange(lo, hi);
    DateRangeParts(lo, hi);
  }

  lemma DateRangeParts(lo: DateTime, hi: DateTime)
    requires Valid(lo) && Valid(hi)
    ensures var d := DateRange(lo, hi);
      && |d| == 27 && d[12..15] == " - "
      && ParseShortDate(d[..12]) == Some((lo.year, lo.month, lo.day))
      && ParseShortDate(d[15..]) == Some((hi.year, hi.month, hi.day))
  {
    ShortDateRoundTrip(lo);
    ShortDateRoundTrip(hi);
    var d := DateRange(lo, hi);
    assert d == ShortDate(lo) + " - " + ShortDate(hi);
    assert d[..12] == ShortDate(lo) && d[15..] == ShortDate(hi);
  }

  /** A single message sent on 5 January 2024 spans "Jan 05, 2024 - Jan 05, 2024". */
  lemma OneDayRange(sender: string, message: string)
    ensures GetChatStats([Row(Some(DateTime(2024, 1, 5, 14, 30, 0)), sender, message)])
         == Stats(1, 1, "Jan 05, 2024 - Jan 05, 2024")
  {
    var dt := DateTime(2024, 1, 5, 14, 30, 0);
    assert Valid(dt);
    FifthOfJanuary();
    var range := DateRange(dt, dt);
    assert range == "Jan 05, 2024 - Jan 05, 2024";
    var rows := [Row(Some(dt), sender, message)];
    assert Stamps(rows) == [dt];
    assert Senders(rows) == [sender];
    assert Elements([sender]) == {sender};
  }

  lemma FifthOfJanuary()
    ensures ShortDate(DateTime(2024, 1, 5, 14, 30, 0)) == "Jan 05, 2024"
  {
    assert PadDecimal(5, 2) == "05" by {
      assert PadDecimal(5, 1) == "5";
    }
    assert PadDecimal(2024, 4) == "2024" by {
      assert PadDecimal(2, 1) == "2";
      assert PadDecimal(20, 2) == "20";
      assert PadDecimal(202, 3) == "202";
    }
  }
}
