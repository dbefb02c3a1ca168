/** `count_word` (utils/analytics.py:11-60): how often a word occurs, in total and
    per sender. */
module Analytics {
  import opened Wrappers
  import opened Text
  import opened Sorting
  import opened Parser
  import opened ChatStats

  // ----- the participant filter -----

  /** `participant and participant != 'All'`: an empty name, like no name or "All",
      selects every sender. */
  predicate Selects(participant: Option<string>)
  {
    participant.Some? && participant.value != "" && participant.value != "All"
  }

  /** The rows whose sender is `name`, in their order. */
  function FromSender(rows: seq<Row>, name: string): (r: seq<Row>)
    ensures forall row :: multiset(r)[row] == if row.sender == name then multiset(rows)[row] else 0
    decreases |rows|
  {
    if rows == [] then []
    else
      assert rows == [rows[0]] + rows[1..];
      (if rows[0].sender == name then [rows[0]] else []) + FromSender(rows[1..], name)
  }

  /** `df[df['sender'] == participant]` when a participant is selected, else every row. */
  function Filtered(rows: seq<Row>, participant: Option<string>): seq<Row>
  {
    if Selects(participant) then FromSender(rows, participant.value) else rows
  }

  /** With a participant selected exactly that sender's rows remain; otherwise all. */
  lemma FilteredRows(rows: seq<Row>, participant: Option<string>)
    ensures !Selects(participant) ==> Filtered(rows, participant) == rows
    ensures Selects(participant) ==> forall row ::
      row in Filtered(rows, participant) <==> row in rows && row.sender == participant.value
  {
    if Selects(participant) {
      var r := Filtered(rows, participant);
      forall row ensures row in r <==> row in rows && row.sender == participant.value {
        assert row in r <==> multiset(r)[row] > 0;
        assert row in rows <==> multiset(rows)[row] > 0;
      }
    }
  }

  // ----- matches of one word -----

  /** Where `re.findall` finds the literal `pat` in `t` from position `i`: the
      leftmost occurrence, then the leftmost one after it, and so on. */
  function Matches(t: string, pat: string, i: nat): (ps: seq<nat>)
    requires pat != [] && i <= |t|
    ensures forall k :: 0 <= k < |ps| ==> i <= ps[k] && OccursAt(t, pat, ps[k])
    ensures forall k :: 0 < k < |ps| ==> ps[k - 1] + |pat| <= ps[k]
    decreases |t| - i
  {
    if i + |pat| > |t| then []
    else if t[i..i + |pat|] == pat then [i] + Matches(t, pat, i + |pat|)
    else Matches(t, pat, i + 1)
  }

  /** No occurrence is missed: each one overlaps a match that starts at or before it. */
  lemma {:induction false} MatchesMaximal(t: string, pat: string, i: nat, q: nat) returns (m: nat)
    requires pat != [] && i <= |t|
    requires i <= q && OccursAt(t, pat, q)
    ensures m in Matches(t, pat, i) && m <= q < m + |pat|
    decreases |t| - i
  {
    var ps := Matches(t, pat, i);
    assert i + |pat| <= |t|;
    if t[i..i + |pat|] == pat {
      var rest := Matches(t, pat, i + |pat|);
      assert ps == [i] + rest;
      if q >= i + |pat| {
        m := MatchesMaximal(t, pat, i + |pat|, q);
      } else {
        m := i;
      }
    } else {
      assert q != i;
      assert ps == Matches(t, pat, i + 1);
      m := MatchesMaximal(t, pat, i + 1, q);
    }
  }

  /** The matches never overlap, so they fit in the text. */
  lemma {:induction false} MatchesFit(t: string, pat: string, i: nat)
    requires pat != [] && i <= |t|
    ensures |Matches(t, pat, i)| * |pat| <= |t| - i
    decreases |t| - i
  {
    if i + |pat| <= |t| {
      if t[i..i + |pat|] == pat {
        MatchesFit(t, pat, i + |pat|);
      } else {
        MatchesFit(t, pat, i + 1);
      }
    }
  }

  /** `len(re.compile(re.escape(word), re.IGNORECASE).findall(text))`. An empty
      word matches at every position, the end of the text included. */
  function CountMatches(text: string, word: string): nat
  {
    if word == [] then |text| + 1 else |Matches(Lower(text), Lower(word), 0)|
  }

  /** A non-empty word is counted at least once exactly when it occurs, ignoring
      case, and never more often than it fits in the text. */
  lemma CountMatchesMeaning(text: string, word: string)
    requires word != []
    ensures CountMatches(text, word) > 0 <==> Contains(Lower(text), Lower(word))
    ensures CountMatches(text, word) * |word| <= |text|
  {
    var t, p := Lower(text), Lower(word);
    ContainsIff(t, p);
    MatchesFit(t, p, 0);
    if q :| OccursAt(t, p, q) {
      var m := MatchesMaximal(t, p, 0, q);
    }
    if CountMatches(text, word) > 0 {
      assert OccursAt(t, p, Matches(t, p, 0)[0]);
    }
  }

  /** "pizza" is found once in "PIZZA is great". */
  lemma PizzaOnce()
    ensures CountMatches("PIZZA is great", "pizza") == 1
  {
    var t := Lower("PIZZA is great");
    assert t == "pizza is great";
    assert Lower("pizza") == "pizza";
    forall q | 5 <= q ensures !OccursAt(t, "pizza", q) {
      assert q + 5 > |t| || t[q..q + 5][0] != 'p';
    }
    MatchesNone(t, "pizza", 5);
  }

  /** "pizza" is found once in "i love pizza". */
  lemma LovePizzaOnce()
    ensures CountMatches("i love pizza", "pizza") == 1
  {
    var t := Lower("i love pizza");
    LowerUnchanged("i love pizza");
    assert Lower("pizza") == "pizza";
    forall q | 0 <= q < 7 ensures !OccursAt(t, "pizza", q) {
      assert t[q..q + 5][0] != 'p';
    }
    MatchesSkip(t, "pizza", 0, 7);
    assert t[7..12] == "pizza";
    assert Matches(t, "pizza", 12) == [];
  }

  lemma LowerUnchanged(s: string)
    requires forall k :: 0 <= k < |s| ==> !IsUpper(s[k])
    ensures Lower(s) == s
  {
  }

  /** Positions where the word does not occur are passed over. */
  lemma {:induction false} MatchesSkip(t: string, pat: string, i: nat, j: nat)
    requires pat != [] && i <= j && j + |pat| <= |t|
    requires forall q :: i <= q < j ==> !OccursAt(t, pat, q)
    ensures Matches(t, pat, i) == Matches(t, pat, j)
    decreases j - i
  {
    if i < j {
      assert !OccursAt(t, pat, i);
      MatchesSkip(t, pat, i + 1, j);
    }
  }

  lemma {:induction false} MatchesNone(t: string, pat: string, i: nat)
    requires pat != [] && i <= |t|
    requires forall q :: i <= q ==> !OccursAt(t, pat, q)
    ensures Matches(t, pat, i) == []
    decreases |t| - i
  {
    if i + |pat| <= |t| {
      assert !OccursAt(t, pat, i);
      MatchesNone(t, pat, i + 1);
    }
  }

  // ----- per-sender totals -----

  /** Each row's sender with the number of matches in its message. */
  function Tallies(rows: seq<Row>, word: string): (r: seq<(string, nat)>)
    ensures |r| == |rows|
    ensures forall i :: 0 <= i < |rows| ==> r[i] == (rows[i].sender, CountMatches(rows[i].message, word))
  {
    seq(|rows|, i requires 0 <= i < |rows| => (rows[i].sender, CountMatches(rows[i].message, word)))
  }

  /** The sum of the counts filed under `name`. */
  function SumFor(name: string, ts: seq<(string, nat)>): nat
  {
    if ts == [] then 0 else (if ts[0].0 == name then ts[0].1 else 0) + SumFor(name, ts[1..])
  }

  /** `groupby(key)[count].sum()` over the given keys, in their order. */
  function Grouped(keys: seq<string>, ts: seq<(string, nat)>): (r: seq<(string, nat)>)
    ensures |r| == |keys|
    ensures forall i :: 0 <= i < |keys| ==> r[i] == (keys[i], SumFor(keys[i], ts))
  {
    if keys == [] then [] else [(keys[0], SumFor(keys[0], ts))] + Grouped(keys[1..], ts)
  }

  datatype WordCount = WordCount(total: nat, byParticipant: seq<(string, nat)>)

  /** `count_word`: the matches in every selected row, and per sender the nonzero
      totals, largest first. */
  function CountWord(rows: seq<Row>, word: string, participant: Option<string>): (r: WordCount)
    ensures Filtered(rows, participant) == [] ==> r == WordCount(0, [])
  {
    var filtered := Filtered(rows, participant);
    if filtered == [] then WordCount(0, [])
    else
      var ts := Tallies(filtered, word);
      var groups := Grouped(SortedDistinct(Senders(filtered)), ts);
      WordCount(SumCounts(ts), DropZeros(SortByCountDesc(groups)))
  }

  /** No rows, nothing found. */
  lemma CountWordEmpty(word: string, participant: Option<string>)
    ensures CountWord([], word, participant) == WordCount(0, [])
  {
    if Selects(participant) {
      assert FromSender([], participant.value) == [];
    }
  }

  // ----- the total is the sum of the per-sender totals -----

  lemma StrictlySortedDistinct(keys: seq<string>)
    requires StrictlySorted(keys)
    ensures Distinct(keys)
  {
    forall i, j | 0 <= i < j < |keys| ensures keys[i] != keys[j] {
      LessIrreflexive(keys[i]);
    }
  }

  lemma {:induction false} GroupedNothing(keys: seq<string>)
    ensures SumCounts(Grouped(keys, [])) == 0
  {
    if keys != [] {
      GroupedNothing(keys[1..]);
      assert Grouped(keys, []) == [(keys[0], 0)] + Grouped(keys[1..], []);
    }
  }

  /** One more tally adds its count to the key it is filed under, if listed once. */
  lemma {:induction false} GroupedCons(keys: seq<string>, x: (string, nat), ts: seq<(string, nat)>)
    requires Distinct(keys)
    ensures SumCounts(Grouped(keys, [x] + ts)) ==
      (if x.0 in keys then x.1 else 0) + SumCounts(Grouped(keys, ts))
  {
    if keys != [] {
      assert Distinct(keys[1..]);
      GroupedCons(keys[1..], x, ts);
      assert ([x] + ts)[1..] == ts;
      assert SumFor(keys[0], [x] + ts) == (if x.0 == keys[0] then x.1 else 0) + SumFor(keys[0], ts);
      assert Grouped(keys, [x] + ts) == [(keys[0], SumFor(keys[0], [x] + ts))] + Grouped(keys[1..], [x] + ts);
      assert Grouped(keys, ts) == [(keys[0], SumFor(keys[0], ts))] + Grouped(keys[1..], ts);
      if x.0 == keys[0] {
        assert x.0 !in keys[1..];
      } else {
        assert x.0 in keys <==> x.0 in keys[1..] by {
          assert keys == [keys[0]] + keys[1..];
        }
      }
    }
  }

  /** Grouping by a list of keys that names every sender once keeps the total. */
  lemma {:induction false} GroupedTotal(keys: seq<string>, ts: seq<(string, nat)>)
    requires Distinct(keys)
    requires forall e <- ts :: e.0 in keys
    ensures SumCounts(Grouped(keys, ts)) == SumCounts(ts)
  {
    if ts == [] {
      GroupedNothing(keys);
    } else {
      GroupedTotal(keys, ts[1..]);
      assert ts == [ts[0]] + ts[1..];
      GroupedCons(keys, ts[0], ts[1..]);
    }
  }

  /** `total` is the sum of the `by_participant` values, and it counts every match
      in every selected row. */
  lemma CountWordTotal(rows: seq<Row>, word: string, participant: Option<string>)
    ensures var r := CountWord(rows, word, participant);
      && r.total == SumCounts(r.byParticipant)
      && r.total == SumCounts(Tallies(Filtered(rows, participant), word))
  {
    var filtered := Filtered(rows, participant);
    if filtered != [] {
      var ts := Tallies(filtered, word);
      var keys := SortedDistinct(Senders(filtered));
      StrictlySortedDistinct(keys);
      forall e | e in ts ensures e.0 in keys {
        var i :| 0 <= i < |ts| && ts[i] == e;
        assert Senders(filtered)[i] == e.0;
      }
      GroupedTotal(keys, ts);
      SumCountsSorted(Grouped(keys, ts));
      DropZerosSum(SortByCountDesc(Grouped(keys, ts)));
    }
  }

  /** Every `by_participant` entry is a selected sender with the positive number of
      matches in that sender's messages, and every selected sender with a match
      has an entry. */
  lemma CountWordEntries(rows: seq<Row>, word: string, participant: Option<string>)
    ensures var r := CountWord(rows, word, participant);
      var ts := Tallies(Filtered(rows, participant), word);
      && (forall e <- r.byParticipant ::
            e.1 > 0 && e.1 == SumFor(e.0, ts) && e.0 in Senders(Filtered(rows, participant)))
      && (forall name <- Senders(Filtered(rows, participant)) ::
            SumFor(name, ts) > 0 ==> (name, SumFor(name, ts)) in r.byParticipant)
  {
    var filtered := Filtered(rows, participant);
    var ts := Tallies(filtered, word);
    if filtered != [] {
      var keys := SortedDistinct(Senders(filtered));
      var groups := Grouped(keys, ts);
      SortKeepsEntries(groups);
      forall name | name in Senders(filtered) && SumFor(name, ts) > 0
        ensures (name, SumFor(name, ts)) in groups
      {
        var i :| 0 <= i < |keys| && keys[i] == name;
        assert groups[i] == (name, SumFor(name, ts));
      }
    }
  }

  /** `by_participant` is ordered by count, largest first; tied senders stay in the
      ascending name order that the grouping produced. */
  lemma CountWordOrdered(rows: seq<Row>, word: string, participant: Option<string>)
    ensures OrderedWithTies(CountWord(rows, word, participant).byParticipant, Less)
  {
    var filtered := Filtered(rows, participant);
    if filtered != [] {
      var keys := SortedDistinct(Senders(filtered));
      var groups := Grouped(keys, Tallies(filtered, word));
      SortIsStable(groups, Less);
      DropZerosOrdered(SortByCountDesc(groups), Less);
    }
  }

  /** With a participant selected, only that participant can appear. */
  lemma CountWordSelected(rows: seq<Row>, word: string, participant: Option<string>)
    requires Selects(participant)
    ensures forall e <- CountWord(rows, word, participant).byParticipant :: e.0 == participant.value
  {
    CountWordEntries(rows, word, participant);
    FilteredRows(rows, participant);
    var filtered := Filtered(rows, participant);
    forall name | name in Senders(filtered) ensures name == participant.value {
      var i :| 0 <= i < |filtered| && Senders(filtered)[i] == name;
      assert filtered[i] in filtered;
    }
  }

  /** Alice writes "i love pizza" and Bob "PIZZA is great": "pizza" is found twice,
      once for each of them, and with equal counts Alice, first by name, comes
      first. */
  lemma PizzaCount()
    ensures CountWord([Row(None, "Alice", "i love pizza"), Row(None, "Bob", "PIZZA is great")], "pizza", None)
         == WordCount(2, [("Alice", 1), ("Bob", 1)])
  {
    var rows := [Row(None, "Alice", "i love pizza"), Row(None, "Bob", "PIZZA is great")];
    LovePizzaOnce();
    PizzaOnce();
    var ts := Tallies(rows, "pizza");
    assert ts == [("Alice", 1), ("Bob", 1)];
    assert Senders(rows) == ["Alice", "Bob"];
    AliceBeforeBob();
    OnceEach(ts);
  }

  lemma OnceEach(ts: seq<(string, nat)>)
    requires ts == [("Alice", 1), ("Bob", 1)]
    ensures Grouped(["Alice", "Bob"], ts) == ts && SumCounts(ts) == 2
    ensures SortByCountDesc(ts) == ts && DropZeros(ts) == ts
  {
    var rest := ts[1..];
    assert rest == [("Bob", 1)] && rest[1..] == [];
    assert SumFor("Alice", ts) == 1 + SumFor("Alice", rest);
    assert SumFor("Alice", rest) == 0;
    assert SumFor("Bob", ts) == SumFor("Bob", rest) == 1;
    assert SumCounts(rest) == 1 + SumCounts(rest[1..]) == 1;
    assert SumCounts(ts) == 1 + SumCounts(rest);
    assert SortByCountDesc(rest) == rest;
    assert DropZeros(rest) == rest;
  }

  lemma AliceBeforeBob()
    ensures SortedDistinct(["Alice", "Bob"]) == ["Alice", "Bob"]
  {
    assert Less("Alice", "Bob");
    assert ["Alice", "Bob"][1..] == ["Bob"];
    assert SortedDistinct(["Bob"]) == ["Bob"];
  }
}
