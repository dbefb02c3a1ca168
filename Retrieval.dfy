/** The deterministic parts of `utils/embeddings.py`: recognising a rate-limit
    error, the context line of each row, the keyword search, and the answers
    given without asking the language model. */
module Retrieval {
  import opened Wrappers
  import opened Text
  import opened DateTimes
  import opened Sorting
  import opened Slices
  import opened Parser

  // ----- rate limits -----

  const RateLimitWords: seq<string> := ["quota", "limit", "exhausted", "rate", "429", "resource"]

  /** `is_rate_limit_error`: one of the words occurs in the lower-cased error text. */
  predicate IsRateLimitError(error: string)
  {
    AnyIndicator(Lower(error), RateLimitWords)
  }

  lemma RateLimitWordsLower()
    ensures forall k :: 0 <= k < |RateLimitWords| ==> Lower(RateLimitWords[k]) == RateLimitWords[k]
  {
    assert Lower("quota") == "quota";
    assert Lower("limit") == "limit";
    assert Lower("exhausted") == "exhausted";
    assert Lower("rate") == "rate";
    assert Lower("429") == "429";
    assert Lower("resource") == "resource";
  }

  /** The error is a rate limit exactly when one of the words occurs in its text,
      compared without case. */
  lemma RateLimitIff(error: string)
    ensures IsRateLimitError(error) <==>
      exists k :: 0 <= k < |RateLimitWords| && Contains(Lower(error), RateLimitWords[k])
  {
    AnyIndicatorIff(Lower(error), RateLimitWords);
    RateLimitWordsLower();
  }

  const Broke := "\U{1F480} Bruh... the dev who made this is BROKE broke! Like, instant-noodles-for-dinner broke. \U{1F35C} Wanna Venmo some API credits? No? Okay, just wait a minute and try again. \U{1F62D}\U{1F4B8}"
  const TryAgain := "\U{1F605} Couldn't get a response right now. Please try again in a moment!"

  /** The reply when the language model fails with error text `error`. */
  function FailureReply(error: string): (reply: string)
    ensures reply == Broke <==> IsRateLimitError(error)
    ensures reply == TryAgain <==> !IsRateLimitError(error)
  {
    if IsRateLimitError(error) then Broke else TryAgain
  }

  /** A quota message is a rate limit whatever surrounds it. */
  lemma QuotaIsRateLimit(before: string, after: string)
    ensures FailureReply(before + "Quota exceeded" + after) == Broke
  {
    var e := before + "Quota exceeded" + after;
    LowerAppend(before + "Quota exceeded", after);
    LowerAppend(before, "Quota exceeded");
    assert Lower("Quota exceeded") == "quota exceeded";
    assert Contains("quota exceeded", "quota") by {
      assert "quota exceeded"[..5] == "quota";
    }
    ContainsExtend("quota exceeded", "quota", Lower(before), Lower(after));
    RateLimitIff(e);
  }

  // ----- the context line of a row -----

  /** The `combined` column: "[<timestamp>] <sender>: <message>", or without the
      bracketed part when the row has no timestamp. */
  function Combined(r: Row): string
    requires r.timestamp.Some? ==> Valid(r.timestamp.value)
  {
    match r.timestamp
    case Some(dt) => "[" + IsoText(dt) + "] " + r.sender + ": " + r.message
    case None => r.sender + ": " + r.message
  }

  /** The line keeps what it was made of: with a timestamp, the date-time reads back
      from between the brackets, and the rest is "<sender>: <message>". */
  lemma CombinedReadsBack(r: Row)
    requires r.timestamp.Some? ==> Valid(r.timestamp.value)
    ensures r.timestamp.None? ==> Combined(r) == r.sender + ": " + r.message
    ensures r.timestamp.Some? ==> var c := Combined(r);
      && |c| >= 23 && c[0] == '[' && c[20..22] == "] "
      && ParseIsoText(c[1..20]) == r.timestamp
      && c[22..] == r.sender + ": " + r.message
  {
    if r.timestamp.Some? {
      var dt := r.timestamp.value;
      IsoTextRoundTrip(dt);
      var c := Combined(r);
      var tail := r.sender + ": " + r.message;
      assert c == "[" + IsoText(dt) + "] " + tail;
      assert c[1..20] == IsoText(dt);
      assert c[22..] == tail;
    }
  }

  function CombinedColumn(rows: seq<Row>): (c: seq<string>)
    requires StampsValid(rows)
    ensures |c| == |rows|
  {
    seq(|rows|, i requires 0 <= i < |rows| => Combined(rows[i]))
  }

  // ----- the keyword search -----

  /** How many query words (repeats included) occur in the lower-cased message. */
  function Score(message: string, words: seq<string>): (n: nat)
    ensures n <= |words|
  {
    if words == [] then 0
    else (if Contains(Lower(message), words[0]) then 1 else 0) + Score(message, words[1..])
  }

  lemma {:induction false} ScorePositiveIff(message: string, words: seq<string>)
    ensures Score(message, words) > 0 <==> exists w <- words :: Contains(Lower(message), w)
  {
    if words != [] {
      var m := Lower(message);
      ScorePositiveIff(message, words[1..]);
      if w :| w in words && Contains(m, w) {
        if w != words[0] {
          assert w in words[1..];
        }
      }
      if Contains(m, words[0]) {
        assert words[0] in words;
      }
      if w :| w in words[1..] && Contains(m, w) {
        assert w in words;
      }
    }
  }

  /** Each row's score, in row order. */
  function ScoreColumn(rows: seq<Row>, words: seq<string>): (c: seq<nat>)
    ensures |c| == |rows| && forall i :: 0 <= i < |rows| ==> c[i] == Score(rows[i].message, words)
  {
    seq(|rows|, i requires 0 <= i < |rows| => Score(rows[i].message, words))
  }

  /** The `scores` list: each position paired with its score. */
  function Indexed(c: seq<nat>): (s: seq<(nat, nat)>)
    ensures |s| == |c| && forall i :: 0 <= i < |c| ==> s[i] == (i, c[i])
  {
    seq(|c|, i requires 0 <= i < |c| => (i, c[i]))
  }

  /** The position column of a list of (position, score) entries. */
  function Positions(s: seq<(nat, nat)>): (r: seq<nat>)
    ensures |r| == |s| && forall i :: 0 <= i < |s| ==> r[i] == s[i].0
  {
    seq(|s|, i requires 0 <= i < |s| => s[i].0)
  }

  function Range(n: nat): (r: seq<nat>)
    ensures |r| == n && forall i :: 0 <= i < n ==> r[i] == i
  {
    seq(n, i requires 0 <= i < n => i)
  }

  /** The query's words: `query.lower().split()`. */
  function QueryWords(query: string): seq<string>
  {
    Words(Lower(query))
  }

  /** The `scores` list after `scores.sort(key=score, reverse=True)`. */
  function Ranking(c: seq<nat>): seq<(nat, nat)>
  {
    SortByCountDesc(Indexed(c))
  }

  /** The positions picked for the score column `c`: among the first `top_k` of the
      ranking those with a positive score; when there are none, the last `top_k`
      positions. */
  function Choose(c: seq<nat>, topK: int): seq<nat>
  {
    if c == [] then []
    else
      var picks := Positions(DropZeros(PySliceTo(Ranking(c), topK)));
      if picks != [] then picks else PySliceFrom(Range(|c|), -topK)
  }

  /** The rows `_simple_search` picks for a query. */
  function Selection(rows: seq<Row>, query: string, topK: int): seq<nat>
  {
    Choose(ScoreColumn(rows, QueryWords(query)), topK)
  }

  /** The `combined` lines at the given positions. */
  function Pick(lines: seq<string>, at: seq<nat>): (r: seq<string>)
    requires forall k :: 0 <= k < |at| ==> at[k] < |lines|
    ensures |r| == |at| && forall k :: 0 <= k < |at| ==> r[k] == lines[at[k]]
  {
    seq(|at|, k requires 0 <= k < |at| => lines[at[k]])
  }

  /** What `_simple_search` returns. */
  function SearchResult(rows: seq<Row>, query: string, topK: int): seq<string>
    requires StampsValid(rows)
  {
    SelectionInRange(rows, query, topK);
    Pick(CombinedColumn(rows), Selection(rows, query, topK))
  }

  // ----- what the search promises -----

  predicate Earlier(a: nat, b: nat)
  {
    a < b
  }

  /** The ranking pairs each position with its own score ... */
  lemma RankingEntries(c: seq<nat>)
    ensures forall e <- Ranking(c) :: 0 <= e.0 < |c| && e.1 == c[e.0]
  {
    var scores := Indexed(c);
    var ranked := Ranking(c);
    forall e | e in ranked ensures 0 <= e.0 < |c| && e.1 == c[e.0] {
      assert e in multiset(ranked);
      assert e in scores;
    }
  }

  /** ... lists every position ... */
  lemma RankingHas(c: seq<nat>)
    ensures |Ranking(c)| == |c|
    ensures forall i :: 0 <= i < |c| ==> (i, c[i]) in Ranking(c)
  {
    var scores := Indexed(c);
    var ranked := Ranking(c);
    assert |multiset(ranked)| == |multiset(scores)|;
    forall i | 0 <= i < |c| ensures (i, c[i]) in ranked {
      assert scores[i] in multiset(scores);
    }
  }

  /** ... with the largest scores first and equal scores in position order. */
  lemma RankingOrdered(c: seq<nat>)
    ensures OrderedWithTies(Ranking(c), Earlier)
  {
    SortIsStable(Indexed(c), Earlier);
  }

  /** The picks from the first `top_k` of the ranking are scoring positions ... */
  lemma PickedEntries(c: seq<nat>, topK: int)
    ensures forall e <- DropZeros(PySliceTo(Ranking(c), topK)) :: 0 <= e.0 < |c| && e.1 == c[e.0] && e.1 > 0
  {
    var ranked := Ranking(c);
    var top := PySliceTo(ranked, topK);
    RankingEntries(c);
    forall e | e in DropZeros(top) ensures 0 <= e.0 < |c| && e.1 == c[e.0] && e.1 > 0 {
      assert e in top;
      var q :| 0 <= q < |top| && top[q] == e;
      assert ranked[q] == e;
    }
  }

  /** ... in ranking order. */
  lemma PickedOrdered(c: seq<nat>, topK: int)
    ensures OrderedWithTies(DropZeros(PySliceTo(Ranking(c), topK)), Earlier)
  {
    var ranked := Ranking(c);
    var top := PySliceTo(ranked, topK);
    RankingOrdered(c);
    assert OrderedWithTies(top, Earlier) by {
      forall a, b | 0 <= a < b < |top| ensures top[a].1 > top[b].1 || (top[a].1 == top[b].1 && Earlier(top[a].0, top[b].0)) {
        assert top[a] == ranked[a] && top[b] == ranked[b];
      }
    }
    DropZerosOrdered(top, Earlier);
  }

  /** Every picked position is in range. */
  lemma ChooseInRange(c: seq<nat>, topK: int)
    ensures forall k :: 0 <= k < |Choose(c, topK)| ==> Choose(c, topK)[k] < |c|
  {
    if c != [] {
      var ranked := Ranking(c);
      var top := PySliceTo(ranked, topK);
      var picked := DropZeros(top);
      PickedEntries(c, topK);
      var sel := Choose(c, topK);
      forall k | 0 <= k < |sel| ensures sel[k] < |c| {
        if Positions(picked) != [] {
          assert picked[k] in picked;
        } else {
          var all := Range(|c|);
          assert sel == all[|all| - |sel|..];
          assert sel[k] == all[|all| - |sel| + k];
        }
      }
    }
  }

  lemma SelectionInRange(rows: seq<Row>, query: string, topK: int)
    ensures forall k :: 0 <= k < |Selection(rows, query, topK)| ==> Selection(rows, query, topK)[k] < |rows|
  {
    ChooseInRange(ScoreColumn(rows, QueryWords(query)), topK);
  }

  /** Nothing is picked exactly when there are no positions or `top_k` is a
      negative number that drops them all: otherwise the fallback always has some. */
  lemma ChooseEmptyIff(c: seq<nat>, topK: int)
    ensures Choose(c, topK) == [] <==> c == [] || topK <= -|c|
  {
    if c != [] && topK <= -|c| {
      RankingHas(c);
      assert PySliceTo(Ranking(c), topK) == [];
    }
  }

  /** With a positive `top_k`, at most `top_k` positions; with `top_k = 0` all of
      them, since `index[-0:]` is the whole index. */
  lemma ChooseSize(c: seq<nat>, topK: int)
    ensures topK > 0 ==> |Choose(c, topK)| <= topK
    ensures topK == 0 && c != [] ==> Choose(c, topK) == Range(|c|)
  {
    if c != [] && topK == 0 {
      assert PySliceTo(Ranking(c), 0) == [];
    }
  }

  /** `index[-k:]` for a positive `k`: the last `k` positions, or all of them. */
  lemma LastPositions(n: nat, k: nat)
    requires k > 0
    ensures var m := if k < n then k else n; var r := PySliceFrom(Range(n), -(k as int));
      |r| == m && forall j :: 0 <= j < m ==> r[j] == n - m + j
  {
  }

  /** When nothing scores, the choice falls back to the last `top_k` positions in
      their order. */
  lemma ChooseFallback(c: seq<nat>, topK: int)
    requires c != [] && topK > 0
    requires forall x <- c :: x == 0
    ensures var n := if topK < |c| then topK else |c|; var sel := Choose(c, topK);
      |sel| == n && forall k :: 0 <= k < n ==> sel[k] == |c| - n + k
  {
    var ranked := Ranking(c);
    RankingEntries(c);
    var top := PySliceTo(ranked, topK);
    forall e | e in top ensures e.1 == 0 {
      assert e in ranked;
      assert c[e.0] in c;
    }
    DropZerosNone(top);
    LastPositions(|c|, topK);
  }

  /** When something scores and `top_k` is positive, the picks come from the
      ranking and are not empty. */
  lemma ChoosePicks(c: seq<nat>, topK: int)
    requires topK > 0
    requires exists x <- c :: x > 0
    ensures var picked := DropZeros(PySliceTo(Ranking(c), topK));
      picked != [] && Choose(c, topK) == Positions(picked)
  {
    var ranked := Ranking(c);
    RankingHas(c);
    RankingOrdered(c);
    var top := PySliceTo(ranked, topK);
    var i :| 0 <= i < |c| && c[i] > 0;
    var p :| 0 <= p < |ranked| && ranked[p] == (i, c[i]);
    assert ranked[0].1 > 0;
    assert ranked[0] in top;
  }

  /** ... and they are positions that score, the best first and equal scores in
      position order. */
  lemma ChooseRanked(c: seq<nat>, topK: int)
    requires topK > 0
    requires exists x <- c :: x > 0
    ensures var sel := Choose(c, topK);
      && 0 < |sel| <= topK
      && (forall k :: 0 <= k < |sel| ==> sel[k] < |c| && c[sel[k]] > 0)
      && (forall i, j :: 0 <= i < j < |sel| ==>
            c[sel[i]] > c[sel[j]] || (c[sel[i]] == c[sel[j]] && sel[i] < sel[j]))
  {
    ChoosePicks(c, topK);
    PickedEntries(c, topK);
    PickedOrdered(c, topK);
    var picked := DropZeros(PySliceTo(Ranking(c), topK));
    var sel := Positions(picked);
    forall k | 0 <= k < |sel| ensures sel[k] < |c| && c[sel[k]] > 0 {
      assert picked[k] in picked;
    }
    forall a, b | 0 <= a < b < |sel| ensures c[sel[a]] > c[sel[b]] || (c[sel[a]] == c[sel[b]] && sel[a] < sel[b]) {
      assert picked[a] in picked && picked[b] in picked;
    }
  }

  /** A scoring position left out of the choice lies beyond the first `top_k` of
      the ranking, behind entries that all score. */
  lemma LeftOutBeyondTop(c: seq<nat>, topK: int, i: nat) returns (p: nat)
    requires topK > 0 && i < |c| && c[i] > 0
    requires i !in Choose(c, topK)
    ensures var ranked := Ranking(c); var top := PySliceTo(ranked, topK);
      && |top| <= p < |ranked| && ranked[p] == (i, c[i])
      && forall e <- top :: e.1 > 0
  {
    var ranked := Ranking(c);
    RankingHas(c);
    RankingOrdered(c);
    var top := PySliceTo(ranked, topK);
    p :| 0 <= p < |ranked| && ranked[p] == (i, c[i]);
    if p < |top| {
      assert false;
    }
    forall e | e in top ensures e.1 > 0 {
      var q :| 0 <= q < |top| && top[q] == e;
      assert ranked[q] == e;
    }
  }

  /** A scoring position that is left out loses to every pick: all `top_k` picks
      were made, each with a larger score, or an equal one from an earlier row. */
  lemma ChooseDominates(c: seq<nat>, topK: int, i: nat)
    requires topK > 0 && i < |c| && c[i] > 0
    requires i !in Choose(c, topK)
    ensures var sel := Choose(c, topK);
      && |sel| == topK
      && forall k :: 0 <= k < |sel| ==> sel[k] < |c| && (c[sel[k]] > c[i] || (c[sel[k]] == c[i] && sel[k] < i))
  {
    var p := LeftOutBeyondTop(c, topK, i);
    var ranked := Ranking(c);
    var top := PySliceTo(ranked, topK);
    DropZerosAll(top);
    RankingEntries(c);
    RankingOrdered(c);
    var sel := Positions(top);
    forall k | 0 <= k < |sel| ensures sel[k] < |c| && (c[sel[k]] > c[i] || (c[sel[k]] == c[i] && sel[k] < i)) {
      assert top[k] == ranked[k];
      assert ranked[k] in ranked;
    }
  }

  /** For rows: when some row's message contains a query word and `top_k` is
      positive, every picked row contains one, the best-scoring first. */
  lemma SelectionRanked(rows: seq<Row>, query: string, topK: int)
    requires topK > 0
    requires exists r <- rows :: Score(r.message, QueryWords(query)) > 0
    ensures var sel := Selection(rows, query, topK); var words := QueryWords(query);
      && 0 < |sel| <= topK
      && forall k :: 0 <= k < |sel| ==> sel[k] < |rows| && exists w <- words :: Contains(Lower(rows[sel[k]].message), w)
  {
    var words := QueryWords(query);
    var c := ScoreColumn(rows, words);
    var r :| r in rows && Score(r.message, words) > 0;
    var i :| 0 <= i < |rows| && rows[i] == r;
    assert c[i] in c;
    ChooseRanked(c, topK);
    var sel := Choose(c, topK);
    forall k | 0 <= k < |sel| ensures sel[k] < |rows| && exists w <- words :: Contains(Lower(rows[sel[k]].message), w) {
      ScorePositiveIff(rows[sel[k]].message, words);
    }
  }

  /** For rows: when no row's message contains a query word, the search returns the
      last `top_k` rows. */
  lemma SelectionFallback(rows: seq<Row>, query: string, topK: int)
    requires rows != [] && topK > 0
    requires forall r <- rows :: forall w <- QueryWords(query) :: !Contains(Lower(r.message), w)
    ensures var n := if topK < |rows| then topK else |rows|; var sel := Selection(rows, query, topK);
      |sel| == n && forall k :: 0 <= k < n ==> sel[k] == |rows| - n + k
  {
    var words := QueryWords(query);
    var c := ScoreColumn(rows, words);
    forall x | x in c ensures x == 0 {
      var i :| 0 <= i < |c| && c[i] == x;
      assert rows[i] in rows;
      ScorePositiveIff(rows[i].message, words);
    }
    ChooseFallback(c, topK);
  }
}
