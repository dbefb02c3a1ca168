/** `get_top_words` (utils/analytics.py:63-111): the most frequent words of the
    selected messages, leaving out short words and stop words. */
module TopWords {
  import opened Wrappers
  import opened Text
  import opened Sorting
  import opened Slices
  import opened Parser
  import opened Analytics

  /** The words never counted. */
  const StopWords: set<string> := {
    "the", "and", "for", "are", "but", "not", "you", "all", "can", "had",
    "her", "was", "one", "our", "out", "has", "have", "been", "were", "they",
    "this", "that", "with", "from", "will", "would", "there", "their", "what",
    "about", "which", "when", "make", "like", "just", "know", "take", "into",
    "year", "your", "some", "could", "them", "than", "then", "now", "look",
    "only", "come", "its", "also", "back", "after", "use", "how", "man",
    "media", "omitted", "deleted", "message"
  }

  // ----- tokens -----

  /** End of the run of word characters (`\w`) that starts at `i`. */
  function WordRun(s: string, i: nat): (j: nat)
    requires i <= |s|
    ensures i <= j <= |s|
    ensures forall k :: i <= k < j ==> IsWordChar(s[k])
    ensures j < |s| ==> !IsWordChar(s[j])
    decreases |s| - i
  {
    if i < |s| && IsWordChar(s[i]) then WordRun(s, i + 1) else i
  }

  /** The run is determined by where word characters stop. */
  lemma {:induction false} WordRunIs(s: string, i: nat, j: nat)
    requires i <= j <= |s|
    requires forall k :: i <= k < j ==> IsWordChar(s[k])
    requires j < |s| ==> !IsWordChar(s[j])
    ensures WordRun(s, i) == j
    decreases j - i
  {
    if i < j {
      WordRunIs(s, i + 1, j);
    }
  }

  predicate AllLetters(w: string)
  {
    forall c <- w :: IsLetter(c)
  }

  /** `re.findall(r'\b[a-zA-Z]{3,}\b', s)`: a token is a maximal run of word
      characters that holds at least three characters, all of them letters. A
      shorter run, or one with a digit or `_` in it, gives nothing, since a letter
      run that stops at another word character has no word boundary there. */
  function Tokens(s: string): (ws: seq<string>)
    ensures forall w <- ws :: |w| >= 3 && AllLetters(w) && forall c <- w :: c in s
    decreases |s|
  {
    if s == [] then []
    else if !IsWordChar(s[0]) then Tokens(s[1..])
    else
      var n := WordRun(s, 0);
      var rest := Tokens(s[n..]);
      assert forall w <- rest :: forall c <- w :: c in s by {
        forall w <- rest, c <- w ensures c in s {
          assert c in s[n..];
        }
      }
      (if n >= 3 && AllLetters(s[..n]) then [s[..n]] else []) + rest
  }

  /** A word of three or more letters is one token. */
  lemma TokensWord(w: string)
    requires |w| >= 3 && AllLetters(w)
    ensures Tokens(w) == [w]
  {
    forall k | 0 <= k < |w| ensures IsWordChar(w[k]) { assert w[k] in w; }
    WordRunIs(w, 0, |w|);
    assert w[..|w|] == w && w[|w|..] == [];
  }

  /** Words of three or more letters joined by spaces are found again, in order. */
  lemma {:induction false} TokensJoinWords(ws: seq<string>)
    requires forall w <- ws :: |w| >= 3 && AllLetters(w)
    ensures Tokens(Join(ws, " ")) == ws
  {
    if ws != [] {
      var w := ws[0];
      assert ws == [w] + ws[1..];
      assert w in ws;
      TokensWord(w);
      if |ws| > 1 {
        assert Join(ws, " ") == w + " " + Join(ws[1..], " ");
        assert forall v <- ws[1..] :: v in ws;
        TokensJoinWords(ws[1..]);
        TokensSpace(w, Join(ws[1..], " "));
      }
    }
  }

  /** Every maximal run of word characters that holds three or more characters,
      all letters, is a token. */
  lemma {:induction false} TokensHasRun(s: string, i: nat)
    requires i < |s| && (i == 0 || !IsWordChar(s[i - 1]))
    requires WordRun(s, i) - i >= 3 && AllLetters(s[i..WordRun(s, i)])
    ensures s[i..WordRun(s, i)] in Tokens(s)
    decreases |s|, 1
  {
    assert IsWordChar(s[i]);
    if !IsWordChar(s[0]) {
      TokensHasRunFrom(s, 1, i);
      assert Tokens(s) == Tokens(s[1..]);
    } else {
      var n := WordRun(s, 0);
      var head := if n >= 3 && AllLetters(s[..n]) then [s[..n]] else [];
      assert Tokens(s) == head + Tokens(s[n..]);
      if i > 0 {
        assert n < i by {
          assert !IsWordChar(s[i - 1]);
        }
        TokensHasRunFrom(s, n, i);
      } else {
        assert s[i..WordRun(s, i)] == s[..n] && head == [s[..n]];
      }
    }
  }

  /** The run is still a token of a suffix that keeps its start boundary. */
  lemma {:induction false} TokensHasRunFrom(s: string, d: nat, i: nat)
    requires i < |s| && (i == 0 || !IsWordChar(s[i - 1]))
    requires 0 < d <= i
    requires WordRun(s, i) - i >= 3 && AllLetters(s[i..WordRun(s, i)])
    ensures s[i..WordRun(s, i)] in Tokens(s[d..])
    decreases |s|, 0
  {
    RunAfter(s, d, i);
    TokensHasRun(s[d..], i - d);
  }

  /** A run that starts at a word boundary is the same run in a suffix that keeps
      that boundary. */
  lemma RunAfter(s: string, d: nat, i: nat)
    requires i < |s| && (i == 0 || !IsWordChar(s[i - 1]))
    requires 0 < d <= i
    ensures var u := s[d..]; var j := WordRun(s, i);
      && WordRun(u, i - d) == j - d && u[i - d..j - d] == s[i..j]
      && (i - d == 0 || !IsWordChar(u[i - d - 1]))
  {
    var u := s[d..];
    var j := WordRun(s, i);
    WordRunIs(u, i - d, j - d);
    assert u[i - d..j - d] == s[i..j];
  }

  /** A space between two texts keeps their tokens apart. */
  lemma {:induction false} TokensSpace(a: string, b: string)
    ensures Tokens(a + " " + b) == Tokens(a) + Tokens(b)
    decreases |a|
  {
    var s := a + " " + b;
    if a == [] {
      assert s[1..] == b;
    } else if !IsWordChar(a[0]) {
      assert s[1..] == a[1..] + " " + b;
      TokensSpace(a[1..], b);
    } else {
      var n := WordRun(a, 0);
      WordRunIs(s, 0, n);
      assert s[..n] == a[..n];
      assert s[n..] == a[n..] + " " + b;
      TokensSpace(a[n..], b);
    }
  }

  /** The tokens of each message, one message after the other. */
  function MessageTokens(ms: seq<string>): seq<string>
  {
    if ms == [] then [] else Tokens(Lower(ms[0])) + MessageTokens(ms[1..])
  }

  /** Joining the messages with a space and lower-casing the whole never makes a
      token out of the end of one message and the start of the next. */
  lemma {:induction false} TokensOfJoin(ms: seq<string>)
    ensures Tokens(Lower(Join(ms, " "))) == MessageTokens(ms)
  {
    if |ms| == 1 {
      assert MessageTokens(ms[1..]) == [];
    } else if |ms| > 1 {
      var rest := Join(ms[1..], " ");
      LowerAppend(ms[0] + " ", rest);
      LowerAppend(ms[0], " ");
      assert Lower(" ") == " ";
      TokensSpace(Lower(ms[0]), Lower(rest));
      TokensOfJoin(ms[1..]);
    }
  }

  /** The message column. */
  function Messages(rows: seq<Row>): (ms: seq<string>)
    ensures |ms| == |rows|
    ensures forall i :: 0 <= i < |rows| ==> ms[i] == rows[i].message
  {
    seq(|rows|, i requires 0 <= i < |rows| => rows[i].message)
  }

  /** `re.findall(..., ' '.join(messages).lower())` over the selected rows. */
  function ChatTokens(rows: seq<Row>, participant: Option<string>): seq<string>
  {
    Tokens(Lower(Join(Messages(Filtered(rows, participant)), " ")))
  }

  /** Every token is lower case. */
  lemma TokensLowerCase(rows: seq<Row>, participant: Option<string>)
    ensures forall w <- ChatTokens(rows, participant) :: forall c <- w :: 'a' <= c <= 'z'
  {
    LowerHasNoUpper(Join(Messages(Filtered(rows, participant)), " "));
  }

  // ----- the word_counts dictionary -----

  /** Index of the entry for `w`, or `|items|`. */
  function KeyIndex(items: seq<(string, nat)>, w: string): (k: nat)
    ensures k <= |items|
    ensures k < |items| ==> items[k].0 == w
    ensures forall j :: 0 <= j < k ==> items[j].0 != w
  {
    if items == [] then 0
    else if items[0].0 == w then 0
    else 1 + KeyIndex(items[1..], w)
  }

  /** `word_counts[w] = word_counts.get(w, 0) + 1` unless `w` is a stop word; a new
      key goes last. */
  function Bump(items: seq<(string, nat)>, w: string, stop: set<string>): seq<(string, nat)>
  {
    if w in stop then items
    else
      var k := KeyIndex(items, w);
      if k == |items| then items + [(w, 1)] else items[k := (w, items[k].1 + 1)]
  }

  /** The items of `word_counts` after reading `ws`, in insertion order. */
  function WordCounts(ws: seq<string>, stop: set<string>): seq<(string, nat)>
    decreases |ws|
  {
    if ws == [] then [] else Bump(WordCounts(ws[..|ws| - 1], stop), ws[|ws| - 1], stop)
  }

  /** Position of the first `w` in `ws`, or `|ws|`. */
  function FirstIndex(ws: seq<string>, w: string): (k: nat)
    ensures k <= |ws|
    ensures k < |ws| <==> w in ws
    ensures k < |ws| ==> ws[k] == w
  {
    if ws == [] then 0 else if ws[0] == w then 0 else 1 + FirstIndex(ws[1..], w)
  }

  lemma {:induction false} FirstIndexSnoc(ws: seq<string>, x: string, w: string)
    requires w in ws + [x]
    ensures FirstIndex(ws + [x], w) == if w in ws then FirstIndex(ws, w) else |ws|
    decreases |ws|
  {
    if ws != [] {
      assert (ws + [x])[1..] == ws[1..] + [x];
      if ws[0] != w {
        FirstIndexSnoc(ws[1..], x, w);
      }
    }
  }

  /** The keys appear in order of their first occurrence in `ws`, so each key once. */
  predicate InFirstOrder(items: seq<(string, nat)>, ws: seq<string>)
  {
    forall i, j :: 0 <= i < j < |items| ==> FirstIndex(ws, items[i].0) < FirstIndex(ws, items[j].0)
  }

  /** Every non-stop word of `ws` is a key. */
  predicate CoversWords(items: seq<(string, nat)>, ws: seq<string>, stop: set<string>)
  {
    forall w <- ws :: w !in stop ==> exists e <- items :: e.0 == w
  }

  /** Every key is a non-stop word of `ws`, with how often it occurs there. */
  predicate CountsMatch(items: seq<(string, nat)>, ws: seq<string>, stop: set<string>)
  {
    forall e <- items :: e.0 in ws && e.0 !in stop && e.1 == multiset(ws)[e.0]
  }

  /** What the dictionary holds after reading `ws`. */
  predicate CountsOf(items: seq<(string, nat)>, ws: seq<string>, stop: set<string>)
  {
    InFirstOrder(items, ws) && CoversWords(items, ws, stop) && CountsMatch(items, ws, stop)
  }

  lemma {:induction false} WordCountsCover(ws: seq<string>, stop: set<string>)
    ensures CoversWords(WordCounts(ws, stop), ws, stop)
    decreases |ws|
  {
    if ws != [] {
      var init, w := ws[..|ws| - 1], ws[|ws| - 1];
      assert ws == init + [w];
      WordCountsCover(init, stop);
      var items := WordCounts(init, stop);
      var r := Bump(items, w, stop);
      var k := KeyIndex(items, w);
      forall v | v in ws && v !in stop ensures exists e <- r :: e.0 == v {
        if v != w {
          assert v in init;
          var e :| e in items && e.0 == v;
          var i :| 0 <= i < |items| && items[i] == e;
          assert r[i].0 == v;
        } else if k == |items| {
          assert r[|items|].0 == w;
        } else {
          assert r[k].0 == w;
        }
      }
    }
  }

  lemma {:induction false} WordCountsKeys(ws: seq<string>, stop: set<string>)
    ensures forall e <- WordCounts(ws, stop) :: e.0 in ws && e.0 !in stop
    decreases |ws|
  {
    if ws != [] {
      var init, w := ws[..|ws| - 1], ws[|ws| - 1];
      assert ws == init + [w];
      WordCountsKeys(init, stop);
      var items := WordCounts(init, stop);
      var r := Bump(items, w, stop);
      forall e | e in r ensures e.0 in ws && e.0 !in stop {
        var i :| 0 <= i < |r| && r[i] == e;
        if i < |items| && e.0 != w {
          assert items[i] in items;
        }
      }
    }
  }

  /** A word that is not yet a key was not read before, unless it is a stop word. */
  lemma NewKeyIsNew(ws: seq<string>, stop: set<string>, w: string)
    requires w !in stop && KeyIndex(WordCounts(ws, stop), w) == |WordCounts(ws, stop)|
    ensures w !in ws
  {
    WordCountsCover(ws, stop);
  }

  lemma {:induction false} WordCountsOrder(ws: seq<string>, stop: set<string>)
    ensures InFirstOrder(WordCounts(ws, stop), ws)
    decreases |ws|
  {
    if ws != [] {
      var init, w := ws[..|ws| - 1], ws[|ws| - 1];
      assert ws == init + [w];
      WordCountsOrder(init, stop);
      WordCountsKeys(init, stop);
      var items := WordCounts(init, stop);
      var r := Bump(items, w, stop);
      assert |r| <= |items| + 1;
      forall i | 0 <= i < |items|
        ensures r[i].0 == items[i].0 && FirstIndex(ws, r[i].0) == FirstIndex(init, r[i].0) < |init|
      {
        assert items[i] in items;
        FirstIndexSnoc(init, w, items[i].0);
      }
      if |r| > |items| {
        NewKeyIsNew(init, stop, w);
        FirstIndexSnoc(init, w, w);
      }
    }
  }

  lemma {:induction false} WordCountsValues(ws: seq<string>, stop: set<string>)
    ensures CountsMatch(WordCounts(ws, stop), ws, stop)
    decreases |ws|
  {
    if ws != [] {
      var init, w := ws[..|ws| - 1], ws[|ws| - 1];
      assert ws == init + [w];
      WordCountsValues(init, stop);
      WordCountsOrder(init, stop);
      var items := WordCounts(init, stop);
      var r := Bump(items, w, stop);
      var k := KeyIndex(items, w);
      assert multiset(ws) == multiset(init) + multiset{w};
      forall e | e in r ensures e.0 in ws && e.0 !in stop && e.1 == multiset(ws)[e.0] {
        var i :| 0 <= i < |r| && r[i] == e;
        if i < |items| && items[i].0 != w {
          assert items[i] in items;
        } else if i < |items| {
          assert items[i] in items;
          assert i == k;
        } else {
          NewKeyIsNew(init, stop, w);
        }
      }
    }
  }

  lemma WordCountsMeaning(ws: seq<string>, stop: set<string>)
    ensures CountsOf(WordCounts(ws, stop), ws, stop)
  {
    WordCountsOrder(ws, stop);
    WordCountsCover(ws, stop);
    WordCountsValues(ws, stop);
  }

  // ----- the result -----

  /** `sorted(items, key=count, reverse=True)[:top_n]` over the dictionary built
      from `ws`. */
  function Ranked(ws: seq<string>, stop: set<string>, topN: int): seq<(string, nat)>
  {
    PySliceTo(SortByCountDesc(WordCounts(ws, stop)), topN)
  }

  /** What `get_top_words` returns. */
  function TopWords(rows: seq<Row>, participant: Option<string>, topN: int): seq<(string, nat)>
  {
    if rows == [] then [] else Ranked(ChatTokens(rows, participant), StopWords, topN)
  }

  /** How the loop's dictionary and key order stand for the items: the keys in
      order, each with its count, and no other key; `pos` tells where each key
      sits, so no key is listed twice. */
  predicate Agrees(order: seq<string>, pos: map<string, nat>, counts: map<string, nat>, items: seq<(string, nat)>)
  {
    && |order| == |items|
    && (forall i :: 0 <= i < |items| ==>
          && items[i].0 == order[i] && order[i] in counts && counts[order[i]] == items[i].1
          && order[i] in pos && pos[order[i]] == i)
    && (forall x <- counts :: x in pos && pos[x] < |order| && order[pos[x]] == x)
  }

  /** Counting a word already in the dictionary raises its value only. */
  lemma AgreesBumpKnown(order: seq<string>, pos: map<string, nat>, counts: map<string, nat>, items: seq<(string, nat)>, w: string, stop: set<string>)
    requires Agrees(order, pos, counts, items) && w !in stop && w in counts
    ensures Agrees(order, pos, counts[w := counts[w] + 1], Bump(items, w, stop))
  {
    var k := pos[w];
    var m := KeyIndex(items, w);
    if m < |items| {
      assert order[m] == w;
    }
    var c := counts[w := counts[w] + 1];
    var r := items[k := (w, items[k].1 + 1)];
    assert Bump(items, w, stop) == r;
    forall i | 0 <= i < |r| ensures r[i].0 == order[i] && order[i] in c && c[order[i]] == r[i].1 {
      if i != k {
        assert pos[order[i]] == i;
      }
    }
  }

  /** Counting a new word adds it as the last key, with value 1. */
  lemma AgreesBumpNew(order: seq<string>, pos: map<string, nat>, counts: map<string, nat>, items: seq<(string, nat)>, w: string, stop: set<string>)
    requires Agrees(order, pos, counts, items) && w !in stop && w !in counts
    ensures Agrees(order + [w], pos[w := |order|], counts[w := 1], Bump(items, w, stop))
  {
    var c := counts[w := 1];
    var o := order + [w];
    var p := pos[w := |order|];
    var r := items + [(w, 1)];
    assert Bump(items, w, stop) == r;
    forall i | 0 <= i < |r| ensures r[i].0 == o[i] && o[i] in c && c[o[i]] == r[i].1 && o[i] in p && p[o[i]] == i {
      if i < |items| {
        assert o[i] == order[i] && order[i] in counts;
      }
    }
    forall x | x in c ensures x in p && p[x] < |o| && o[p[x]] == x {
      if x != w {
        assert x in counts;
      }
    }
  }

  /** The counting loop: `word_counts`, with its keys in insertion order. */
  method CountWords(words: seq<string>, stop: set<string>) returns (items: seq<(string, nat)>)
    ensures items == WordCounts(words, stop)
  {
    var counts: map<string, nat> := map[];
    var order: seq<string> := [];
    ghost var pos: map<string, nat> := map[];
    var i := 0;
    while i < |words|
      invariant 0 <= i <= |words|
      invariant Agrees(order, pos, counts, WordCounts(words[..i], stop))
    {
      var w := words[i];
      assert words[..i + 1][..i] == words[..i];
      if w !in stop {
        if w in counts {
          AgreesBumpKnown(order, pos, counts, WordCounts(words[..i], stop), w, stop);
          counts := counts[w := counts[w] + 1];
        } else {
          AgreesBumpNew(order, pos, counts, WordCounts(words[..i], stop), w, stop);
          counts := counts[w := 1];
          pos := pos[w := |order|];
          order := order + [w];
        }
      }
      i := i + 1;
    }
    assert words[..i] == words;
    items := seq(|order|, k requires 0 <= k < |order| => (order[k], counts[order[k]]));
  }

  /** `get_top_words`: count the tokens of the selected messages, then sort the
      items by count and cut them to `top_n`. */
  method GetTopWords(rows: seq<Row>, participant: Option<string>, topN: int) returns (top: seq<(string, nat)>)
    ensures top == TopWords(rows, participant, topN)
  {
    if rows == [] {
      return [];
    }
    var words := ChatTokens(rows, participant);
    var items := CountWords(words, StopWords);
    top := PySliceTo(SortByCountDesc(items), topN);
  }

  // ----- what the result promises -----

  lemma RankedEntries(ws: seq<string>, stop: set<string>, topN: int)
    ensures topN >= 0 ==> |Ranked(ws, stop, topN)| <= topN
    ensures forall e <- Ranked(ws, stop, topN) :: e.0 in ws && e.0 !in stop && e.1 == multiset(ws)[e.0] > 0
  {
    var items := WordCounts(ws, stop);
    WordCountsMeaning(ws, stop);
    var sorted := SortByCountDesc(items);
    forall e | e in Ranked(ws, stop, topN) ensures e in items {
      assert e in sorted;
      assert e in multiset(sorted);
    }
  }

  /** Orders words by where they first appear in `ws`. */
  function FirstSeen(ws: seq<string>): (string, string) -> bool
  {
    (a, b) => FirstIndex(ws, a) < FirstIndex(ws, b)
  }

  lemma RankedTies(ws: seq<string>, stop: set<string>, topN: int)
    ensures OrderedWithTies(Ranked(ws, stop, topN), FirstSeen(ws))
  {
    var items := WordCounts(ws, stop);
    WordCountsOrder(ws, stop);
    SortIsStable(items, FirstSeen(ws));
  }

  /** No word of `ws` outside `stop` that `top` leaves out occurs more often than
      any word `top` keeps. */
  predicate KeepsMostFrequent(top: seq<(string, nat)>, ws: seq<string>, stop: set<string>)
  {
    forall w <- ws :: w !in stop && (forall e <- top :: e.0 != w) ==>
      forall e <- top :: multiset(ws)[w] <= e.1
  }

  lemma RankedTop(ws: seq<string>, stop: set<string>, topN: int)
    ensures KeepsMostFrequent(Ranked(ws, stop, topN), ws, stop)
  {
    var top := Ranked(ws, stop, topN);
    WordCountsCover(ws, stop);
    WordCountsValues(ws, stop);
    forall w | w in ws && w !in stop && (forall e <- top :: e.0 != w)
      ensures forall e <- top :: multiset(ws)[w] <= e.1
    {
      var e :| e in WordCounts(ws, stop) && e.0 == w;
      RankedTopOne(ws, stop, topN, e);
    }
  }

  /** A counted entry that is not in the top is outranked by every entry that is. */
  lemma RankedTopOne(ws: seq<string>, stop: set<string>, topN: int, e: (string, nat))
    requires e in WordCounts(ws, stop)
    requires forall f <- Ranked(ws, stop, topN) :: f.0 != e.0
    ensures forall f <- Ranked(ws, stop, topN) :: e.1 <= f.1
  {
    var items := WordCounts(ws, stop);
    var sorted := SortByCountDesc(items);
    var top := Ranked(ws, stop, topN);
    SortedByCount(items);
    assert top == sorted[..|top|];
    assert e in multiset(items);
    assert e in sorted;
    var j :| 0 <= j < |sorted| && sorted[j] == e;
    if j < |top| {
      assert false;
    }
    forall f | f in top ensures e.1 <= f.1 {
      var i :| 0 <= i < |top| && top[i] == f;
      assert sorted[i] == f;
    }
  }

  /** At most `top_n` entries; each a lower-case word of at least three letters that
      is not a stop word, with the number of times it occurs in the selected
      messages. */
  lemma TopWordsEntries(rows: seq<Row>, participant: Option<string>, topN: int)
    ensures topN >= 0 ==> |TopWords(rows, participant, topN)| <= topN
    ensures var ws := ChatTokens(rows, participant);
      forall e <- TopWords(rows, participant, topN) ::
        && |e.0| >= 3 && (forall c <- e.0 :: 'a' <= c <= 'z')
        && e.0 !in StopWords && e.1 == multiset(ws)[e.0] > 0
  {
    var ws := ChatTokens(rows, participant);
    RankedEntries(ws, StopWords, topN);
    TokensLowerCase(rows, participant);
  }

  /** The entries are the most frequent words: ordered by count, largest first;
      among equal counts in order of first appearance; and no word left out occurs
      more often than any word kept. */
  lemma TopWordsRanked(rows: seq<Row>, participant: Option<string>, topN: int)
    ensures var ws := ChatTokens(rows, participant);
      var top := TopWords(rows, participant, topN);
      && OrderedWithTies(top, FirstSeen(ws))
      && KeepsMostFrequent(top, ws, StopWords)
  {
    var ws := ChatTokens(rows, participant);
    if rows != [] {
      assert TopWords(rows, participant, topN) == Ranked(ws, StopWords, topN);
      RankedTies(ws, StopWords, topN);
      RankedTop(ws, StopWords, topN);
    } else {
      assert TopWords(rows, participant, topN) == [];
    }
  }

  /** No rows, no words; the tokens are those of each message in turn. */
  lemma TopWordsFromMessages(rows: seq<Row>, participant: Option<string>, topN: int)
    ensures TopWords([], participant, topN) == []
    ensures ChatTokens(rows, participant) == MessageTokens(Messages(Filtered(rows, participant)))
  {
    TokensOfJoin(Messages(Filtered(rows, participant)));
  }
}
