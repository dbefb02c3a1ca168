/** The `ChatRAG` object of `utils/embeddings.py`: it holds the loaded chat with
    its `combined` column, searches it by keyword, and builds the context it
    would hand to the language model. The model itself is outside the model:
    its answer, or the error it fails with, is a parameter. */
module Rag {
  import opened Wrappers
  import opened Text
  import opened Sorting
  import opened Slices
  import opened Parser
  import opened Retrieval

  const NoChatLoaded := "No chat data loaded. Please upload a WhatsApp chat export first."
  const NothingRelevant := "I couldn't find relevant messages for your question."
  const NothingToSummarize := "No chat data to summarize."

  /** At most this many rows go into a summary prompt. */
  const SampleSize: nat := 50

  /** What the language model did with a prompt. */
  datatype ModelOutcome = Answered(text: string) | Failed(error: string)

  /** The reply once the model has been asked: its text, or the failure message
      for its error. */
  function ModelReply(outcome: ModelOutcome): (reply: string)
    ensures outcome.Failed? ==> (reply == Broke <==> IsRateLimitError(outcome.error))
    ensures outcome.Answered? ==> reply == outcome.text
  {
    match outcome
    case Answered(text) => text
    case Failed(error) => FailureReply(error)
  }

  /** A draw of `df.sample(n=50)`: fifty different row positions. */
  predicate IsSample(at: seq<nat>, n: nat)
  {
    |at| == SampleSize && Distinct(at) && forall k :: 0 <= k < |at| ==> at[k] < n
  }

  /** The lines of the summary context: every `combined` line when there are at
      most fifty rows, else the lines of the sampled rows. */
  function SummaryLines(lines: seq<string>, sample: seq<nat>): (r: seq<string>)
    requires |lines| > SampleSize ==> IsSample(sample, |lines|)
    ensures |r| == if |lines| > SampleSize then SampleSize else |lines|
    ensures forall k :: 0 <= k < |r| ==> r[k] in lines
    ensures |lines| <= SampleSize ==> r == lines
  {
    if |lines| > SampleSize then
      var r := Pick(lines, sample);
      assert forall k :: 0 <= k < |r| ==> r[k] == lines[sample[k]];
      r
    else lines
  }

  class ChatRag {
    /** `self.df`: `None` until a chat is loaded. */
    var df: Option<seq<Row>>
    /** `self.df['combined']`. */
    var combined: seq<string>

    predicate Valid()
      reads this
    {
      match df
      case None => combined == []
      case Some(rows) => StampsValid(rows) && combined == CombinedColumn(rows)
    }

    /** The loaded rows; none before `load_chat`. */
    function Rows(): seq<Row>
      reads this
    {
      if df.Some? then df.value else []
    }

    /** `__init__`, without the API key and the model it configures. */
    constructor ()
      ensures Valid() && df == None
    {
      df := None;
      combined := [];
    }

    /** `load_chat`: keep a copy of the rows and their `combined` lines. */
    method LoadChat(frame: seq<Row>)
      requires StampsValid(frame)
      modifies this
      ensures Valid()
      ensures df == Some(frame) && combined == CombinedColumn(frame)
    {
      df := Some(frame);
      combined := CombinedColumn(frame);
    }

    /** `_simple_search`: score every row, sort the scores, keep the scoring ones
        among the first `top_k`, fall back to the last `top_k` rows. */
    method SimpleSearch(query: string, topK: int) returns (found: seq<string>)
      requires Valid()
      ensures found == if Rows() == [] then [] else SearchResult(Rows(), query, topK)
    {
      if df.None? || df.value == [] {
        return [];
      }
      var rows := df.value;
      var words := QueryWords(query);
      var scores: seq<(nat, nat)> := [];
      for idx := 0 to |rows|
        invariant scores == Indexed(ScoreColumn(rows[..idx], words))
      {
        scores := scores + [(idx, Score(rows[idx].message, words))];
      }
      assert rows[..|rows|] == rows;
      ghost var column := ScoreColumn(rows, words);
      scores := SortByCountDesc(scores);
      assert scores == Ranking(column);
      var topIndices := Positions(DropZeros(PySliceTo(scores, topK)));
      if topIndices == [] {
        topIndices := PySliceFrom(Range(|rows|), -topK);
      }
      assert topIndices == Selection(rows, query, topK);
      SelectionInRange(rows, query, topK);
      assert |combined| == |rows|;
      found := Pick(combined, topIndices);
    }

    /** `query`: with no rows, the no-data reply; with no relevant lines, the
        no-match reply; otherwise the found lines joined by newlines are the
        context sent to the model, and its outcome decides the reply. */
    method Query(question: string, topK: int, outcome: ModelOutcome) returns (reply: string, context: Option<string>)
      requires Valid()
      ensures Rows() == [] ==> reply == NoChatLoaded && context == None
      ensures Rows() != [] && topK <= -|Rows()| ==> reply == NothingRelevant && context == None
      ensures Rows() != [] && topK > -|Rows()| ==>
        && context == Some(Join(SearchResult(Rows(), question, topK), "\n"))
        && reply == ModelReply(outcome)
    {
      if df.None? || df.value == [] {
        return NoChatLoaded, None;
      }
      var relevant := SimpleSearch(question, topK);
      ChooseEmptyIff(ScoreColumn(Rows(), QueryWords(question)), topK);
      if relevant == [] {
        return NothingRelevant, None;
      }
      context := Some(Join(relevant, "\n"));
      reply := ModelReply(outcome);
    }

    /** `get_summary`: with no rows, the no-data reply; otherwise the sampled
        `combined` lines joined by newlines are the context sent to the model.
        `sample` stands for the random draw of `df.sample`. */
    method GetSummary(sample: seq<nat>, outcome: ModelOutcome) returns (reply: string, context: Option<string>)
      requires Valid()
      requires |Rows()| > SampleSize ==> IsSample(sample, |Rows()|)
      ensures Rows() == [] ==> reply == NothingToSummarize && context == None
      ensures Rows() != [] ==>
        && context == Some(Join(SummaryLines(combined, sample), "\n"))
        && reply == ModelReply(outcome)
    {
      if df.None? || df.value == [] {
        return NothingToSummarize, None;
      }
      var lines := if |combined| > SampleSize then Pick(combined, sample) else combined;
      context := Some(Join(lines, "\n"));
      reply := ModelReply(outcome);
    }
  }
}
