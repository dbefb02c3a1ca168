/** Python's slices `s[:n]` and `s[n:]`, where a negative bound counts from the end. */
module Slices {

  /** Python's `s[:n]`: the first `n` entries, or all but the last `-n` when `n` is
      negative. */
  function PySliceTo<T>(s: seq<T>, n: int): (r: seq<T>)
    ensures |r| <= |s| && r == s[..|r|]
    ensures n >= 0 ==> |r| == if n < |s| then n else |s|
    ensures n < 0 ==> |r| == if |s| + n > 0 then |s| + n else 0
  {
    if n >= 0 then (if n < |s| then s[..n] else s)
    else if |s| + n > 0 then s[..|s| + n] else []
  }

  /** Python's `s[n:]`: everything from entry `n` on, or the last `-n` entries when
      `n` is negative; `s[-0:]` is all of `s`. */
  function PySliceFrom<T>(s: seq<T>, n: int): (r: seq<T>)
    ensures |r| <= |s| && r == s[|s| - |r|..]
    ensures n >= 0 ==> |r| == if n < |s| then |s| - n else 0
    ensures n < 0 ==> |r| == if -n < |s| then -n else |s|
  {
    if n >= 0 then (if n < |s| then s[n..] else [])
    else if -n < |s| then s[|s| + n..] else s
  }
}
