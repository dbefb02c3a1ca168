/** The parts of Python's `str` that the chat tools rely on: whitespace, `strip`,
    `split`, `join`, `lower`, substring search, code-point ordering and decimal
    digits. Whitespace is Python's full set; letters, digits and case are ASCII. */
module Text {

  /** Python's `str.isspace()`: the characters that `strip()`, `split()` and the
      regular-expression class `\s` treat as whitespace. */
  predicate IsSpace(c: char)
  {
    || ('\t' <= c <= '\r')
    || ('\U{1C}' <= c <= ' ')
    || c == '\U{85}' || c == '\U{A0}' || c == '\U{1680}'
    || ('\U{2000}' <= c <= '\U{200A}')
    || c == '\U{2028}' || c == '\U{2029}' || c == '\U{202F}' || c == '\U{205F}' || c == '\U{3000}'
  }

  predicate AllSpace(s: string)
  {
    forall c <- s :: IsSpace(c)
  }

  predicate IsDigit(c: char) { '0' <= c <= '9' }

  predicate IsUpper(c: char) { 'A' <= c <= 'Z' }

  predicate IsLetter(c: char) { 'a' <= c <= 'z' || IsUpper(c) }

  /** The regular-expression class `\w`. */
  predicate IsWordChar(c: char) { IsLetter(c) || IsDigit(c) || c == '_' }

  function LowerChar(c: char): char
  {
    if IsUpper(c) then (c as int + 32) as char else c
  }

  /** Python's `s.lower()`. */
  function Lower(s: string): string
  {
    seq(|s|, i requires 0 <= i < |s| => LowerChar(s[i]))
  }

  lemma LowerAppend(a: string, b: string)
    ensures Lower(a + b) == Lower(a) + Lower(b)
  {
    assert forall i :: 0 <= i < |a + b| ==> Lower(a + b)[i] == (Lower(a) + Lower(b))[i];
  }

  lemma LowerHasNoUpper(s: string)
    ensures forall c <- Lower(s) :: !IsUpper(c)
  {
    forall c | c in Lower(s) ensures !IsUpper(c) {
      var i :| 0 <= i < |Lower(s)| && Lower(s)[i] == c;
    }
  }

  /** Python's `s.replace(a, b)` for single characters. */
  function ReplaceChar(s: string, a: char, b: char): string
  {
    seq(|s|, i requires 0 <= i < |s| => if s[i] == a then b else s[i])
  }

  // ----- whitespace runs and stripping -----

  /** Index of the first non-whitespace character at or after `i`. */
  function SkipSpaces(s: string, i: nat): (j: nat)
    requires i <= |s|
    ensures i <= j <= |s|
    ensures forall k :: i <= k < j ==> IsSpace(s[k])
    ensures j == |s| || !IsSpace(s[j])
    decreases |s| - i
  {
    if i < |s| && IsSpace(s[i]) then SkipSpaces(s, i + 1) else i
  }

  /** The run of whitespace from `i` ends exactly at the first non-whitespace
      character. */
  lemma {:induction false} SkipSpacesTo(s: string, i: nat, j: nat)
    requires i <= j <= |s|
    requires forall k :: i <= k < j ==> IsSpace(s[k])
    requires j == |s| || !IsSpace(s[j])
    ensures SkipSpaces(s, i) == j
    decreases j - i
  {
    if i < j {
      SkipSpacesTo(s, i + 1, j);
    }
  }

  /** Index of the first whitespace character at or after `i`. */
  function SkipNonSpaces(s: string, i: nat): (j: nat)
    requires i <= |s|
    ensures i <= j <= |s|
    ensures forall k :: i <= k < j ==> !IsSpace(s[k])
    ensures j == |s| || IsSpace(s[j])
    decreases |s| - i
  {
    if i < |s| && !IsSpace(s[i]) then SkipNonSpaces(s, i + 1) else i
  }

  /** Start of the whitespace run that ends at `j`. */
  function BackSkipSpaces(s: string, j: nat): (i: nat)
    requires j <= |s|
    ensures i <= j
    ensures forall k :: i <= k < j ==> IsSpace(s[k])
    ensures i == 0 || !IsSpace(s[i - 1])
  {
    if j > 0 && IsSpace(s[j - 1]) then BackSkipSpaces(s, j - 1) else j
  }

  /** Python's `s.strip()`: the input with its leading and trailing whitespace
      removed (`StripTrims` says that nothing else is removed). */
  function Strip(s: string): (r: string)
    ensures r == [] || (!IsSpace(r[0]) && !IsSpace(r[|r| - 1]))
    ensures r == [] <==> AllSpace(s)
  {
    var a := SkipSpaces(s, 0);
    var t := s[a..];
    var b := BackSkipSpaces(t, |t|);
    assert AllSpace(s) <== b == 0 by {
      if b == 0 {
        forall c | c in s ensures IsSpace(c) {
          var k :| 0 <= k < |s| && s[k] == c;
        }
      }
    }
    t[..b]
  }

  /** What `strip` removes is a whitespace prefix and a whitespace suffix: the
      result is the slice of the input between them. */
  lemma StripTrims(s: string)
    ensures var r := Strip(s);
      exists a :: 0 <= a && a + |r| <= |s| && r == s[a..a + |r|] && AllSpace(s[..a]) && AllSpace(s[a + |r|..])
  {
    var a := SkipSpaces(s, 0);
    var t := s[a..];
    var b := BackSkipSpaces(t, |t|);
    assert Strip(s) == t[..b];
    assert t[..b] == s[a..a + b];
    assert AllSpace(s[..a]) by {
      forall c | c in s[..a] ensures IsSpace(c) { var k :| 0 <= k < a && s[k] == c; }
    }
    assert AllSpace(s[a + b..]) by {
      forall c | c in s[a + b..] ensures IsSpace(c) {
        var k :| a + b <= k < |s| && s[k] == c;
        assert c == t[k - a];
      }
    }
  }

  /** `strip` leaves a string alone when it neither starts nor ends with whitespace. */
  lemma StripUnchanged(s: string)
    requires s == [] || (!IsSpace(s[0]) && !IsSpace(s[|s| - 1]))
    ensures Strip(s) == s
  {
    if s != [] {
      assert SkipSpaces(s, 0) == 0;
      assert s[0..] == s;
      assert BackSkipSpaces(s, |s|) == |s|;
    }
  }

  lemma StripKeepsOut(s: string, c: char)
    requires c !in s
    ensures c !in Strip(s)
  {
    var r := Strip(s);
    StripTrims(s);
    var a :| 0 <= a && a + |r| <= |s| && r == s[a..a + |r|] && AllSpace(s[..a]) && AllSpace(s[a + |r|..]);
    forall k | 0 <= k < |r| ensures r[k] != c { assert r[k] == s[a + k]; }
  }

  /** `strip` twice is `strip` once. */
  lemma StripIdempotent(s: string)
    ensures Strip(Strip(s)) == Strip(s)
  {
    StripUnchanged(Strip(s));
  }

  // ----- splitting and joining -----

  /** Index of the first `c` at or after `from`, or `|s|`. */
  function IndexOf(s: string, c: char, from: nat): (k: nat)
    requires from <= |s|
    ensures from <= k <= |s|
    ensures forall j :: from <= j < k ==> s[j] != c
    ensures k < |s| ==> s[k] == c
    decreases |s| - from
  {
    if from == |s| || s[from] == c then from else IndexOf(s, c, from + 1)
  }

  /** Python's `sep.join(parts)`. */
  function Join(parts: seq<string>, sep: string): string
  {
    if |parts| == 0 then []
    else if |parts| == 1 then parts[0]
    else parts[0] + sep + Join(parts[1..], sep)
  }

  /** Python's `s.split(sep)` for a one-character separator: joining the pieces
      with the separator gives `s` back, and no piece holds the separator. */
  function Split(s: string, sep: char): (parts: seq<string>)
    ensures |parts| >= 1
    ensures forall p <- parts :: sep !in p
    ensures Join(parts, [sep]) == s
    decreases |s|
  {
    var k := IndexOf(s, sep, 0);
    if k == |s| then [s]
    else
      var rest := Split(s[k + 1..], sep);
      assert ([s[..k]] + rest)[1..] == rest;
      assert s[..k] + [sep] + s[k + 1..] == s;
      [s[..k]] + rest
  }

  /** Splitting text made by joining pieces that hold no separator gives the pieces
      back. */
  lemma {:induction false} SplitJoin(parts: seq<string>, sep: char)
    requires |parts| >= 1
    requires forall p <- parts :: sep !in p
    ensures Split(Join(parts, [sep]), sep) == parts
    decreases |parts|
  {
    var s := Join(parts, [sep]);
    var p0 := parts[0];
    assert sep !in p0;
    assert forall j :: 0 <= j < |p0| ==> p0[j] != sep;
    if |parts| == 1 {
      assert s == p0;
      assert IndexOf(s, sep, 0) == |s|;
    } else {
      var rest := Join(parts[1..], [sep]);
      assert s == p0 + [sep] + rest;
      assert forall j :: 0 <= j < |p0| ==> s[j] != sep;
      assert s[|p0|] == sep;
      assert IndexOf(s, sep, 0) == |p0|;
      assert s[..|p0|] == p0;
      assert s[|p0| + 1..] == rest;
      SplitJoin(parts[1..], sep);
      assert parts == [p0] + parts[1..];
    }
  }

  /** Python's `s.split()` with no argument: the maximal runs of non-whitespace. */
  function Words(s: string): (r: seq<string>)
    ensures forall w <- r :: w != [] && forall c <- w :: !IsSpace(c)
    ensures r == [] <==> AllSpace(s)
    decreases |s|
  {
    var a := SkipSpaces(s, 0);
    if a == |s| then
      assert AllSpace(s) by {
        forall c | c in s ensures IsSpace(c) { var k :| 0 <= k < |s| && s[k] == c; }
      }
      []
    else
      assert !IsSpace(s[a]);
      var b := SkipNonSpaces(s, a);
      [s[a..b]] + Words(s[b..])
  }

  /** A word is a whole word: a run of non-whitespace ends where whitespace starts. */
  lemma {:induction false} SkipNonSpacesTo(s: string, i: nat, j: nat)
    requires i <= j <= |s|
    requires forall k :: i <= k < j ==> !IsSpace(s[k])
    requires j == |s| || IsSpace(s[j])
    ensures SkipNonSpaces(s, i) == j
    decreases j - i
  {
    if i < j {
      SkipNonSpacesTo(s, i + 1, j);
    }
  }

  lemma WordsUnfold(s: string, a: nat, b: nat)
    requires a == SkipSpaces(s, 0) < |s| && b == SkipNonSpaces(s, a)
    ensures Words(s) == [s[a..b]] + Words(s[b..])
  {
  }

  /** Leading whitespace does not change the words. */
  lemma WordsDropSpace(s: string)
    requires s != [] && IsSpace(s[0])
    ensures Words(s) == Words(s[1..])
  {
    var a := SkipSpaces(s, 0);
    DropSpaceRuns(s);
    if a < |s| {
      DropSpaceWord(s, a, SkipNonSpaces(s, a));
    } else {
      assert Words(s[1..]) == [];
    }
  }

  lemma DropSpaceWord(s: string, a: nat, b: nat)
    requires s != [] && 1 <= a == SkipSpaces(s, 0) < |s| && b == SkipNonSpaces(s, a)
    requires SkipSpaces(s[1..], 0) == a - 1 && SkipNonSpaces(s[1..], a - 1) == b - 1
    ensures Words(s) == Words(s[1..])
  {
    WordsUnfold(s, a, b);
    WordsUnfold(s[1..], a - 1, b - 1);
    SliceShift(s, a, b);
  }

  lemma SliceShift(s: string, i: nat, j: nat)
    requires 1 <= i <= j <= |s|
    ensures s[1..][i - 1..j - 1] == s[i..j] && s[1..][j - 1..] == s[j..]
  {
  }

  /** The whitespace and word runs of `s[1..]`, when `s` starts with whitespace. */
  lemma DropSpaceRuns(s: string)
    requires s != [] && IsSpace(s[0])
    ensures var u := s[1..]; var a := SkipSpaces(s, 0);
      && a >= 1 && SkipSpaces(u, 0) == a - 1
      && (a < |s| ==> SkipNonSpaces(u, a - 1) == SkipNonSpaces(s, a) - 1)
  {
    var u := s[1..];
    var a := SkipSpaces(s, 0);
    forall k | 0 <= k < a - 1 ensures IsSpace(u[k]) { assert u[k] == s[k + 1]; }
    assert a - 1 < |u| ==> u[a - 1] == s[a];
    SkipSpacesTo(u, 0, a - 1);
    if a < |s| {
      var b := SkipNonSpaces(s, a);
      forall k | a - 1 <= k < b - 1 ensures !IsSpace(u[k]) { assert u[k] == s[k + 1]; }
      assert b - 1 < |u| ==> u[b - 1] == s[b];
      SkipNonSpacesTo(u, a - 1, b - 1);
    }
  }

  /** `" ".join(ws).split()` gives back `ws` when every word is non-empty and holds
      no whitespace. */
  lemma {:induction false} WordsJoin(ws: seq<string>)
    requires forall w <- ws :: w != [] && forall c <- w :: !IsSpace(c)
    ensures Words(Join(ws, " ")) == ws
  {
    if ws != [] {
      var w := ws[0];
      assert ws == [w] + ws[1..];
      assert w in ws;
      if |ws| == 1 {
        WordsFirst(w, []);
        assert w + [] == w;
      } else {
        var rest := " " + Join(ws[1..], " ");
        assert Join(ws, " ") == w + rest;
        WordsFirst(w, rest);
        WordsDropSpace(rest);
        assert rest[1..] == Join(ws[1..], " ");
        assert forall v <- ws[1..] :: v in ws;
        WordsJoin(ws[1..]);
      }
    }
  }

  /** A word followed by nothing or by whitespace is the first word. */
  lemma WordsFirst(w: string, rest: string)
    requires w != [] && forall c <- w :: !IsSpace(c)
    requires rest == [] || IsSpace(rest[0])
    ensures Words(w + rest) == [w] + Words(rest)
  {
    var s := w + rest;
    forall k | 0 <= k < |w| ensures !IsSpace(s[k]) { assert s[k] == w[k] && w[k] in w; }
    SkipSpacesTo(s, 0, 0);
    SkipNonSpacesTo(s, 0, |w|);
    assert s[..|w|] == w && s[|w|..] == rest;
    WordsUnfold(s, 0, |w|);
  }

  // ----- substring search -----

  predicate OccursAt(text: string, pat: string, i: int)
  {
    0 <= i && i + |pat| <= |text| && text[i..i + |pat|] == pat
  }

  /** Python's `pat in text`, as a left-to-right search. */
  predicate Contains(text: string, pat: string)
    decreases |text|
  {
    if |pat| > |text| then false
    else if text[..|pat|] == pat then true
    else Contains(text[1..], pat)
  }

  /** The search finds `pat` exactly when it occurs at some position. */
  lemma {:induction false} ContainsIff(text: string, pat: string)
    ensures Contains(text, pat) <==> exists i :: OccursAt(text, pat, i)
    decreases |text|
  {
    if |pat| > |text| {
    } else if text[..|pat|] == pat {
      assert OccursAt(text, pat, 0);
    } else {
      ContainsIff(text[1..], pat);
      if Contains(text[1..], pat) {
        var i :| OccursAt(text[1..], pat, i);
        assert text[1..][i..i + |pat|] == text[i + 1..i + 1 + |pat|];
        assert OccursAt(text, pat, i + 1);
      }
      if i :| OccursAt(text, pat, i) {
        assert i != 0;
        assert text[1..][i - 1..i - 1 + |pat|] == text[i..i + |pat|];
        assert OccursAt(text[1..], pat, i - 1);
      }
    }
  }

  /** Text appended on either side never removes an occurrence. */
  lemma ContainsExtend(text: string, pat: string, before: string, after: string)
    requires Contains(text, pat)
    ensures Contains(before + text + after, pat)
  {
    ContainsIff(text, pat);
    var i :| OccursAt(text, pat, i);
    var whole := before + text + after;
    assert whole[|before| + i..|before| + i + |pat|] == text[i..i + |pat|];
    assert OccursAt(whole, pat, |before| + i);
    ContainsIff(whole, pat);
  }

  // ----- code-point ordering (Python's `<` on str) -----

  predicate Less(a: string, b: string)
  {
    if a == [] then b != []
    else if b == [] then false
    else if a[0] != b[0] then a[0] < b[0]
    else Less(a[1..], b[1..])
  }

  lemma {:induction false} LessIrreflexive(a: string)
    ensures !Less(a, a)
  {
    if a != [] { LessIrreflexive(a[1..]); }
  }

  lemma {:induction false} LessAsymmetric(a: string, b: string)
    requires Less(a, b)
    ensures !Less(b, a)
  {
    if a != [] && b != [] && a[0] == b[0] { LessAsymmetric(a[1..], b[1..]); }
  }

  lemma {:induction false} LessTransitive(a: string, b: string, c: string)
    requires Less(a, b) && Less(b, c)
    ensures Less(a, c)
  {
    if a != [] && a[0] == b[0] && b[0] == c[0] {
      LessTransitive(a[1..], b[1..], c[1..]);
    }
  }

  lemma {:induction false} LessTotal(a: string, b: string)
    requires a != b
    ensures Less(a, b) || Less(b, a)
  {
    if a != [] && b != [] && a[0] == b[0] {
      assert a == [a[0]] + a[1..] && b == [b[0]] + b[1..];
      LessTotal(a[1..], b[1..]);
    }
  }

  // ----- decimal digits -----

  /** Length of the maximal run of digits starting at `i`. */
  function DigitRun(s: string, i: nat): (n: nat)
    requires i <= |s|
    ensures i + n <= |s|
    ensures forall k :: i <= k < i + n ==> IsDigit(s[k])
    ensures i + n == |s| || !IsDigit(s[i + n])
    decreases |s| - i
  {
    if i < |s| && IsDigit(s[i]) then 1 + DigitRun(s, i + 1) else 0
  }

  predicate AllDigits(s: string)
  {
    forall c <- s :: IsDigit(c)
  }

  function DigitValue(c: char): nat
    requires IsDigit(c)
  {
    c as int - '0' as int
  }

  function Digit(d: nat): char
    requires d < 10
  {
    ('0' as int + d) as char
  }

  /** Python's `int(s)` on a string of decimal digits. */
  function Decimal(s: string): nat
    requires AllDigits(s)
  {
    if s == [] then 0 else Decimal(s[..|s| - 1]) * 10 + DigitValue(s[|s| - 1])
  }

  function Pow10(n: nat): nat
  {
    if n == 0 then 1 else 10 * Pow10(n - 1)
  }

  /** `n` in decimal with leading zeros to `width` digits: Python's `'%0<width>d' % n`. */
  function PadDecimal(n: nat, width: nat): (r: string)
    ensures |r| == width
    ensures AllDigits(r)
  {
    if width == 0 then [] else PadDecimal(n / 10, width - 1) + [Digit(n % 10)]
  }

  /** Reading the padded digits back gives the number. */
  lemma {:induction false} DecimalOfPad(n: nat, width: nat)
    requires n < Pow10(width)
    ensures Decimal(PadDecimal(n, width)) == n
  {
    if width > 0 {
      var s := PadDecimal(n, width);
      assert s[..|s| - 1] == PadDecimal(n / 10, width - 1);
      DecimalOfPad(n / 10, width - 1);
    }
  }
}
