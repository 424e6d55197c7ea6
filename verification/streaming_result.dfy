/** The streaming result view (components/StreamingResult.tsx): the answer
    text after the first `---\n` separator is revealed one code unit per
    timer tick. Every tick sets the displayed text, which re-runs the effect,
    so the model steps the effect once per tick; the 5 ms period and the
    motion components are not modelled. */
module StreamingResult {
  import opened Wrappers
  import opened Strings
  import opened SplitJoin

  const SEPARATOR: JStr := Lit("---\n")

  /** `parts.length > 1 ? parts[1] : result` with `parts = result.split('---\n')`. */
  function CleanText(result: JStr): JStr {
    var parts := Split(result, SEPARATOR);
    if |parts| > 1 then parts[1] else result
  }

  /** One run of the effect followed by the first tick of its interval: an
      empty result clears the text; text equal to the clean text, or at
      least as long, stays; otherwise the clean text's prefix one unit
      longer than the displayed text is shown. */
  function Step(result: JStr, displayed: JStr): (next: JStr)
    ensures |result| == 0 ==> next == []
    ensures |result| > 0 && |displayed| < |CleanText(result)| ==>
              |next| == |displayed| + 1 && next == CleanText(result)[..|next|]
    ensures |result| > 0 && |displayed| >= |CleanText(result)| ==> next == displayed
  {
    if |result| == 0 then []
    else
      var clean := CleanText(result);
      if clean == displayed then displayed
      else if |displayed| >= |clean| then displayed
      else clean[..|displayed| + 1]
  }

  /** The displayed text after `n` ticks with the result unchanged. */
  function Iterate(result: JStr, displayed: JStr, n: nat): JStr
    decreases n
  {
    if n == 0 then displayed else Iterate(result, Step(result, displayed), n - 1)
  }

  /** The texts the interval sets when it runs without interruption from
      `start`: the clean text's prefixes one unit longer each time, up to
      the whole clean text. */
  function IntervalSets(clean: JStr, start: nat): (sets: seq<JStr>)
    ensures |sets| == if start < |clean| then |clean| - start else 0
  {
    var n := if start < |clean| then |clean| - start else 0;
    seq(n, k requires 0 <= k < n => clean[..start + k + 1])
  }

  /** The interval callback run without interruption from `start`: each
      tick sets the clean text's prefix one unit longer, until the target
      length is reached and the interval is cleared. */
  method RunInterval(clean: JStr, start: nat) returns (sets: seq<JStr>)
    ensures sets == IntervalSets(clean, start)
    ensures forall k :: 0 <= k < |sets| ==> |sets[k]| == start + k + 1 && clean[..|sets[k]|] == sets[k]
    ensures start < |clean| ==> sets[|sets| - 1] == clean
  {
    sets := [];
    var currentIndex := start;
    while currentIndex < |clean|
      invariant start <= currentIndex
      invariant start < |clean| ==> currentIndex <= |clean|
      invariant start >= |clean| ==> currentIndex == start
      invariant |sets| == currentIndex - start
      invariant forall k :: 0 <= k < |sets| ==> start + k + 1 <= |clean| && sets[k] == clean[..start + k + 1]
    {
      sets := sets + [clean[..currentIndex + 1]];
      currentIndex := currentIndex + 1;
    }
  }

  // ---------------------------------------------------------------------
  // Properties

  /** Without a separator the clean text is the whole result; with one, it
      is the text between the first separator and the next (or the end). */
  lemma CleanTextShape(result: JStr)
    ensures IndexOf(result, SEPARATOR).None? ==> CleanText(result) == result
    ensures IndexOf(result, SEPARATOR).Some? ==>
              var rest := result[IndexOf(result, SEPARATOR).value + |SEPARATOR|..];
              && (IndexOf(rest, SEPARATOR).None? ==> CleanText(result) == rest)
              && (IndexOf(rest, SEPARATOR).Some? ==> CleanText(result) == rest[..IndexOf(rest, SEPARATOR).value])
  {
    assert |SEPARATOR| == 4;
    if IndexOf(result, SEPARATOR).Some? {
      var rest := result[IndexOf(result, SEPARATOR).value + |SEPARATOR|..];
      assert Split(result, SEPARATOR) == [result[..IndexOf(result, SEPARATOR).value]] + Split(rest, SEPARATOR);
      assert Split(rest, SEPARATOR)[0] == if IndexOf(rest, SEPARATOR).Some? then rest[..IndexOf(rest, SEPARATOR).value] else rest;
    }
  }

  /** Once the clean text is shown nothing changes. */
  lemma CleanTextIsStable(result: JStr, n: nat)
    requires |result| > 0
    ensures Iterate(result, CleanText(result), n) == CleanText(result)
  {
    StaleWhenLongEnough(result, CleanText(result), n);
  }

  /** A displayed text at least as long as the clean text is never changed,
      even when it differs from it: the reveal only grows text. */
  lemma {:induction false} StaleWhenLongEnough(result: JStr, displayed: JStr, n: nat)
    requires |result| > 0 && |displayed| >= |CleanText(result)|
    ensures Iterate(result, displayed, n) == displayed
    decreases n
  {
    if n > 0 {
      StaleWhenLongEnough(result, displayed, n - 1);
    }
  }

  /** From a shorter displayed text, `k` ticks show the clean text's prefix
      `k` units longer; after as many ticks as units are missing the whole
      clean text is shown, whatever was displayed before. */
  lemma {:induction false} RevealConverges(result: JStr, displayed: JStr, k: nat)
    requires |result| > 0 && 0 < k <= |CleanText(result)| - |displayed|
    ensures Iterate(result, displayed, k) == CleanText(result)[..|displayed| + k]
    decreases k
  {
    var clean := CleanText(result);
    var next := Step(result, displayed);
    if k > 1 {
      RevealConverges(result, next, k - 1);
      assert clean[..|next| + (k - 1)] == clean[..|displayed| + k];
    } else {
      assert Iterate(result, next, 0) == next;
    }
  }

  /** The uninterrupted interval and the tick-by-tick re-runs of the effect
      show the same texts: the interval's `k`-th text, started from the
      displayed text's length, is what `k + 1` steps show. */
  lemma IntervalMatchesSteps(result: JStr, displayed: JStr, k: nat)
    requires |result| > 0 && k < |IntervalSets(CleanText(result), |displayed|)|
    ensures IntervalSets(CleanText(result), |displayed|)[k] == Iterate(result, displayed, k + 1)
  {
    RevealConverges(result, displayed, k + 1);
  }

  /** A result that is only a preamble and the separator has an empty clean
      text. */
  lemma PreambleOnlyHasNoCleanText(preamble: JStr)
    requires forall j :: 0 <= j < |preamble| ==> preamble[j] != SEPARATOR[0]
    ensures CleanText(preamble + SEPARATOR) == []
  {
    var result := preamble + SEPARATOR;
    FirstOccurrenceAfter(preamble, SEPARATOR, []);
    assert result == preamble + SEPARATOR + [];
    CleanTextShape(result);
    assert result[|preamble| + |SEPARATOR|..] == [];
  }

  /** While only the preamble and the separator have arrived, text already
      displayed stays as it is instead of being cleared. */
  lemma PreambleOnlyLeavesTextStale(preamble: JStr, displayed: JStr)
    requires forall j :: 0 <= j < |preamble| ==> preamble[j] != SEPARATOR[0]
    ensures Step(preamble + SEPARATOR, displayed) == displayed
  {
    PreambleOnlyHasNoCleanText(preamble);
  }
}
