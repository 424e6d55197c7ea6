/** `String.prototype.split` with a non-empty string separator and
    `Array.prototype.join`, the two list operations every part of the core
    uses on strings. */
module SplitJoin {
  import opened Wrappers
  import opened Strings

  /** `s.split(sep)`: the piece before the first occurrence of `sep`, then
      the pieces of what follows it; with no occurrence the whole string is
      the only piece. This is the left-to-right, non-overlapping scan of
      `String.prototype.split`. Every call in the core passes a non-empty
      literal separator. */
  function Split(s: JStr, sep: JStr): (parts: seq<JStr>)
    requires |sep| > 0
    ensures |parts| >= 1
    decreases |s|
  {
    match IndexOf(s, sep)
    case None => [s]
    case Some(i) => [s[..i]] + Split(s[i + |sep|..], sep)
  }

  /** `parts.join(sep)`; an empty array joins to `""`. */
  function Join(parts: seq<JStr>, sep: JStr): JStr {
    if |parts| == 0 then []
    else if |parts| == 1 then parts[0]
    else parts[0] + sep + Join(parts[1..], sep)
  }

  /** Joining one more piece at the front adds it and a separator. */
  lemma JoinCons(p: JStr, rest: seq<JStr>, sep: JStr)
    requires |rest| > 0
    ensures Join([p] + rest, sep) == p + sep + Join(rest, sep)
  {
    assert ([p] + rest)[1..] == rest;
  }

  /** Joining the pieces with the separator rebuilds the string. */
  lemma {:induction false} JoinSplit(s: JStr, sep: JStr)
    requires |sep| > 0
    ensures Join(Split(s, sep), sep) == s
    decreases |s|
  {
    match IndexOf(s, sep)
    case None =>
    case Some(i) =>
      var tail := s[i + |sep|..];
      JoinSplit(tail, sep);
      JoinCons(s[..i], Split(tail, sep), sep);
      Reassemble(s, i, |sep|);
  }

  /** A string is its prefix, a middle slice and the rest. */
  lemma Reassemble(s: JStr, i: nat, m: nat)
    requires i + m <= |s|
    ensures s[..i] + s[i..i + m] + s[i + m..] == s
  {
  }

  /** `s` does not contain the unit `u`. */
  predicate Free(s: JStr, u: Unit) {
    forall k :: 0 <= k < |s| ==> s[k] != u
  }

  /** For a one-unit separator, `indexOf` finds the first unit equal to it. */
  lemma UnitIndexOf(s: JStr, c: Unit)
    ensures IndexOf(s, [c]).None? ==> forall j :: 0 <= j < |s| ==> s[j] != c
    ensures IndexOf(s, [c]).Some? ==>
              var i := IndexOf(s, [c]).value;
              i < |s| && s[i] == c && forall j :: 0 <= j < i ==> s[j] != c
  {
    IndexOfIsFirst(s, [c]);
    forall j | 0 <= j < |s| && s[j] == c
      ensures OccursAt(s, [c], j)
    {
      assert s[j..j + 1] == [c];
    }
    if IndexOf(s, [c]).Some? {
      var i := IndexOf(s, [c]).value;
      assert s[i..i + 1][0] == s[i];
    }
  }

  /** Number of times the unit `c` occurs in `s`. */
  function CountOf(s: JStr, c: Unit): nat {
    multiset(s)[c]
  }

  /** A unit that does not occur is counted zero times. */
  lemma CountAbsent(s: JStr, c: Unit)
    requires forall j :: 0 <= j < |s| ==> s[j] != c
    ensures CountOf(s, c) == 0
  {
    assert c !in multiset(s);
  }

  /** The first occurrence of `c` adds one to the count of what follows. */
  lemma CountFirst(s: JStr, c: Unit, i: nat)
    requires i < |s| && s[i] == c
    requires forall j :: 0 <= j < i ==> s[j] != c
    ensures CountOf(s, c) == CountOf(s[i + 1..], c) + 1
  {
    assert s == s[..i] + [c] + s[i + 1..];
    assert multiset(s) == multiset(s[..i]) + multiset([c]) + multiset(s[i + 1..]);
    CountAbsent(s[..i], c);
  }

  /** Splitting on a one-unit separator gives one more piece than there are
      separators. */
  lemma {:induction false} SplitCount(s: JStr, c: Unit)
    ensures |Split(s, [c])| == CountOf(s, c) + 1
    decreases |s|
  {
    UnitIndexOf(s, c);
    match IndexOf(s, [c])
    case None =>
      CountAbsent(s, c);
    case Some(i) =>
      SplitCount(s[i + 1..], c);
      CountFirst(s, c, i);
  }

  /** No piece of a one-unit split contains the separator. */
  lemma {:induction false} SplitPiecesFree(s: JStr, c: Unit)
    ensures forall i, j :: 0 <= i < |Split(s, [c])| && 0 <= j < |Split(s, [c])[i]| ==>
              Split(s, [c])[i][j] != c
    decreases |s|
  {
    UnitIndexOf(s, c);
    match IndexOf(s, [c])
    case None =>
    case Some(i) =>
      SplitPiecesFree(s[i + 1..], c);
  }

  /** The first piece of a one-unit split is the longest prefix free of the
      separator: the string ends or the separator follows it. */
  lemma FirstPieceShape(s: JStr, c: Unit)
    ensures var t := Split(s, [c])[0];
            && |t| <= |s| && s[..|t|] == t
            && (|t| < |s| ==> s[|t|] == c)
            && forall k :: 0 <= k < |t| ==> t[k] != c
  {
    UnitIndexOf(s, c);
  }

  /** Appending one more piece adds one separator and the piece. */
  lemma {:induction false} JoinAppend(parts: seq<JStr>, p: JStr, sep: JStr)
    requires |parts| > 0
    ensures Join(parts + [p], sep) == Join(parts, sep) + sep + p
    decreases |parts|
  {
    if |parts| == 1 {
      assert (parts + [p])[1..] == [p];
    } else {
      assert (parts + [p])[1..] == parts[1..] + [p];
      JoinAppend(parts[1..], p, sep);
    }
  }

  /** The pieces, each followed by the separator: the shape of a stream of
      delimited records. */
  function Terminated(items: seq<JStr>, sep: JStr): JStr {
    if |items| == 0 then [] else items[0] + sep + Terminated(items[1..], sep)
  }

  lemma TerminatedAppend(items: seq<JStr>, item: JStr, sep: JStr)
    ensures Terminated(items + [item], sep) == Terminated(items, sep) + item + sep
  {
    if |items| == 0 {
      assert Terminated([item], sep) == item + sep + Terminated([], sep);
    } else {
      assert (items + [item])[1..] == items[1..] + [item];
      TerminatedAppend(items[1..], item, sep);
    }
  }

  /** A separator right after a piece free of its first unit is the first
      occurrence. */
  lemma FirstOccurrenceAfter(a: JStr, sep: JStr, rest: JStr)
    requires |sep| > 0
    requires Free(a, sep[0])
    ensures IndexOf(a + sep + rest, sep) == Some(|a|)
  {
    var s := a + sep + rest;
    IndexOfIsFirst(s, sep);
    assert s[|a|..|a| + |sep|] == sep;
    assert OccursAt(s, sep, |a|);
    forall j | 0 <= j < |a|
      ensures !OccursAt(s, sep, j)
    {
      assert s[j] == a[j];
    }
  }

  /** A record free of the terminator's first unit, followed by the
      terminator, splits off as the first piece. */
  lemma SplitRecord(a: JStr, sep: JStr, rest: JStr)
    requires |sep| > 0
    requires Free(a, sep[0])
    ensures Split(a + sep + rest, sep) == [a] + Split(rest, sep)
  {
    var s := a + sep + rest;
    FirstOccurrenceAfter(a, sep, rest);
    assert s[..|a|] == a;
    assert s[|a| + |sep|..] == rest;
  }

  /** Splitting a stream of terminated records on the terminator gives the
      records back, followed by the empty piece after the last terminator,
      provided no record holds the terminator's first unit. */
  lemma {:induction false} SplitTerminated(items: seq<JStr>, sep: JStr)
    requires |sep| > 0
    requires forall i :: 0 <= i < |items| ==> Free(items[i], sep[0])
    ensures Split(Terminated(items, sep), sep) == items + [[]]
    decreases |items|
  {
    if |items| > 0 {
      SplitTerminatedStep(items, sep);
      SplitTerminated(items[1..], sep);
      ConsAppend(items, []);
    }
  }

  /** Appending after the first item is appending to the tail. */
  lemma ConsAppend(items: seq<JStr>, last: JStr)
    requires |items| > 0
    ensures items + [last] == [items[0]] + (items[1..] + [last])
  {
  }

  /** The first terminated record splits off as the first piece. */
  lemma SplitTerminatedStep(items: seq<JStr>, sep: JStr)
    requires |sep| > 0 && |items| > 0
    requires Free(items[0], sep[0])
    ensures Split(Terminated(items, sep), sep) == [items[0]] + Split(Terminated(items[1..], sep), sep)
  {
    SplitRecord(items[0], sep, Terminated(items[1..], sep));
  }

  /** Terminating every piece is joining them and terminating the result. */
  lemma {:induction false} TerminatedJoin(parts: seq<JStr>, sep: JStr)
    requires |parts| > 0
    ensures Terminated(parts, sep) == Join(parts, sep) + sep
    decreases |parts|
  {
    if |parts| > 1 {
      TerminatedJoin(parts[1..], sep);
    } else {
      assert Terminated(parts[1..], sep) == [];
    }
  }

  /** Joining ASCII pieces with an ASCII separator gives ASCII text. */
  lemma {:induction false} JoinAscii(parts: seq<JStr>, sep: JStr)
    requires IsAscii(sep)
    requires forall i :: 0 <= i < |parts| ==> IsAscii(parts[i])
    ensures IsAscii(Join(parts, sep))
    decreases |parts|
  {
    if |parts| > 1 {
      JoinAscii(parts[1..], sep);
    }
  }

  /** The concatenation of a list of strings, `parts.join('')`. */
  function Concat(parts: seq<JStr>): JStr {
    if |parts| == 0 then [] else parts[0] + Concat(parts[1..])
  }

  /** Concatenating records that each end in the separator is the same as
      terminating each record. */
  lemma {:induction false} ConcatTerminated(items: seq<JStr>, sep: JStr)
    ensures Concat(seq(|items|, i requires 0 <= i < |items| => items[i] + sep)) == Terminated(items, sep)
    decreases |items|
  {
    var framed := seq(|items|, i requires 0 <= i < |items| => items[i] + sep);
    if |items| > 0 {
      ConcatTerminated(items[1..], sep);
      assert framed[1..] == seq(|items[1..]|, i requires 0 <= i < |items[1..]| => items[1..][i] + sep);
      assert framed[0] + Concat(framed[1..]) == items[0] + sep + Terminated(items[1..], sep);
    }
  }
}
