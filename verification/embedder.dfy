/** The offline embedder script (scripts/embedder.ts): after loading and
    splitting the documents it points each chunk's `metadata.source` at the
    scraped page it came from (`fix_urls`), and reports token statistics
    over the chunks. The scraped-URL file's text and the tokenizer are
    parameters; loading, splitting and the vector store are not modelled. */
module Embedder {
  import opened Wrappers
  import opened Strings
  import opened SplitJoin

  const SLASH: Unit := 0x2F
  const DOT: Unit := 0x2E
  const LINE_FEED: Unit := 0x0A

  /** A document chunk, through the two fields the script touches. */
  datatype Doc = Doc(source: JStr, pageContent: JStr)

  /** `readFileSync(...).split('\n')`: one URL per line. */
  function UrlList(file: JStr): (urls: seq<JStr>)
    ensures |urls| >= 1
  {
    Split(file, [LINE_FEED])
  }

  /** `source.split('/').pop()`: the last path segment. */
  function LastSegment(source: JStr): JStr {
    var parts := Split(source, [SLASH]);
    parts[|parts| - 1]
  }

  /** `.split('.')[0]`: the last path segment up to its first dot. */
  function Stem(source: JStr): JStr {
    Split(LastSegment(source), [DOT])[0]
  }

  /** The first URL that includes `stem`, searching in file order. */
  function FirstIncluding(urls: seq<JStr>, stem: JStr): (r: Option<JStr>)
    ensures r.Some? ==> exists i :: 0 <= i < |urls| && urls[i] == r.value && Includes(urls[i], stem)
                          && forall j :: 0 <= j < i ==> !Includes(urls[j], stem)
    ensures r.None? <==> forall i :: 0 <= i < |urls| ==> !Includes(urls[i], stem)
    decreases |urls|
  {
    if |urls| == 0 then None
    else if Includes(urls[0], stem) then Some(urls[0])
    else
      var r := FirstIncluding(urls[1..], stem);
      assert forall i :: 1 <= i < |urls| ==> urls[i] == urls[1..][i - 1];
      r
  }

  /** One iteration of the outer loop of `fix_urls`: the source becomes the
      first URL including its stem, or stays as it is; the page content is
      not touched. */
  function FixedDoc(doc: Doc, urls: seq<JStr>): (r: Doc)
    ensures r.pageContent == doc.pageContent
    ensures FirstIncluding(urls, Stem(doc.source)).None? ==> r == doc
    ensures FirstIncluding(urls, Stem(doc.source)).Some? ==> r.source in urls && Includes(r.source, Stem(doc.source))
  {
    match FirstIncluding(urls, Stem(doc.source))
    case None => doc
    case Some(url) => doc.(source := url)
  }

  /** `fix_urls(docs)`, document by document, in place. */
  method FixUrls(docs: seq<Doc>, file: JStr) returns (fixed: seq<Doc>)
    ensures |fixed| == |docs|
    ensures forall i :: 0 <= i < |docs| ==> fixed[i] == FixedDoc(docs[i], UrlList(file))
    ensures forall i :: 0 <= i < |docs| ==> fixed[i].pageContent == docs[i].pageContent
  {
    var urls := UrlList(file);
    fixed := docs;
    var i := 0;
    while i < |docs|
      invariant 0 <= i <= |docs| && |fixed| == |docs|
      invariant forall k :: 0 <= k < i ==> fixed[k] == FixedDoc(docs[k], urls)
      invariant forall k :: i <= k < |docs| ==> fixed[k] == docs[k]
    {
      fixed := fixed[i := FixedDoc(docs[i], urls)];
      i := i + 1;
    }
  }

  // ---------------------------------------------------------------------
  // Token statistics

  /** Sum of a list of counts, accumulated front to back. */
  function Sum(xs: seq<nat>): nat {
    if |xs| == 0 then 0 else Sum(xs[..|xs| - 1]) + xs[|xs| - 1]
  }

  /** The token count of every chunk. */
  function Counts(docs: seq<Doc>, tokens: JStr -> nat): (r: seq<nat>)
    ensures |r| == |docs|
    ensures forall i :: 0 <= i < |docs| ==> r[i] == tokens(docs[i].pageContent)
  {
    if |docs| == 0 then [] else [tokens(docs[0].pageContent)] + Counts(docs[1..], tokens)
  }

  /** The statistics loop: the total number of tokens and the largest count
      (0 when there are no chunks, as `max_tokens` starts at 0). */
  method TokenStats(docs: seq<Doc>, tokens: JStr -> nat) returns (total: nat, max: nat)
    ensures total == Sum(Counts(docs, tokens))
    ensures forall i :: 0 <= i < |docs| ==> tokens(docs[i].pageContent) <= max
    ensures max == 0 || exists i :: 0 <= i < |docs| && tokens(docs[i].pageContent) == max
    ensures max <= total
  {
    var counts := Counts(docs, tokens);
    total, max := 0, 0;
    var i := 0;
    while i < |docs|
      invariant 0 <= i <= |docs|
      invariant total == Sum(counts[..i])
      invariant forall k :: 0 <= k < i ==> counts[k] <= max
      invariant max == 0 || exists k :: 0 <= k < i && counts[k] == max
      invariant max <= total
    {
      assert counts[..i + 1][..i] == counts[..i];
      var n := counts[i];
      total := total + n;
      if n > max {
        max := n;
      }
      i := i + 1;
    }
    assert counts[..i] == counts;
  }

  // ---------------------------------------------------------------------
  // Properties

  /** The last segment is the part of the source after its last `/`: a
      suffix with no `/`, preceded by a `/` unless it is the whole source. */
  lemma LastSegmentShape(source: JStr)
    ensures var seg := LastSegment(source);
            && |seg| <= |source| && source[|source| - |seg|..] == seg
            && (|seg| < |source| ==> source[|source| - |seg| - 1] == SLASH)
            && Free(seg, SLASH)
  {
    var parts := Split(source, [SLASH]);
    var n := |parts|;
    var seg := parts[n - 1];
    JoinSplit(source, [SLASH]);
    SplitPiecesFree(source, SLASH);
    if n > 1 {
      assert parts == parts[..n - 1] + [seg];
      JoinAppend(parts[..n - 1], seg, [SLASH]);
      var head := Join(parts[..n - 1], [SLASH]);
      assert source == head + [SLASH] + seg;
      assert source[|source| - |seg|..] == seg;
    }
  }

  /** The stem is the last segment up to its first dot: a prefix with no
      `.` and no `/`, followed by a `.` unless it is the whole segment. */
  lemma StemShape(source: JStr)
    ensures var seg := LastSegment(source);
            var stem := Stem(source);
            && |stem| <= |seg| && seg[..|stem|] == stem
            && (|stem| < |seg| ==> seg[|stem|] == DOT)
            && Free(stem, DOT) && Free(stem, SLASH)
  {
    var seg := LastSegment(source);
    LastSegmentShape(source);
    SplitPiecesFree(seg, DOT);
    var stem := Stem(source);
    if IndexOf(seg, [DOT]).Some? {
      var i := IndexOf(seg, [DOT]).value;
      assert seg[i..i + 1] == [DOT];
    }
    assert forall k :: 0 <= k < |stem| ==> stem[k] == seg[k];
  }

  /** A source whose last segment starts with a dot has an empty stem, which
      every URL includes: such a chunk takes the first line of the file. */
  lemma EmptyStemTakesFirstUrl(doc: Doc, file: JStr)
    requires Stem(doc.source) == []
    ensures FixedDoc(doc, UrlList(file)).source == UrlList(file)[0]
  {
    var urls := UrlList(file);
    assert OccursAt(urls[0], [], 0);
  }

  /** No URL holds a line feed, and the file gives one more URL than it has
      line feeds (a trailing line feed gives a final empty URL). */
  lemma UrlListShape(file: JStr)
    ensures |UrlList(file)| == CountOf(file, LINE_FEED) + 1
    ensures forall i :: 0 <= i < |UrlList(file)| ==> Free(UrlList(file)[i], LINE_FEED)
  {
    SplitCount(file, LINE_FEED);
    SplitPiecesFree(file, LINE_FEED);
  }
}
