/** The legacy answer view (components/Answer/Answer.tsx): the answer text
    shown word by word, and, when asked for, a "Read More" list with one
    link per distinct document title. Styling and animation delays are not
    modelled. */
module AnswerView {
  import opened Wrappers
  import opened Strings
  import opened SplitJoin

  const SPACE: Unit := 0x20
  const SLASH: Unit := 0x2F

  const PDF: JStr := Lit("pdf")
  const PDF_ICON: JStr := Lit("/favicon_pdf.png")
  const DEFAULT_ICON: JStr := Lit("/favicon_black.ico")

  /** A retrieved document, through its metadata fields. */
  datatype DocMeta = DocMeta(title: JStr, source: JStr, url: JStr)

  /** One rendered link: its target, its text, its icon and the icon's alt
      text, and the index of the document it came from (its React key). */
  datatype Link = Link(href: JStr, title: JStr, icon: JStr, alt: JStr, position: nat)

  /** The rendered answer: the word spans, and the "Read More" list when
      documents are shown. */
  datatype View = View(words: seq<JStr>, readMore: Option<seq<Link>>)

  /** `text.split(" ")`. */
  function Words(text: JStr): (w: seq<JStr>)
    ensures |w| >= 1
  {
    Split(text, [SPACE])
  }

  /** The text of the word spans: every word followed by a space. */
  function SpanText(words: seq<JStr>): JStr {
    Concat(seq(|words|, i requires 0 <= i < |words| => words[i] + [SPACE]))
  }

  /** `source.split("/")[0]`: the document type. */
  function DocType(source: JStr): JStr {
    Split(source, [SLASH])[0]
  }

  predicate IsPdf(source: JStr) {
    DocType(source) == PDF
  }

  function LinkFor(d: DocMeta, position: nat): Link {
    Link(d.url, d.title, if IsPdf(d.source) then PDF_ICON else DEFAULT_ICON, DocType(d.source), position)
  }

  /** No earlier document has the same title. */
  predicate FirstWithTitle(docs: seq<DocMeta>, i: int)
    requires 0 <= i < |docs|
  {
    forall j :: 0 <= j < i ==> docs[j].title != docs[i].title
  }

  /** Reference definition of the list: a link for each document whose
      title no earlier document has, in document order. */
  function FirstLinks(docs: seq<DocMeta>): seq<Link>
    decreases |docs|
  {
    if |docs| == 0 then []
    else
      var n := |docs| - 1;
      FirstLinks(docs[..n]) + (if FirstWithTitle(docs, n) then [LinkFor(docs[n], n)] else [])
  }

  function Titles(docs: seq<DocMeta>): set<JStr> {
    set j | 0 <= j < |docs| :: docs[j].title
  }

  /** The `documents.map` with the `uniqueDocs` set: a document whose title
      is already in the set renders nothing; otherwise its title is added
      and its link rendered. */
  method RenderLinks(docs: seq<DocMeta>) returns (links: seq<Link>, seen: set<JStr>)
    ensures links == FirstLinks(docs)
    ensures seen == Titles(docs)
  {
    links, seen := [], {};
    var i := 0;
    while i < |docs|
      invariant 0 <= i <= |docs|
      invariant seen == Titles(docs[..i])
      invariant links == FirstLinks(docs[..i])
    {
      RenderStep(docs, i);
      if docs[i].title !in seen {
        seen := seen + {docs[i].title};
        links := links + [LinkFor(docs[i], i)];
      }
      i := i + 1;
    }
    assert docs[..i] == docs;
  }

  /** One more document: its title is new exactly when it is not among the
      earlier titles, and then it adds its link. */
  lemma RenderStep(docs: seq<DocMeta>, i: nat)
    requires i < |docs|
    ensures Titles(docs[..i + 1]) == Titles(docs[..i]) + {docs[i].title}
    ensures FirstLinks(docs[..i + 1]) ==
              FirstLinks(docs[..i]) + (if docs[i].title !in Titles(docs[..i]) then [LinkFor(docs[i], i)] else [])
  {
    var prefix := docs[..i + 1];
    assert prefix[..i] == docs[..i];
    assert FirstWithTitle(prefix, i) <==> docs[i].title !in Titles(docs[..i]) by {
      if docs[i].title in Titles(docs[..i]) {
        var j :| 0 <= j < i && docs[..i][j].title == docs[i].title;
        assert prefix[j].title == prefix[i].title;
      }
    }
  }

  /** The whole component, as rendered after the `[text]` effect has run:
      before it, `words` is still the initial empty list. */
  method Render(text: JStr, showDocuments: bool, documents: seq<DocMeta>) returns (v: View)
    ensures v.words == Words(text)
    ensures v.readMore.Some? <==> showDocuments
    ensures showDocuments ==> v.readMore.value == FirstLinks(documents)
  {
    var links: seq<Link> := [];
    if showDocuments {
      var seen;
      links, seen := RenderLinks(documents);
      return View(Words(text), Some(links));
    }
    return View(Words(text), None);
  }

  // ---------------------------------------------------------------------
  // Properties

  /** The spans show the text followed by one space, and there is one more
      span than there are spaces in the text; no word holds a space. */
  lemma WordsRender(text: JStr)
    ensures SpanText(Words(text)) == text + [SPACE]
    ensures |Words(text)| == CountOf(text, SPACE) + 1
    ensures forall i, j :: 0 <= i < |Words(text)| && 0 <= j < |Words(text)[i]| ==> Words(text)[i][j] != SPACE
  {
    var w := Words(text);
    ConcatTerminated(w, [SPACE]);
    TerminatedJoin(w, [SPACE]);
    JoinSplit(text, [SPACE]);
    SplitCount(text, SPACE);
    SplitPiecesFree(text, SPACE);
  }

  /** The type is the first `/`-separated segment of the source. */
  lemma DocTypeShape(source: JStr)
    ensures var t := DocType(source);
            && |t| <= |source| && (forall k :: 0 <= k < |t| ==> t[k] == source[k] && t[k] != SLASH)
            && (|t| < |source| ==> source[|t|] == SLASH)
  {
    FirstPieceShape(source, SLASH);
  }

  lemma PdfDirectoryIsPdf(source: JStr)
    requires |source| >= 4 && source[..4] == PDF + [SLASH]
    ensures IsPdf(source)
  {
    DocTypeShape(source);
    var t := DocType(source);
    assert PDF + [SLASH] == [0x70, 0x64, 0x66, 0x2F];
    assert source[0] == 0x70 && source[1] == 0x64 && source[2] == 0x66 && source[3] == SLASH by {
      assert forall m :: 0 <= m < 4 ==> source[m] == source[..4][m];
    }
    assert |t| == 3;
    assert t == PDF;
  }

  lemma BarePdfIsPdf(source: JStr)
    requires source == PDF
    ensures IsPdf(source)
  {
    DocTypeShape(source);
    var t := DocType(source);
    assert PDF == [0x70, 0x64, 0x66];
    assert |t| == 3;
    assert t == PDF;
  }

  lemma PdfIsPrefixed(source: JStr)
    requires IsPdf(source)
    ensures source == PDF || (|source| >= 4 && source[..4] == PDF + [SLASH])
  {
    DocTypeShape(source);
    var t := DocType(source);
    assert |t| == 3;
    if |source| > 3 {
      assert source[..4] == t + [source[3]];
    } else {
      assert source == t;
    }
  }

  /** A source counts as a PDF exactly when it is `pdf` or starts with
      `pdf/`. */
  lemma PdfIff(source: JStr)
    ensures IsPdf(source) <==> source == PDF || (|source| >= 4 && source[..4] == PDF + [SLASH])
  {
    if IsPdf(source) {
      PdfIsPrefixed(source);
    } else if source == PDF {
      BarePdfIsPdf(source);
    } else if |source| >= 4 && source[..4] == PDF + [SLASH] {
      PdfDirectoryIsPdf(source);
    }
  }

  /** The link of a document with a title no earlier document has. */
  predicate LinkOk(docs: seq<DocMeta>, l: Link) {
    && l.position < |docs|
    && FirstWithTitle(docs, l.position)
    && l == LinkFor(docs[l.position], l.position)
  }

  /** A link that is right for a prefix is right for the whole list. */
  lemma LinkOkExtend(prefix: seq<DocMeta>, docs: seq<DocMeta>, l: Link)
    requires |prefix| <= |docs| && prefix == docs[..|prefix|] && LinkOk(prefix, l)
    ensures LinkOk(docs, l)
  {
    var p := l.position;
    assert docs[p] == prefix[p];
    forall j | 0 <= j < p ensures docs[j].title != docs[p].title {
      assert prefix[j] == docs[j];
    }
  }

  /** Every link is the link of a document with a title no earlier document
      has, and the positions increase. */
  lemma {:induction false} FirstLinksPositions(docs: seq<DocMeta>)
    ensures forall k :: 0 <= k < |FirstLinks(docs)| ==> LinkOk(docs, FirstLinks(docs)[k])
    ensures forall a, b :: 0 <= a < b < |FirstLinks(docs)| ==> FirstLinks(docs)[a].position < FirstLinks(docs)[b].position
    decreases |docs|
  {
    if |docs| > 0 {
      var n := |docs| - 1;
      var prefix := docs[..n];
      FirstLinksPositions(prefix);
      var rp := FirstLinks(prefix);
      assert forall k :: 0 <= k < |rp| ==> LinkOk(prefix, rp[k]);
      var tail := if FirstWithTitle(docs, n) then [LinkFor(docs[n], n)] else [];
      var r := FirstLinks(docs);
      assert r == rp + tail;
      forall k | 0 <= k < |rp| ensures LinkOk(docs, rp[k]) && rp[k].position < n {
        LinkOkExtend(prefix, docs, rp[k]);
      }
      forall k | 0 <= k < |r| ensures LinkOk(docs, r[k]) && (k < |rp| ==> r[k].position < n) {
        if k < |rp| { assert r[k] == rp[k]; }
      }
      forall a, b | 0 <= a < b < |r| ensures r[a].position < r[b].position {
        assert r[a] == rp[a];
        if b < |rp| { assert r[b] == rp[b]; }
      }
    }
  }

  /** No two links have the same title. */
  lemma LinkTitlesDistinct(docs: seq<DocMeta>)
    ensures var r := FirstLinks(docs);
            forall a, b :: 0 <= a < b < |r| ==> r[a].title != r[b].title
  {
    var r := FirstLinks(docs);
    FirstLinksPositions(docs);
    forall a, b | 0 <= a < b < |r| ensures r[a].title != r[b].title {
      assert LinkOk(docs, r[a]) && LinkOk(docs, r[b]);
      assert FirstWithTitle(docs, r[b].position);
      assert r[a].title == docs[r[a].position].title;
    }
  }

  predicate HasLink(links: seq<Link>, title: JStr) {
    exists k :: 0 <= k < |links| && links[k].title == title
  }

  /** Every document's title has a link. */
  lemma {:induction false} EveryTitleLinked(docs: seq<DocMeta>)
    ensures forall i :: 0 <= i < |docs| ==> HasLink(FirstLinks(docs), docs[i].title)
    decreases |docs|
  {
    if |docs| > 0 {
      var n := |docs| - 1;
      var prefix := docs[..n];
      EveryTitleLinked(prefix);
      var rp := FirstLinks(prefix);
      var tail := if FirstWithTitle(docs, n) then [LinkFor(docs[n], n)] else [];
      var r := FirstLinks(docs);
      assert r == rp + tail;
      forall i | 0 <= i < |docs| ensures HasLink(r, docs[i].title) {
        var i' := i;
        if i == n && !FirstWithTitle(docs, n) {
          var j :| 0 <= j < n && docs[j].title == docs[n].title;
          i' := j;
        }
        if i' < n {
          assert docs[i'] == prefix[i'];
          assert HasLink(rp, prefix[i'].title);
          var k :| 0 <= k < |rp| && rp[k].title == prefix[i'].title;
          assert r[k] == rp[k];
        } else {
          assert r[|r| - 1] == LinkFor(docs[n], n);
        }
      }
    }
  }

  /** Each link points at its document's URL and is labelled with its
      title; the list never has more links than documents. */
  lemma LinksPointAtUrls(docs: seq<DocMeta>)
    ensures var r := FirstLinks(docs);
            && |r| <= |docs|
            && forall k :: 0 <= k < |r| ==>
                 && r[k].position < |docs|
                 && r[k].href == docs[r[k].position].url && r[k].title == docs[r[k].position].title
  {
    var r := FirstLinks(docs);
    FirstLinksPositions(docs);
    FirstLinksLength(docs);
    forall k | 0 <= k < |r| ensures r[k].position < |docs| && r[k].href == docs[r[k].position].url {
      assert LinkOk(docs, r[k]);
    }
  }

  lemma {:induction false} FirstLinksLength(docs: seq<DocMeta>)
    ensures |FirstLinks(docs)| <= |docs|
    decreases |docs|
  {
    if |docs| > 0 {
      FirstLinksLength(docs[..|docs| - 1]);
    }
  }
}
