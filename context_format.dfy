/** The context formatter of the answer pipeline: it turns the ranked,
    retrieved chunks into the context text handed to the chat model and a
    parallel list of source citations, under a character budget. */
module ContextFormat {
  import opened Strings
  import opened Documents

  /** The default character budget. */
  const DefaultMaxChars := 8000
  /** The delimiter placed between two blocks. */
  const Separator := "\n---\n"
  /** A snippet keeps at most this many characters before the ellipsis. */
  const SnippetLimit := 300
  const Ellipsis := "..."
  /** The source reported for a chunk whose metadata has no "source". */
  const UnknownSource := "unknown"
  /** The characters a block adds around its source and text. */
  const BlockOverhead := 12

  /** One entry of the returned source list. */
  datatype SourceRef = SourceRef(source: string, snippet: string)

  /** A chunk after its source is defaulted and its content stripped. */
  datatype Entry = Entry(source: string, text: string)

  /** The formatter's two results: the context text and the source list. */
  datatype Formatted = Formatted(context: string, sources: seq<SourceRef>)

  /** A chunk after its source is defaulted to "unknown" and its content
      stripped. */
  function EntryOf(d: Doc): Entry {
    Entry(SourceOr(d, UnknownSource), Strip(d.content))
  }

  /** A chunk takes part in the formatting only if its stripped content is
      not empty. */
  predicate Contributes(d: Doc) {
    EntryOf(d).text != ""
  }

  function Entries(docs: seq<Doc>): (es: seq<Entry>)
    ensures |es| == |docs|
  {
    seq(|docs|, k requires 0 <= k < |docs| => EntryOf(docs[k]))
  }

  /** The entries whose text is not empty, in their original order. */
  function NonBlank(es: seq<Entry>): (r: seq<Entry>)
    ensures |r| <= |es|
    ensures forall k :: 0 <= k < |r| ==> r[k].text != ""
  {
    if es == [] then []
    else (if es[0].text != "" then [es[0]] else []) + NonBlank(es[1..])
  }

  /** The entries of the contributing chunks, in ranked order. */
  function Kept(docs: seq<Doc>): seq<Entry> {
    NonBlank(Entries(docs))
  }

  /** The citation snippet: newlines become spaces and the text is cut to
      300 characters, with "..." appended exactly when something was cut. */
  function Snippet(text: string): (r: string)
    ensures '\n' !in r
    ensures |r| <= SnippetLimit + |Ellipsis|
    ensures |r| > SnippetLimit <==> |text| > SnippetLimit
    ensures |text| > SnippetLimit ==> |r| == SnippetLimit + |Ellipsis| && EndsWith(r, Ellipsis)
    ensures |text| <= SnippetLimit ==> |r| == |text|
    ensures forall k :: 0 <= k < |text| && k < SnippetLimit && text[k] != '\n' ==> r[k] == text[k]
    ensures forall k :: 0 <= k < |text| && k < SnippetLimit && text[k] == '\n' ==> r[k] == ' '
  {
    var flat := NewlinesToSpaces(text);
    if |flat| > SnippetLimit then flat[..SnippetLimit] + Ellipsis else flat
  }

  /** The header line of a block. */
  function SourceTag(source: string): string {
    "[SOURCE: " + source + "]\n"
  }

  /** The block an entry contributes to the context. */
  function Block(e: Entry): (b: string)
    ensures |b| == |e.source| + |e.text| + BlockOverhead
    ensures b[..|SourceTag(e.source)|] == SourceTag(e.source)
    ensures OccursAt(b, e.text, |SourceTag(e.source)|)
    ensures EndsWith(b, "\n")
  {
    SourceTag(e.source) + e.text + "\n"
  }

  function Blocks(es: seq<Entry>): (bs: seq<string>)
    ensures |bs| == |es|
  {
    seq(|es|, k requires 0 <= k < |es| => Block(es[k]))
  }

  function Refs(es: seq<Entry>): (rs: seq<SourceRef>)
    ensures |rs| == |es|
  {
    seq(|es|, k requires 0 <= k < |es| => SourceRef(es[k].source, Snippet(es[k].text)))
  }

  /** The number of leading blocks kept by an accumulation that stops at the
      first block that would take the running total over `budget`. */
  function FitCount(blocks: seq<string>, budget: int): (n: nat)
    ensures n <= |blocks|
  {
    if blocks == [] || |blocks[0]| > budget then 0
    else 1 + FitCount(blocks[1..], budget - |blocks[0]|)
  }

  /** The kept blocks fit in the budget, and one more block would not. */
  lemma {:induction false} FitCountBounds(blocks: seq<string>, budget: int)
    ensures var n := FitCount(blocks, budget);
      (n > 0 ==> TotalLen(blocks[..n]) <= budget)
      && (n < |blocks| ==> TotalLen(blocks[..n + 1]) > budget)
  {
    if blocks == [] {
    } else if |blocks[0]| > budget {
      TotalLenCons(blocks, 1);
    } else {
      var m := FitCount(blocks[1..], budget - |blocks[0]|);
      FitCountBounds(blocks[1..], budget - |blocks[0]|);
      TotalLenCons(blocks, m + 1);
      if m < |blocks| - 1 {
        TotalLenCons(blocks, m + 2);
      }
    }
  }

  lemma TotalLenCons(blocks: seq<string>, m: nat)
    requires 1 <= m <= |blocks|
    ensures TotalLen(blocks[..m]) == |blocks[0]| + TotalLen(blocks[1..][..m - 1])
  {
    assert blocks[..m][0] == blocks[0];
    assert blocks[..m][1..] == blocks[1..][..m - 1];
  }

  /** The blocks placed in the context. */
  function Parts(docs: seq<Doc>, maxChars: int): seq<string> {
    var bs := Blocks(Kept(docs));
    bs[..FitCount(bs, maxChars)]
  }

  /** How many contributing chunks are cited: every placed one and, if the
      accumulation stopped early, the one that overflowed. */
  function SourceCount(docs: seq<Doc>, maxChars: int): nat {
    var n := FitCount(Blocks(Kept(docs)), maxChars);
    if n < |Kept(docs)| then n + 1 else n
  }

  /** What formatting `docs` under the budget `maxChars` returns. */
  function FormatSpec(docs: seq<Doc>, maxChars: int): Formatted {
    Formatted(Join(Parts(docs, maxChars), Separator),
              Refs(Kept(docs)[..SourceCount(docs, maxChars)]))
  }

  /** Formats the retrieved chunks in one pass: a running total, the parts
      and sources accumulated so far, and a stop at the first overflow. */
  method FormatContext(docs: seq<Doc>, maxChars: int) returns (context: string, sources: seq<SourceRef>)
    ensures Formatted(context, sources) == FormatSpec(docs, maxChars)
  {
    sources := [];
    var parts: seq<string> := [];
    var total := 0;
    ghost var stopped := false;
    assert docs[..|docs|] == docs;
    for i := 0 to |docs|
      invariant parts == Blocks(Kept(docs[..i]))
      invariant sources == Refs(Kept(docs[..i]))
      invariant total == TotalLen(parts)
      invariant FitCount(parts, maxChars) == |parts|
      invariant !stopped
    {
      var d := docs[i];
      var src := SourceOr(d, UnknownSource);
      var text := Strip(d.content);
      KeptSnoc(docs, i);
      if text == "" {
        continue;
      }
      var snippet := Snippet(text);
      sources := sources + [SourceRef(src, snippet)];
      var block := Block(Entry(src, text));
      if total + |block| > maxChars {
        OverflowStops(docs, i, maxChars);
        stopped := true;
        break;
      }
      FitCountAppend(parts, [block], maxChars);
      TotalLenConcat(parts, [block]);
      parts := parts + [block];
      total := total + |block|;
    }
    if !stopped {
      AllFit(docs, maxChars);
    }
    context := Join(parts, Separator);
  }

  lemma {:induction false} NonBlankConcat(a: seq<Entry>, b: seq<Entry>)
    ensures NonBlank(a + b) == NonBlank(a) + NonBlank(b)
  {
    if a == [] {
      assert a + b == b;
    } else {
      assert (a + b)[0] == a[0] && (a + b)[1..] == a[1..] + b;
      NonBlankConcat(a[1..], b);
    }
  }

  lemma KeptConcat(a: seq<Doc>, b: seq<Doc>)
    ensures Kept(a + b) == Kept(a) + Kept(b)
  {
    assert Entries(a + b) == Entries(a) + Entries(b);
    NonBlankConcat(Entries(a), Entries(b));
  }

  lemma KeptOne(d: Doc)
    ensures Kept([d]) == if Contributes(d) then [EntryOf(d)] else []
  {
    assert Entries([d]) == [EntryOf(d)];
    assert [EntryOf(d)][1..] == [];
  }

  /** One more chunk extends the kept entries by its own entry, if any. */
  lemma KeptSnoc(docs: seq<Doc>, i: nat)
    requires i < |docs|
    ensures Kept(docs[..i + 1]) == Kept(docs[..i]) + if Contributes(docs[i]) then [EntryOf(docs[i])] else []
    ensures Blocks(Kept(docs[..i]) + [EntryOf(docs[i])]) == Blocks(Kept(docs[..i])) + [Block(EntryOf(docs[i]))]
    ensures Refs(Kept(docs[..i]) + [EntryOf(docs[i])])
         == Refs(Kept(docs[..i])) + [SourceRef(EntryOf(docs[i]).source, Snippet(EntryOf(docs[i]).text))]
  {
    assert docs[..i + 1] == docs[..i] + [docs[i]];
    KeptConcat(docs[..i], [docs[i]]);
    KeptOne(docs[i]);
  }

  lemma {:induction false} FitCountAppend(a: seq<string>, c: seq<string>, budget: int)
    requires FitCount(a, budget) == |a|
    ensures FitCount(a + c, budget) == |a| + FitCount(c, budget - TotalLen(a))
  {
    if a == [] {
      assert a + c == c;
    } else {
      assert (a + c)[0] == a[0] && (a + c)[1..] == a[1..] + c;
      FitCountAppend(a[1..], c, budget - |a[0]|);
    }
  }

  lemma BlocksConcat(a: seq<Entry>, b: seq<Entry>)
    ensures Blocks(a + b) == Blocks(a) + Blocks(b)
    ensures Refs(a + b) == Refs(a) + Refs(b)
  {
  }

  lemma KeptAround(docs: seq<Doc>, i: nat)
    requires i < |docs|
    ensures Kept(docs) == Kept(docs[..i]) + Kept([docs[i]]) + Kept(docs[i + 1..])
  {
    assert docs == docs[..i] + [docs[i]] + docs[i + 1..];
    KeptConcat(docs[..i] + [docs[i]], docs[i + 1..]);
    KeptConcat(docs[..i], [docs[i]]);
  }

  /** Once `e`'s block overflows, nothing after the entries before it is placed. */
  lemma FitStopsAt(before: seq<Entry>, e: Entry, after: seq<Entry>, budget: int)
    requires FitCount(Blocks(before), budget) == |before|
    requires TotalLen(Blocks(before)) + |Block(e)| > budget
    ensures FitCount(Blocks(before + [e] + after), budget) == |before|
  {
    var rest := [Block(e)] + Blocks(after);
    assert Blocks(before + [e] + after) == Blocks(before) + rest;
    assert rest[0] == Block(e);
    FitCountAppend(Blocks(before), rest, budget);
  }

  /** When the block of chunk `i` overflows, the result is fixed by the
      chunks before it: they are all placed, and chunk `i` is cited last. */
  lemma OverflowStops(docs: seq<Doc>, i: nat, maxChars: int)
    requires i < |docs| && Contributes(docs[i])
    requires FitCount(Blocks(Kept(docs[..i])), maxChars) == |Kept(docs[..i])|
    requires TotalLen(Blocks(Kept(docs[..i]))) + |Block(EntryOf(docs[i]))| > maxChars
    ensures Parts(docs, maxChars) == Blocks(Kept(docs[..i]))
    ensures Refs(Kept(docs)[..SourceCount(docs, maxChars)]) == Refs(Kept(docs[..i]) + [EntryOf(docs[i])])
  {
    var before, e, after := Kept(docs[..i]), EntryOf(docs[i]), Kept(docs[i + 1..]);
    KeptAround(docs, i);
    KeptOne(docs[i]);
    var es := Kept(docs);
    assert es == before + [e] + after;
    FitStopsAt(before, e, after, maxChars);
    assert Blocks(es)[..|before|] == Blocks(before);
    assert es[..|before| + 1] == before + [e];
  }

  /** When every block fits, everything is placed and cited. */
  lemma AllFit(docs: seq<Doc>, maxChars: int)
    requires FitCount(Blocks(Kept(docs)), maxChars) == |Kept(docs)|
    ensures Parts(docs, maxChars) == Blocks(Kept(docs))
    ensures Kept(docs)[..SourceCount(docs, maxChars)] == Kept(docs)
  {
  }

  // Properties of the formatter's result.

  /** Python's `not text` test: a chunk contributes exactly when its content
      is not all whitespace. */
  lemma ContributesIffNotBlank(d: Doc)
    ensures Contributes(d) <==> !IsBlank(d.content)
  {
    StripMeaning(d.content);
  }

  /** The blocks placed in the context fit in the budget together. The
      separators are not counted. */
  lemma BudgetRespected(docs: seq<Doc>, maxChars: int)
    ensures Parts(docs, maxChars) == [] || TotalLen(Parts(docs, maxChars)) <= maxChars
  {
    FitCountBounds(Blocks(Kept(docs)), maxChars);
  }

  /** The placed blocks are the longest prefix of the contributing chunks'
      blocks that fits in the budget: a prefix of `k >= 1` blocks fits
      exactly when it is no longer than what was placed. A later block
      that would fit is still left out once one has overflowed. */
  lemma {:induction false} LongestFittingPrefix(docs: seq<Doc>, maxChars: int, k: nat)
    requires 1 <= k <= |Kept(docs)|
    ensures TotalLen(Blocks(Kept(docs))[..k]) <= maxChars <==> k <= |Parts(docs, maxChars)|
  {
    var bs := Blocks(Kept(docs));
    var n := FitCount(bs, maxChars);
    FitCountBounds(bs, maxChars);
    if k <= n {
      TotalLenMonotone(bs, k, n);
    } else {
      TotalLenMonotone(bs, n + 1, k);
    }
  }

  /** Each placed block is at least as long as its header and newlines. */
  lemma BlocksNotEmpty(es: seq<Entry>, k: nat)
    requires k < |es|
    ensures |Blocks(es)[k]| >= BlockOverhead
  {
  }

  /** The context is the placed blocks joined by the separator, so its
      length is their total plus five characters per separator; it is
      empty exactly when no block was placed. */
  lemma ContextLength(docs: seq<Doc>, maxChars: int)
    ensures var p := Parts(docs, maxChars); var c := FormatSpec(docs, maxChars).context;
      (c == "" <==> p == [])
      && (p != [] ==> |c| == TotalLen(p) + |Separator| * (|p| - 1))
  {
    var p := Parts(docs, maxChars);
    JoinLength(p, Separator);
    if p != [] {
      BlocksNotEmpty(Kept(docs), 0);
      assert TotalLen(p) >= |p[0]|;
    }
  }

  /** Because the separators are not counted, the context can be longer
      than the budget: two blocks that fill it exactly are both placed. */
  lemma ContextCanExceedBudget(d1: Doc, d2: Doc, maxChars: int)
    requires Contributes(d1) && Contributes(d2)
    requires |Block(EntryOf(d1))| + |Block(EntryOf(d2))| == maxChars
    ensures |FormatSpec([d1, d2], maxChars).context| == maxChars + |Separator|
  {
    var docs := [d1, d2];
    KeptConcat([d1], [d2]);
    KeptOne(d1);
    KeptOne(d2);
    assert docs == [d1] + [d2];
    var bs := Blocks(Kept(docs));
    assert bs == [Block(EntryOf(d1)), Block(EntryOf(d2))];
    assert bs[1..] == [Block(EntryOf(d2))] && bs[1..][1..] == [];
    assert FitCount(bs, maxChars) == 2;
    assert Parts(docs, maxChars) == bs;
    assert TotalLen(bs[1..]) == |Block(EntryOf(d2))| + TotalLen(bs[1..][1..]);
    ContextLength(docs, maxChars);
  }

  /** No chunk ranked after the first overflowing one is cited: citations
      stop at the overflowing chunk. */
  lemma NothingCitedAfterOverflow(docs: seq<Doc>, maxChars: int, m: nat)
    requires m < |Kept(docs)| && m > |Parts(docs, maxChars)|
    ensures m >= |FormatSpec(docs, maxChars).sources|
  {
    SourcesAlignWithParts(docs, maxChars);
  }

  /** Strict prefix, not best fit: when the second block overflows, the
      third is neither placed nor cited even though it would fit. */
  lemma StopsAtFirstOverflow(d1: Doc, d2: Doc, d3: Doc, maxChars: int)
    requires Contributes(d1) && Contributes(d2) && Contributes(d3)
    requires |Block(EntryOf(d1))| + |Block(EntryOf(d2))| > maxChars
    requires |Block(EntryOf(d1))| + |Block(EntryOf(d3))| <= maxChars
    ensures FormatSpec([d1, d2, d3], maxChars)
         == Formatted(Block(EntryOf(d1)), Refs([EntryOf(d1), EntryOf(d2)]))
  {
    var docs := [d1, d2, d3];
    assert docs == [d1] + [d2] + [d3];
    KeptConcat([d1] + [d2], [d3]);
    KeptConcat([d1], [d2]);
    KeptOne(d1);
    KeptOne(d2);
    KeptOne(d3);
    var es := Kept(docs);
    assert es == [EntryOf(d1), EntryOf(d2), EntryOf(d3)];
    var bs := Blocks(es);
    assert bs[1..][0] == Block(EntryOf(d2));
    assert FitCount(bs, maxChars) == 1;
    assert bs[..1] == [Block(EntryOf(d1))];
    assert es[..2] == [EntryOf(d1), EntryOf(d2)];
  }

  /** The source list cites every placed chunk and at most one more, the
      chunk whose block overflowed; it is cited at index `j` exactly when
      the `j`-th placed block names it. */
  lemma SourcesAlignWithParts(docs: seq<Doc>, maxChars: int)
    ensures var p := Parts(docs, maxChars); var srcs := FormatSpec(docs, maxChars).sources;
      |p| <= |srcs| <= |p| + 1
      && (|srcs| == |p| + 1 <==> |p| < |Kept(docs)|)
      && srcs == Refs(Kept(docs)[..|srcs|])
      && forall j :: 0 <= j < |p| ==>
           p[j][..|SourceTag(srcs[j].source)|] == SourceTag(srcs[j].source)
  {
    var p := Parts(docs, maxChars);
    var srcs := FormatSpec(docs, maxChars).sources;
    var es := Kept(docs);
    forall j | 0 <= j < |p|
      ensures p[j][..|SourceTag(srcs[j].source)|] == SourceTag(srcs[j].source)
    {
      assert p[j] == Block(es[j]) && srcs[j].source == es[j].source;
    }
  }

  /** A chunk whose content is empty or whitespace only changes nothing,
      wherever it is in the ranking. */
  lemma BlankChunkIgnored(a: seq<Doc>, d: Doc, b: seq<Doc>, maxChars: int)
    requires !Contributes(d)
    ensures FormatSpec(a + [d] + b, maxChars) == FormatSpec(a + b, maxChars)
  {
    KeptConcat(a + [d], b);
    KeptConcat(a, [d]);
    KeptConcat(a, b);
    KeptOne(d);
    assert Kept(a + [d] + b) == Kept(a + b);
  }

  /** No chunks give an empty context and no sources. */
  lemma NoChunks(maxChars: int)
    ensures FormatSpec([], maxChars) == Formatted("", [])
  {
  }

  /** A first chunk whose block is already too large leaves the context
      empty; it is still cited, and nothing after it is. */
  lemma FirstBlockTooLarge(docs: seq<Doc>, maxChars: int)
    requires docs != [] && Contributes(docs[0])
    requires |Block(EntryOf(docs[0]))| > maxChars
    ensures FormatSpec(docs, maxChars)
         == Formatted("", [SourceRef(EntryOf(docs[0]).source, Snippet(EntryOf(docs[0]).text))])
  {
    assert docs == [docs[0]] + docs[1..];
    KeptConcat([docs[0]], docs[1..]);
    KeptOne(docs[0]);
    var es := Kept(docs);
    assert es[0] == EntryOf(docs[0]);
    assert FitCount(Blocks(es), maxChars) == 0;
    assert es[..1] == [EntryOf(docs[0])];
  }

  /** A cited chunk without a "source" entry is cited as "unknown"; its
      citation sits after those of the contributing chunks ranked before it. */
  lemma MissingSourceIsUnknown(docs: seq<Doc>, maxChars: int, i: nat)
    requires i < |docs| && Contributes(docs[i]) && docs[i].source.None?
    requires |Kept(docs[..i])| < |FormatSpec(docs, maxChars).sources|
    ensures FormatSpec(docs, maxChars).sources[|Kept(docs[..i])|].source == UnknownSource
  {
    KeptAround(docs, i);
    KeptOne(docs[i]);
    assert Kept(docs)[|Kept(docs[..i])|] == EntryOf(docs[i]);
  }
}
