/** The document loaders: the code/text tree walk with its exclusion filter
    and the PDF directory scan with its file-name filter. The file system,
    the glob-driven directory loader and the PDF reader are parameters. */
module Loading {
  import opened Strings
  import opened Documents

  /** Directory names whose contents are never indexed. */
  const ExcludeDirs: set<string> :=
    {"node_modules", ".git", ".venv", "dist", "build", "target", ".idea", ".gradle"}

  /** The glob patterns the code tree is walked with, in walk order. */
  const Patterns: seq<string> := [
    "**/*.py", "**/*.ts", "**/*.tsx", "**/*.js", "**/*.jsx", "**/*.kt", "**/*.java",
    "**/*.md", "**/*.txt", "**/*.yml", "**/*.yaml", "**/*.json", "**/*.xml",
    "**/*.gradle", "**/*.properties"]

  /** A source path lies under an excluded directory: for some excluded
      name `ex` it contains "/ex/" or ends with "/ex". */
  predicate IsExcluded(src: string) {
    exists ex :: ex in ExcludeDirs && (Contains(src, "/" + ex + "/") || EndsWith(src, "/" + ex))
  }

  /** `ex` is the path segment of `src` that starts after the '/' at `k`. */
  predicate SegmentAt(src: string, ex: string, k: int) {
    0 <= k && k + 1 + |ex| <= |src| && src[k] == '/' && src[k + 1..k + 1 + |ex|] == ex
    && (k + 1 + |ex| == |src| || src[k + 1 + |ex|] == '/')
  }

  /** The exclusion test is exactly: some excluded name is a whole path
      segment that follows a '/'. A leading segment without a '/' before it
      is not matched. */
  lemma ExcludedIffSegment(src: string)
    ensures IsExcluded(src) <==> exists ex, k :: ex in ExcludeDirs && SegmentAt(src, ex, k)
  {
    if IsExcluded(src) {
      var ex :| ex in ExcludeDirs && (Contains(src, "/" + ex + "/") || EndsWith(src, "/" + ex));
      var k := MatchIsSegment(src, ex);
    }
    if exists ex, k :: ex in ExcludeDirs && SegmentAt(src, ex, k) {
      var ex, k :| ex in ExcludeDirs && SegmentAt(src, ex, k);
      SegmentIsMatch(src, ex, k);
    }
  }

  lemma MatchIsSegment(src: string, ex: string) returns (k: int)
    requires Contains(src, "/" + ex + "/") || EndsWith(src, "/" + ex)
    ensures SegmentAt(src, ex, k)
  {
    var p := "/" + ex;
    if Contains(src, p + "/") {
      k :| 0 <= k <= |src| - |p + "/"| && OccursAt(src, p + "/", k);
      var w := src[k..k + |p| + 1];
      assert w == p + "/";
      assert src[k] == w[0] && src[k + |p|] == w[|p|];
      assert w[1..1 + |ex|] == ex;
      forall j | 1 <= j < 1 + |ex| ensures w[j] == src[k + j] {}
      assert src[k + 1..k + 1 + |ex|] == ex;
    } else {
      k := |src| - |p|;
      var w := src[k..];
      assert w == p;
      assert src[k] == w[0];
      assert src[k + 1..k + 1 + |ex|] == w[1..];
    }
  }

  lemma SegmentIsMatch(src: string, ex: string, k: int)
    requires SegmentAt(src, ex, k)
    ensures Contains(src, "/" + ex + "/") || EndsWith(src, "/" + ex)
  {
    var p := "/" + ex;
    if k + 1 + |ex| == |src| {
      assert src[k..] == [src[k]] + src[k + 1..k + 1 + |ex|];
    } else {
      assert src[k..k + |p| + 1] == [src[k]] + src[k + 1..k + 1 + |ex|] + [src[k + 1 + |ex|]];
      assert OccursAt(src, p + "/", k);
    }
  }

  /** A path under "/<ex>/" for an excluded name is always dropped, at
      whatever depth. */
  lemma ExcludedDirectoryDropped(pre: string, ex: string, post: string)
    requires ex in ExcludeDirs
    ensures IsExcluded(pre + "/" + ex + "/" + post)
  {
    var src := pre + "/" + ex + "/" + post;
    assert src[|pre|..|pre| + |"/" + ex + "/"|] == "/" + ex + "/";
    assert OccursAt(src, "/" + ex + "/", |pre|);
  }

  /** Only a path with a '/' in it can be dropped. */
  lemma ExcludedPathHasSlash(src: string)
    ensures IsExcluded(src) ==> '/' in src
  {
    if IsExcluded(src) {
      ExcludedIffSegment(src);
      var ex, k :| ex in ExcludeDirs && SegmentAt(src, ex, k);
      assert src[k] == '/';
    }
  }

  /** The documents of one pattern that survive the exclusion test, in the
      order the loader returned them; a missing "source" reads as "". */
  function KeepCode(loaded: seq<Doc>): (kept: seq<Doc>)
    ensures |kept| <= |loaded|
  {
    if loaded == [] then []
    else (if IsExcluded(SourceOr(loaded[0], "")) then [] else [loaded[0]]) + KeepCode(loaded[1..])
  }

  /** A loaded document survives exactly when its source path is not
      excluded. */
  lemma {:induction false} KeepCodeMembers(loaded: seq<Doc>, d: Doc)
    ensures d in KeepCode(loaded) <==> d in loaded && !IsExcluded(SourceOr(d, ""))
  {
    if loaded != [] {
      KeepCodeMembers(loaded[1..], d);
      assert loaded == [loaded[0]] + loaded[1..];
    }
  }

  /** Filtering commutes with concatenation, so survivors keep their
      relative order. */
  lemma {:induction false} KeepCodeConcat(a: seq<Doc>, b: seq<Doc>)
    ensures KeepCode(a + b) == KeepCode(a) + KeepCode(b)
  {
    if a == [] {
      assert a + b == b;
    } else {
      assert (a + b)[0] == a[0] && (a + b)[1..] == a[1..] + b;
      KeepCodeConcat(a[1..], b);
    }
  }

  lemma KeepCodeSnoc(loaded: seq<Doc>, j: nat)
    requires j < |loaded|
    ensures KeepCode(loaded[..j + 1])
         == KeepCode(loaded[..j]) + if IsExcluded(SourceOr(loaded[j], "")) then [] else [loaded[j]]
  {
    assert loaded[..j + 1] == loaded[..j] + [loaded[j]];
    KeepCodeConcat(loaded[..j], [loaded[j]]);
  }

  /** The survivors of every pattern, pattern after pattern. */
  function KeepAll(patterns: seq<string>, load: string -> seq<Doc>): seq<Doc> {
    if patterns == [] then []
    else KeepAll(patterns[..|patterns| - 1], load) + KeepCode(load(patterns[|patterns| - 1]))
  }

  lemma KeepAllSnoc(patterns: seq<string>, p: nat, load: string -> seq<Doc>)
    requires p < |patterns|
    ensures KeepAll(patterns[..p + 1], load) == KeepAll(patterns[..p], load) + KeepCode(load(patterns[p]))
  {
    assert patterns[..p + 1][..p] == patterns[..p];
  }

  /** Every loaded code document comes from some pattern's loader pass and
      is not under an excluded directory. */
  lemma {:induction false} KeepAllSound(patterns: seq<string>, load: string -> seq<Doc>, d: Doc)
    requires d in KeepAll(patterns, load)
    ensures !IsExcluded(SourceOr(d, ""))
    ensures exists i :: 0 <= i < |patterns| && d in load(patterns[i])
  {
    var init := patterns[..|patterns| - 1];
    var last := patterns[|patterns| - 1];
    if d in KeepAll(init, load) {
      KeepAllSound(init, load, d);
      var i :| 0 <= i < |init| && d in load(init[i]);
      assert init[i] == patterns[i];
    } else {
      KeepCodeMembers(load(last), d);
      assert d in load(patterns[|patterns| - 1]);
    }
  }

  /** What loading the code tree returns: nothing when the root is not a
      directory, otherwise the survivors of every pattern. */
  function CodeDocs(rootExists: bool, load: string -> seq<Doc>): seq<Doc> {
    if rootExists then KeepAll(Patterns, load) else []
  }

  /** Loads the code tree: one directory-loader pass per pattern, keeping
      the documents whose source path is not under an excluded directory. */
  method LoadCodeDocuments(rootExists: bool, load: string -> seq<Doc>) returns (docs: seq<Doc>)
    ensures docs == CodeDocs(rootExists, load)
  {
    if !rootExists {
      return [];
    }
    docs := LoadMatching(Patterns, load);
  }

  /** The two nested loops of the tree walk, over any list of patterns. */
  method LoadMatching(patterns: seq<string>, load: string -> seq<Doc>) returns (docs: seq<Doc>)
    ensures docs == KeepAll(patterns, load)
  {
    docs := [];
    for p := 0 to |patterns|
      invariant docs == KeepAll(patterns[..p], load)
    {
      var loaded := load(patterns[p]);
      for j := 0 to |loaded|
        invariant docs == KeepAll(patterns[..p], load) + KeepCode(loaded[..j])
      {
        var d := loaded[j];
        var src := SourceOr(d, "");
        KeepCodeSnoc(loaded, j);
        if IsExcluded(src) {
          continue;
        }
        docs := docs + [d];
      }
      assert loaded[..|loaded|] == loaded;
      KeepAllSnoc(patterns, p, load);
    }
    assert patterns[..|patterns|] == patterns;
  }

  /** Python's `name.lower().endswith(".pdf")`. */
  predicate IsPdfName(name: string) {
    EndsWith(Lower(name), ".pdf")
  }

  /** The PDF test ignores the case of the extension and nothing else. */
  lemma PdfNameIgnoresCase(name: string)
    ensures IsPdfName(name) <==>
      |name| >= 4 && name[|name| - 4] == '.'
      && name[|name| - 3] in "pP" && name[|name| - 2] in "dD" && name[|name| - 1] in "fF"
  {
    var n := |name|;
    var low := Lower(name);
    if n >= 4 {
      assert low[n - 4..] == [low[n - 4], low[n - 3], low[n - 2], low[n - 1]];
    }
  }

  /** Python's `os.path.join(root, name)` on POSIX paths. */
  function PathJoin(root: string, name: string): (path: string)
    ensures name != [] && name[0] == '/' ==> path == name
    ensures (name == [] || name[0] != '/') ==> EndsWith(path, name) && |root| <= |path| && path[..|root|] == root
    ensures (name == [] || name[0] != '/') ==> |path| <= |root| + 1 + |name|
  {
    if name != [] && name[0] == '/' then name
    else if root == [] || root[|root| - 1] == '/' then root + name
    else root + "/" + name
  }

  /** The pages of the PDF files among `names`, file after file. */
  function PdfDocs(root: string, names: seq<string>, loadPdf: string -> seq<Doc>): (docs: seq<Doc>)
    ensures forall d :: d in docs ==>
      exists i :: 0 <= i < |names| && IsPdfName(names[i]) && d in loadPdf(PathJoin(root, names[i]))
  {
    if names == [] then []
    else
      var init := names[..|names| - 1];
      var last := names[|names| - 1];
      assert forall i :: 0 <= i < |init| ==> init[i] == names[i];
      PdfDocs(root, init, loadPdf) + (if IsPdfName(last) then loadPdf(PathJoin(root, last)) else [])
  }

  /** What loading the PDF directory returns: nothing when the root is not
      a directory, otherwise the pages of its PDF files. */
  function PdfDocsOf(rootExists: bool, root: string, names: seq<string>, loadPdf: string -> seq<Doc>): seq<Doc> {
    if rootExists then PdfDocs(root, names, loadPdf) else []
  }

  /** Loads the PDF directory: every listed name that ends in ".pdf", in
      any case, is read page by page. */
  method LoadPdfDocuments(rootExists: bool, root: string, names: seq<string>, loadPdf: string -> seq<Doc>)
    returns (docs: seq<Doc>)
    ensures docs == PdfDocsOf(rootExists, root, names, loadPdf)
  {
    if !rootExists {
      return [];
    }
    docs := [];
    for i := 0 to |names|
      invariant docs == PdfDocs(root, names[..i], loadPdf)
    {
      var name := names[i];
      assert names[..i + 1][..i] == names[..i];
      if IsPdfName(name) {
        var path := PathJoin(root, name);
        docs := docs + loadPdf(path);
      }
    }
    assert names[..|names|] == names;
  }

  lemma {:induction false} PdfDocsConcat(root: string, a: seq<string>, b: seq<string>, loadPdf: string -> seq<Doc>)
    ensures PdfDocs(root, a + b, loadPdf) == PdfDocs(root, a, loadPdf) + PdfDocs(root, b, loadPdf)
  {
    if b == [] {
      assert a + b == a;
    } else {
      var init := b[..|b| - 1];
      assert (a + b)[..|a + b| - 1] == a + init;
      assert (a + b)[|a + b| - 1] == b[|b| - 1];
      PdfDocsConcat(root, a, init, loadPdf);
    }
  }

  /** A listed name that is not a PDF file contributes nothing, wherever it
      appears in the listing. */
  lemma NonPdfNameIgnored(root: string, a: seq<string>, other: string, b: seq<string>, loadPdf: string -> seq<Doc>)
    requires !IsPdfName(other)
    ensures PdfDocs(root, a + [other] + b, loadPdf) == PdfDocs(root, a + b, loadPdf)
  {
    PdfDocsConcat(root, a + [other], b, loadPdf);
    PdfDocsConcat(root, a, [other], loadPdf);
    PdfDocsConcat(root, a, b, loadPdf);
    assert [other][..0] == [];
  }
}
