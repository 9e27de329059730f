/**
 * The name, key and threshold logic of tbl_extraction.py: file extension and
 * stem, the sheet names given to extracted tables, the paragraph keys of
 * `getText`, the resolution of a table or paragraph key back to a file name
 * (`replace`, `replace_para`), the format score and the match thresholds, and
 * the row accumulation of `compare_tbls` / `compare_para`. Documents,
 * workbooks and the similarity libraries are parameters.
 */
module TableExtraction {
  import opened Wrappers
  import opened Strings

  // ---------------------------------------------------------------------
  // Extension and stem (`rsplit('.', 1)`)
  // ---------------------------------------------------------------------

  /** `fileName.rsplit('.', 1)[-1].lower()`. */
  function Extension(fileName: string): (ext: string)
    ensures '.' !in ext
  {
    match LastIndexOf(fileName, '.')
    case Some(i) => Lower(fileName[i + 1..])
    case None => Lower(fileName)
  }

  /** `fileName.rsplit('.', 1)[0].lower()`. */
  function Stem(fileName: string): (stem: string)
    ensures IsPrefix(stem, Lower(fileName))
    ensures '.' in fileName ==> |stem| < |fileName|
  {
    match LastIndexOf(fileName, '.')
    case Some(i) => LowerPrefix(fileName, i); Lower(fileName[..i])
    case None => Lower(fileName)
  }

  /**
   * With a dot, the lower-cased name is the stem, the last dot and the
   * extension; without one, stem and extension are both the whole lower-cased
   * name.
   */
  lemma StemAndExtension(fileName: string)
    ensures '.' in fileName ==> Stem(fileName) + "." + Extension(fileName) == Lower(fileName)
    ensures '.' !in fileName ==> Stem(fileName) == Extension(fileName) == Lower(fileName)
  {
    var found := LastIndexOf(fileName, '.');
    if found.Some? {
      var i := found.value;
      var stem, ext := fileName[..i], fileName[i + 1..];
      assert fileName == stem + "." + ext;
      LowerConcat(stem + ".", ext);
      LowerConcat(stem, ".");
      assert Lower(".") == ".";
    } else {
      assert forall j :: 0 <= j < |fileName| ==> fileName[j] != '.';
    }
  }

  lemma LowerConcat(a: string, b: string)
    ensures Lower(a + b) == Lower(a) + Lower(b)
  {
  }

  /** The extension test ignores case: "Minutes.DOCX" is a docx file. */
  lemma ExtensionExample()
    ensures Extension("Minutes.DOCX") == "docx"
    ensures Stem("Minutes.DOCX") == "minutes"
  {
    var name := "Minutes.DOCX";
    assert LastIndexOf(name, '.') == Some(7) by {
      assert name[7] == '.';
      assert name[..11] == "Minutes.DOC";
    }
  }

  // ---------------------------------------------------------------------
  // Sheet names and paragraph keys
  // ---------------------------------------------------------------------

  /** `doc[:20]`. */
  function Head20(doc: string): (h: string)
    ensures IsPrefix(h, doc) && |h| == if |doc| <= 20 then |doc| else 20
  {
    if |doc| <= 20 then doc else doc[..20]
  }

  /** `doc[:20] + "_tbl_" + str(count)`. */
  function SheetName(doc: string, count: nat): (name: string)
    ensures |name| > |Head20(doc)| + 5
    ensures name[..|Head20(doc)| + 5] == Head20(doc) + "_tbl_"
  {
    NatToStringDigits(count);
    Head20(doc) + "_tbl_" + NatToString(count)
  }

  /** The counter reads back from the digits after `doc[:20] + "_tbl_"`. */
  lemma SheetNameCount(doc: string, count: nat)
    ensures ParseDecimal(SheetName(doc, count)[|Head20(doc)| + 5..]) == count
  {
    assert SheetName(doc, count)[|Head20(doc)| + 5..] == NatToString(count);
    ParseNatToString(count);
  }

  /** `docName + "_para_" + str(x)`. */
  function ParaKey(doc: string, x: nat): (key: string)
    ensures |key| > |doc| + 6
    ensures key[..|doc| + 6] == doc + "_para_"
  {
    NatToStringDigits(x);
    doc + "_para_" + NatToString(x)
  }

  /** The paragraph index reads back from the digits after `<doc>_para_`. */
  lemma ParaKeyIndex(doc: string, x: nat)
    ensures ParseDecimal(ParaKey(doc, x)[|doc| + 6..]) == x
  {
    assert ParaKey(doc, x)[|doc| + 6..] == NatToString(x);
    ParseNatToString(x);
  }

  /** Two sheet names of one document differ exactly when their counters differ. */
  lemma SheetNameInjective(doc: string, m: nat, n: nat)
    ensures SheetName(doc, m) == SheetName(doc, n) <==> m == n
  {
    if SheetName(doc, m) == SheetName(doc, n) {
      var p := |Head20(doc) + "_tbl_"|;
      assert SheetName(doc, m)[p..] == NatToString(m);
      assert SheetName(doc, n)[p..] == NatToString(n);
      NatToStringInjective(m, n);
    }
  }

  /** Two paragraph keys of one document differ exactly when their numbers differ. */
  lemma ParaKeyInjective(doc: string, m: nat, n: nat)
    ensures ParaKey(doc, m) == ParaKey(doc, n) <==> m == n
  {
    if ParaKey(doc, m) == ParaKey(doc, n) {
      var p := |doc + "_para_"|;
      assert ParaKey(doc, m)[p..] == NatToString(m);
      assert ParaKey(doc, n)[p..] == NatToString(n);
      NatToStringInjective(m, n);
    }
  }

  /**
   * Splitting `p + sep + rest` at `sep` gives back `p` when `p` has no
   * occurrence of `sep` and the first character of `sep` does not recur in
   * it (so no occurrence can straddle the joint).
   */
  lemma {:induction false} SplitFirstAtJoint(p: string, sep: string, rest: string)
    requires sep != [] && forall m :: 1 <= m < |sep| ==> sep[m] != sep[0]
    requires !IsSubstring(sep, p)
    ensures SplitFirst(p + sep + rest, sep) == p
  {
    var s := p + sep + rest;
    assert s[|p|..|p| + |sep|] == sep;
    assert OccursAt(s, sep, |p|);
    forall j | 0 <= j < |p| && j + |sep| <= |p| ensures !OccursAt(s, sep, j) {
      assert p[j..j + |sep|] == s[j..j + |sep|];
      assert !OccursAt(p, sep, j);
    }
    // an occurrence across the joint would put `sep[0]` at a later position of `sep`
    forall j | 0 <= j < |p| < j + |sep| ensures !OccursAt(s, sep, j) {
      var m := |p| - j;
      assert s[|p|] == sep[0] != sep[m];
      if j + |sep| <= |s| {
        assert s[j..j + |sep|][m] == s[|p|];
      }
    }
    var r := SplitFirst(s, sep);
    assert |r| == |p|;
    assert r == s[..|p|] == p;
  }

  /** The text before `"_tbl"` in a sheet name is the document's first 20 characters. */
  lemma SheetNameKey(doc: string, count: nat)
    requires !IsSubstring("_tbl", Head20(doc))
    ensures SplitFirst(SheetName(doc, count), "_tbl") == Head20(doc)
  {
    assert SheetName(doc, count) == Head20(doc) + "_tbl" + ("_" + NatToString(count));
    SplitFirstAtJoint(Head20(doc), "_tbl", "_" + NatToString(count));
  }

  /** The text before `"_para"` in a paragraph key is the document name. */
  lemma ParaKeyKey(doc: string, x: nat)
    requires !IsSubstring("_para", doc)
    ensures SplitFirst(ParaKey(doc, x), "_para") == doc
  {
    assert ParaKey(doc, x) == doc + "_para" + ("_" + NatToString(x));
    SplitFirstAtJoint(doc, "_para", "_" + NatToString(x));
  }

  // ---------------------------------------------------------------------
  // replace / replace_para
  // ---------------------------------------------------------------------

  /** `short.lower() in name.lower()[:len(short)]`. */
  predicate HeadMatches(short: string, name: string) {
    IsSubstring(Lower(short), Lower(name)[..if |short| <= |name| then |short| else |name|])
  }

  /** The filter reads as a case-insensitive `startswith`. */
  lemma HeadMatchesIsPrefix(short: string, name: string)
    ensures HeadMatches(short, name) <==> IsPrefix(Lower(short), Lower(name))
  {
    SubstringOfHeadIsPrefix(Lower(short), Lower(name));
  }

  /** The list comprehension `[s for s in fileNames if ...]`. */
  function Matching(short: string, fileNames: seq<string>): (ms: seq<string>)
    ensures forall m <- ms :: m in fileNames && HeadMatches(short, m)
    ensures forall n <- fileNames :: HeadMatches(short, n) ==> n in ms
  {
    if fileNames == [] then []
    else
      var rest := Matching(short, fileNames[1..]);
      assert forall n <- fileNames[1..] :: n in fileNames;
      assert forall n <- fileNames :: n == fileNames[0] || n in fileNames[1..];
      if HeadMatches(short, fileNames[0]) then [fileNames[0]] + rest else rest
  }

  lemma HeadMatchesAll(short: string, fileNames: seq<string>)
    ensures forall n <- fileNames :: HeadMatches(short, n) <==> IsPrefix(Lower(short), Lower(n))
  {
    forall n <- fileNames {
      HeadMatchesIsPrefix(short, n);
    }
  }

  /**
   * `replace` and `replace_para`: the text before the first `marker`, resolved
   * to the first file name that starts with it, ignoring case.
   */
  function Resolve(shortName: string, marker: string, fileNames: seq<string>): (r: Option<string>)
    requires marker != []
    ensures r.Some? ==> r.value in fileNames && IsPrefix(Lower(SplitFirst(shortName, marker)), Lower(r.value))
    ensures r.None? ==> forall n <- fileNames :: !IsPrefix(Lower(SplitFirst(shortName, marker)), Lower(n))
  {
    var key := SplitFirst(shortName, marker);
    var ms := Matching(key, fileNames);
    HeadMatchesAll(key, fileNames);
    if ms == [] then None else Some(ms[0])
  }

  /** `replace`: the file a table's sheet name came from. */
  function Replace(shortName: string, fileNames: seq<string>): (r: Option<string>)
    ensures r.Some? ==> r.value in fileNames && IsPrefix(Lower(SplitFirst(shortName, "_tbl")), Lower(r.value))
    ensures r.None? ==> forall n <- fileNames :: !IsPrefix(Lower(SplitFirst(shortName, "_tbl")), Lower(n))
  {
    Resolve(shortName, "_tbl", fileNames)
  }

  /** `replace_para`: the file a paragraph key came from. */
  function ReplacePara(shortName: string, fileNames: seq<string>): (r: Option<string>)
    ensures r.Some? ==> r.value in fileNames && IsPrefix(Lower(SplitFirst(shortName, "_para")), Lower(r.value))
    ensures r.None? ==> forall n <- fileNames :: !IsPrefix(Lower(SplitFirst(shortName, "_para")), Lower(n))
  {
    Resolve(shortName, "_para", fileNames)
  }

  /** The first file name matching `short` sits at index `k`. */
  predicate FirstStartingWith(short: string, fileNames: seq<string>, k: int) {
    && 0 <= k < |fileNames|
    && IsPrefix(Lower(short), Lower(fileNames[k]))
    && forall j :: 0 <= j < k ==> !IsPrefix(Lower(short), Lower(fileNames[j]))
  }

  lemma {:induction false} MatchingFirst(short: string, fileNames: seq<string>)
    ensures Matching(short, fileNames) == [] <==>
      forall j :: 0 <= j < |fileNames| ==> !IsPrefix(Lower(short), Lower(fileNames[j]))
    ensures Matching(short, fileNames) != [] ==>
      exists k :: FirstStartingWith(short, fileNames, k) && fileNames[k] == Matching(short, fileNames)[0]
  {
    forall j | 0 <= j < |fileNames| {
      HeadMatchesIsPrefix(short, fileNames[j]);
    }
    if fileNames != [] {
      var tail := fileNames[1..];
      MatchingFirst(short, tail);
      if !HeadMatches(short, fileNames[0]) && Matching(short, tail) != [] {
        var k :| FirstStartingWith(short, tail, k) && tail[k] == Matching(short, tail)[0];
        assert FirstStartingWith(short, fileNames, k + 1);
      }
      if HeadMatches(short, fileNames[0]) {
        assert FirstStartingWith(short, fileNames, 0);
      }
    }
  }

  /**
   * What `replace`/`replace_para` return: None when no file name starts with
   * the key (ignoring case), and otherwise the first one in list order that does.
   */
  lemma ResolveSpec(shortName: string, marker: string, fileNames: seq<string>)
    requires marker != []
    ensures var key := SplitFirst(shortName, marker);
      && (Resolve(shortName, marker, fileNames).None? <==>
            forall j :: 0 <= j < |fileNames| ==> !IsPrefix(Lower(key), Lower(fileNames[j])))
      && (Resolve(shortName, marker, fileNames).Some? ==>
            exists k :: FirstStartingWith(key, fileNames, k)
                     && Resolve(shortName, marker, fileNames).value == fileNames[k])
  {
    MatchingFirst(SplitFirst(shortName, marker), fileNames);
  }

  /**
   * A sheet name made from a document resolves to the first file whose name
   * starts with the document's first 20 characters.
   */
  lemma ReplaceOfSheetName(doc: string, count: nat, fileNames: seq<string>, k: nat)
    requires !IsSubstring("_tbl", Head20(doc))
    requires FirstStartingWith(Head20(doc), fileNames, k)
    ensures Replace(SheetName(doc, count), fileNames) == Some(fileNames[k])
  {
    SheetNameKey(doc, count);
    ResolveSpec(SheetName(doc, count), "_tbl", fileNames);
    var k' :| FirstStartingWith(Head20(doc), fileNames, k') && Replace(SheetName(doc, count), fileNames).value == fileNames[k'];
    assert k' == k;
  }

  /** A paragraph key resolves to the first file whose name starts with the document name. */
  lemma ReplaceParaOfParaKey(doc: string, x: nat, fileNames: seq<string>, k: nat)
    requires !IsSubstring("_para", doc)
    requires FirstStartingWith(doc, fileNames, k)
    ensures ReplacePara(ParaKey(doc, x), fileNames) == Some(fileNames[k])
  {
    ParaKeyKey(doc, x);
    ResolveSpec(ParaKey(doc, x), "_para", fileNames);
    var k' :| FirstStartingWith(doc, fileNames, k') && ReplacePara(ParaKey(doc, x), fileNames).value == fileNames[k'];
    assert k' == k;
  }

  // ---------------------------------------------------------------------
  // Scores and thresholds
  // ---------------------------------------------------------------------

  /**
   * Lines 299-303: matching cells over compared cells. The counts are numpy
   * integers, so with nothing compared the division yields NaN (None) rather
   * than raising.
   */
  function FormatScore(trueCount: nat, falseCount: nat): (r: Option<real>)
    ensures r.None? <==> trueCount + falseCount == 0
    ensures r.Some? ==> 0.0 <= r.value <= 1.0
    ensures r.Some? ==> (r.value == 1.0 <==> falseCount == 0)
    ensures r.Some? ==> (r.value == 0.0 <==> trueCount == 0)
  {
    if trueCount + falseCount == 0 then None
    else Some((trueCount as real) / ((trueCount + falseCount) as real))
  }

  /** The shares of matching and of mismatching cells add up to one. */
  lemma FormatScoreComplement(trueCount: nat, falseCount: nat)
    requires trueCount + falseCount > 0
    ensures FormatScore(trueCount, falseCount).value + FormatScore(falseCount, trueCount).value == 1.0
  {
  }

  /** `tbl_match`: content plus format strictly above 1.25; NaN compares false. */
  predicate TblMatch(content: real, format: Option<real>)
    ensures TblMatch(content, format) ==> format.Some? && (content <= 1.0 ==> format.value > 0.25)
  {
    format.Some? && content + format.value > 1.25
  }

  /** `para_match`: content strictly above 0.9. */
  predicate ParaMatch(content: real) {
    content > 0.9
  }

  /**
   * With both scores in [0, 1], a table match needs each score above 0.25;
   * raising either score never loses a match; the bound itself is no match.
   */
  lemma TblMatchProperties(content: real, format: real, content': real, format': real)
    requires 0.0 <= content <= 1.0 && 0.0 <= format <= 1.0
    ensures TblMatch(content, Some(format)) ==> content > 0.25 && format > 0.25
    ensures TblMatch(content, Some(format)) && content <= content' && format <= format' ==> TblMatch(content', Some(format'))
    ensures content + format == 1.25 ==> !TblMatch(content, Some(format))
    ensures !TblMatch(content, None)
  {
  }

  /** A paragraph pair matches only with a WRatio above 90, and 0.9 itself is no match. */
  lemma ParaMatchProperties(ratio: nat)
    ensures ParaMatch(ratio as real / 100.0) <==> ratio > 90
    ensures !ParaMatch(0.9)
  {
  }

  /** Table pairs whose cells all mismatch or whose cells were never compared never match. */
  lemma TblMatchNeedsAgreement(content: real, trueCount: nat, falseCount: nat)
    requires content <= 1.0
    ensures trueCount == 0 ==> !TblMatch(content, FormatScore(trueCount, falseCount))
  {
  }

  // ---------------------------------------------------------------------
  // getText: paragraph filter and keys
  // ---------------------------------------------------------------------

  /** The paragraphs longer than 50 characters, in document order. */
  function LongParagraphs(paragraphs: seq<string>): (kept: seq<string>)
    ensures |kept| <= |paragraphs|
    ensures forall t <- kept :: |t| > 50 && t in paragraphs
    ensures forall t <- paragraphs :: |t| > 50 ==> t in kept
  {
    if paragraphs == [] then []
    else
      var last := paragraphs[|paragraphs| - 1];
      var init := paragraphs[..|paragraphs| - 1];
      assert paragraphs == init + [last];
      LongParagraphs(init) + (if |last| > 50 then [last] else [])
  }

  /** One paragraph is kept exactly when it is longer than 50 characters. */
  lemma LongParagraphsSingle(t: string)
    ensures LongParagraphs([t]) == if |t| > 50 then [t] else []
  {
    assert [t][..0] == [];
  }

  lemma ConcatAssoc(a: seq<string>, b: seq<string>, c: seq<string>)
    ensures (a + b) + c == a + (b + c)
  {
  }

  /**
   * The filter works paragraph by paragraph in document order: filtering two
   * runs of paragraphs one after the other equals filtering them joined.
   */
  lemma {:induction false} LongParagraphsConcat(p: seq<string>, q: seq<string>)
    ensures LongParagraphs(p + q) == LongParagraphs(p) + LongParagraphs(q)
    decreases |q|
  {
    if q == [] {
      assert p + q == p;
    } else {
      var init, last := q[..|q| - 1], q[|q| - 1];
      var tail := if |last| > 50 then [last] else [];
      assert (p + q)[..|p + q| - 1] == p + init;
      assert (p + q)[|p + q| - 1] == last;
      assert LongParagraphs(q) == LongParagraphs(init) + tail;
      LongParagraphsConcat(p, init);
      var a, b := LongParagraphs(p), LongParagraphs(init);
      calc {
        LongParagraphs(p + q);
        LongParagraphs(p + init) + tail;
        (a + b) + tail;
        { ConcatAssoc(a, b, tail); }
        a + (b + tail);
      }
    }
  }

  /**
   * `dict(zip(names, texts))` where `names` are the keys `<doc>_para_1` to
   * `<doc>_para_c`: key k maps to the k-th text.
   */
  function Keyed(doc: string, texts: seq<string>, c: nat): map<string, string>
    requires c <= |texts|
  {
    if c == 0 then map[] else Keyed(doc, texts, c - 1)[ParaKey(doc, c) := texts[c - 1]]
  }

  /** The keys `<doc>_para_1` to `<doc>_para_c`. */
  function KeySet(doc: string, c: nat): set<string> {
    if c == 0 then {} else KeySet(doc, c - 1) + {ParaKey(doc, c)}
  }

  lemma {:induction false} KeyedKeySet(doc: string, texts: seq<string>, c: nat)
    requires c <= |texts|
    ensures Keyed(doc, texts, c).Keys == KeySet(doc, c)
  {
    if c > 0 {
      KeyedKeySet(doc, texts, c - 1);
    }
  }

  /** A key with a larger index is not among the first c keys. */
  lemma {:induction false} KeySetExcludes(doc: string, c: nat, n: nat)
    requires n > c
    ensures ParaKey(doc, n) !in KeySet(doc, c)
  {
    if c > 0 {
      KeySetExcludes(doc, c - 1, n);
      ParaKeyInjective(doc, n, c);
    }
  }

  lemma {:induction false} KeySetSize(doc: string, c: nat)
    ensures |KeySet(doc, c)| == c
  {
    if c > 0 {
      KeySetSize(doc, c - 1);
      KeySetExcludes(doc, c - 1, c);
    }
  }

  lemma {:induction false} KeySetMembers(doc: string, c: nat)
    ensures forall k :: 1 <= k <= c ==> ParaKey(doc, k) in KeySet(doc, c)
    ensures forall key <- KeySet(doc, c) :: exists k :: 1 <= k <= c && key == ParaKey(doc, k)
  {
    if c > 0 {
      KeySetMembers(doc, c - 1);
      forall key <- KeySet(doc, c) ensures exists k :: 1 <= k <= c && key == ParaKey(doc, k) {
        if key == ParaKey(doc, c) {
          assert 1 <= c <= c && key == ParaKey(doc, c);
        } else {
          assert key in KeySet(doc, c - 1);
        }
      }
    }
  }

  /** The keys are exactly `<doc>_para_1` to `<doc>_para_c`, so there are c entries. */
  lemma KeyedKeys(doc: string, texts: seq<string>, c: nat)
    requires c <= |texts|
    ensures var m := Keyed(doc, texts, c);
      && |m| == c
      && (forall k :: 1 <= k <= c ==> ParaKey(doc, k) in m)
      && (forall key <- m.Keys :: exists k :: 1 <= k <= c && key == ParaKey(doc, k))
  {
    KeyedKeySet(doc, texts, c);
    KeySetSize(doc, c);
    KeySetMembers(doc, c);
    assert |Keyed(doc, texts, c)| == |Keyed(doc, texts, c).Keys|;
  }

  /** Key k maps to the k-th text for k from 1 to c, there are no other keys, and so c entries. */
  lemma {:induction false} KeyedSpec(doc: string, texts: seq<string>, c: nat)
    requires c <= |texts|
    ensures var m := Keyed(doc, texts, c);
      && |m| == c
      && (forall k :: 1 <= k <= c ==> ParaKey(doc, k) in m && m[ParaKey(doc, k)] == texts[k - 1])
      && (forall key <- m.Keys :: exists k :: 1 <= k <= c && key == ParaKey(doc, k))
  {
    KeyedKeys(doc, texts, c);
    if c > 0 {
      KeyedSpec(doc, texts, c - 1);
      forall k | 1 <= k < c ensures ParaKey(doc, k) != ParaKey(doc, c) {
        ParaKeyInjective(doc, k, c);
      }
    }
  }

  /**
   * `range(1, len(fullText))` zipped with `fullText`: the keys stop at
   * `len(fullText) - 1`, one short of the paragraphs kept.
   */
  function ParagraphTexts(doc: string, paragraphs: seq<string>): map<string, string> {
    var kept := LongParagraphs(paragraphs);
    Keyed(Stem(doc), kept, if kept == [] then 0 else |kept| - 1)
  }

  /** The append loop of `getText` (lines 177-180): the paragraphs longer than 50 characters, in order. */
  method CollectLongParagraphs(paragraphs: seq<string>) returns (fullText: seq<string>)
    ensures fullText == LongParagraphs(paragraphs)
  {
    fullText := [];
    for i := 0 to |paragraphs|
      invariant fullText == LongParagraphs(paragraphs[..i])
    {
      assert paragraphs[..i + 1] == paragraphs[..i] + [paragraphs[i]];
      LongParagraphsConcat(paragraphs[..i], [paragraphs[i]]);
      LongParagraphsSingle(paragraphs[i]);
      if |paragraphs[i]| > 50 {
        fullText := fullText + [paragraphs[i]];
      }
    }
    assert paragraphs[..|paragraphs|] == paragraphs;
  }

  /** `getText` as written (lines 173-188): the paragraph filter loop, then the keyed dictionary. */
  method GetText(doc: string, paragraphs: seq<string>) returns (fullTextDict: map<string, string>)
    ensures fullTextDict == ParagraphTexts(doc, paragraphs)
  {
    var docName := Stem(doc);
    var fullText := CollectLongParagraphs(paragraphs);
    var count := if fullText == [] then 0 else |fullText| - 1;
    fullTextDict := Keyed(docName, fullText, count);
  }

  /**
   * What `getText` returns: one entry fewer than the paragraphs kept; key k
   * holds the k-th kept paragraph; the last kept paragraph has no key.
   */
  lemma GetTextDropsLast(doc: string, paragraphs: seq<string>)
    ensures var kept := LongParagraphs(paragraphs);
      var m := ParagraphTexts(doc, paragraphs);
      && |m| == (if kept == [] then 0 else |kept| - 1)
      && (forall k :: 1 <= k < |kept| ==> ParaKey(Stem(doc), k) in m && m[ParaKey(Stem(doc), k)] == kept[k - 1])
      && (kept != [] ==> ParaKey(Stem(doc), |kept|) !in m)
  {
    var kept := LongParagraphs(paragraphs);
    var c := if kept == [] then 0 else |kept| - 1;
    KeyedSpec(Stem(doc), kept, c);
    if kept != [] && ParaKey(Stem(doc), |kept|) in ParagraphTexts(doc, paragraphs) {
      var k :| 1 <= k <= c && ParaKey(Stem(doc), |kept|) == ParaKey(Stem(doc), k);
      ParaKeyInjective(Stem(doc), |kept|, k);
    }
  }

  /** A document with a single long paragraph yields no paragraphs at all. */
  lemma GetTextSingleParagraph(doc: string, text: string)
    requires |text| > 50
    ensures ParagraphTexts(doc, [text]) == map[]
  {
    assert [text][..0] == [];
  }

  /** The evidently intended keying, `range(1, len(fullText) + 1)`: every kept paragraph gets a key. */
  function AllParagraphTexts(doc: string, paragraphs: seq<string>): map<string, string> {
    var kept := LongParagraphs(paragraphs);
    Keyed(Stem(doc), kept, |kept|)
  }

  /** `getText` with the keys running to the number of paragraphs kept. */
  method GetTextAll(doc: string, paragraphs: seq<string>) returns (fullTextDict: map<string, string>)
    ensures fullTextDict == AllParagraphTexts(doc, paragraphs)
  {
    var docName := Stem(doc);
    var fullText := CollectLongParagraphs(paragraphs);
    fullTextDict := Keyed(docName, fullText, |fullText|);
  }

  /** With the corrected range, each kept paragraph is under its own key and nothing else is. */
  lemma AllParagraphTextsComplete(doc: string, paragraphs: seq<string>)
    ensures var kept := LongParagraphs(paragraphs);
      var m := AllParagraphTexts(doc, paragraphs);
      && |m| == |kept|
      && (forall k :: 1 <= k <= |kept| ==> ParaKey(Stem(doc), k) in m && m[ParaKey(Stem(doc), k)] == kept[k - 1])
      && (forall t <- paragraphs :: |t| > 50 ==> t in m.Values)
  {
    var kept := LongParagraphs(paragraphs);
    var m := AllParagraphTexts(doc, paragraphs);
    KeyedSpec(Stem(doc), kept, |kept|);
    forall t <- paragraphs | |t| > 50 ensures t in m.Values {
      var k :| 0 <= k < |kept| && kept[k] == t;
      assert m[ParaKey(Stem(doc), k + 1)] == t;
    }
  }

  // ---------------------------------------------------------------------
  // Sheet names of the extracted tables
  // ---------------------------------------------------------------------

  /** `get_tbls_docx` (lines 60-67): table `count` of the document, counted from 0. */
  method DocxSheetNames(doc: string, tableCount: nat) returns (names: seq<string>)
    ensures |names| == tableCount
    ensures forall i :: 0 <= i < |names| ==> names[i] == SheetName(doc, i)
    ensures forall i, j :: 0 <= i < j < |names| ==> names[i] != names[j]
  {
    names := [];
    for count := 0 to tableCount
      invariant |names| == count
      invariant forall i :: 0 <= i < count ==> names[i] == SheetName(doc, i)
      invariant forall i, j :: 0 <= i < j < count ==> names[i] != names[j]
    {
      forall i | 0 <= i < count ensures SheetName(doc, i) != SheetName(doc, count) {
        SheetNameInjective(doc, i, count);
      }
      names := names + [SheetName(doc, count)];
    }
  }

  /** The number of table shapes on a slide. */
  function TableCount(hasTable: seq<bool>): nat {
    if hasTable == [] then 0
    else TableCount(hasTable[..|hasTable| - 1]) + (if hasTable[|hasTable| - 1] then 1 else 0)
  }

  /** One name per table shape, each carrying the index of its slide. */
  function PptxNames(doc: string, slides: seq<seq<bool>>): seq<string> {
    if slides == [] then []
    else PptxNames(doc, slides[..|slides| - 1]) + Repeat(SheetName(doc, |slides| - 1), TableCount(slides[|slides| - 1]))
  }

  function Repeat(x: string, n: nat): (r: seq<string>)
    ensures |r| == n && forall y <- r :: y == x
  {
    seq(n, _ => x)
  }

  /**
   * `get_tbls_pptx` (lines 94-115): the counter is the slide index, so every
   * table on one slide is written under the same name.
   */
  method PptxSheetNames(doc: string, slides: seq<seq<bool>>) returns (names: seq<string>)
    ensures names == PptxNames(doc, slides)
  {
    names := [];
    for count := 0 to |slides|
      invariant names == PptxNames(doc, slides[..count])
    {
      assert slides[..count + 1][..count] == slides[..count];
      var shapes := slides[count];
      ghost var before := names;
      for k := 0 to |shapes|
        invariant names == before + Repeat(SheetName(doc, count), TableCount(shapes[..k]))
      {
        assert shapes[..k + 1][..k] == shapes[..k];
        if !shapes[k] {
          continue;
        }
        names := names + [SheetName(doc, count)];
      }
      assert shapes[..|shapes|] == shapes;
    }
    assert slides[..|slides|] == slides;
  }

  lemma RepeatCount(x: string, n: nat, y: string)
    ensures multiset(Repeat(x, n))[y] == if x == y then n else 0
  {
    if n > 0 {
      assert Repeat(x, n) == Repeat(x, n - 1) + [x];
      RepeatCount(x, n - 1, y);
    }
  }

  /** Slide s's name occurs exactly once per table on slide s: two tables on one slide collide. */
  lemma {:induction false} PptxNameCounts(doc: string, slides: seq<seq<bool>>, s: nat)
    requires s < |slides|
    ensures multiset(PptxNames(doc, slides))[SheetName(doc, s)] == TableCount(slides[s])
  {
    var n := |slides| - 1;
    RepeatCount(SheetName(doc, n), TableCount(slides[n]), SheetName(doc, s));
    SheetNameInjective(doc, n, s);
    if s < n {
      PptxNameAbsent(doc, slides[..n], s);
      PptxNameCounts(doc, slides[..n], s);
    } else {
      PptxNameAbsent(doc, slides[..n], s);
    }
  }

  /** A slide index at or past the end names no table. */
  lemma {:induction false} PptxNameAbsent(doc: string, slides: seq<seq<bool>>, s: nat)
    ensures s >= |slides| ==> multiset(PptxNames(doc, slides))[SheetName(doc, s)] == 0
  {
    if slides != [] && s >= |slides| {
      var n := |slides| - 1;
      RepeatCount(SheetName(doc, n), TableCount(slides[n]), SheetName(doc, s));
      SheetNameInjective(doc, n, s);
      PptxNameAbsent(doc, slides[..n], s);
    }
  }

  /** The regions of all sheets whose slicing succeeded. */
  function Sliced(sheets: seq<seq<bool>>): nat {
    if sheets == [] then 0 else Sliced(sheets[..|sheets| - 1]) + TableCount(sheets[|sheets| - 1])
  }

  /**
   * `get_tbls_xlsx` (lines 139-155): one counter across all sheets, raised
   * before each write, so the regions written are numbered from 1 and a
   * region whose slicing raises takes no number.
   */
  method XlsxSheetNames(doc: string, sheets: seq<seq<bool>>) returns (names: seq<string>)
    ensures |names| == Sliced(sheets)
    ensures forall i :: 0 <= i < |names| ==> names[i] == SheetName(doc, i + 1)
    ensures forall i, j :: 0 <= i < j < |names| ==> names[i] != names[j]
  {
    names := [];
    var count := 0;
    for s := 0 to |sheets|
      invariant count == Sliced(sheets[..s]) == |names|
      invariant forall i :: 0 <= i < |names| ==> names[i] == SheetName(doc, i + 1)
      invariant forall i, j :: 0 <= i < j < |names| ==> names[i] != names[j]
    {
      assert sheets[..s + 1][..s] == sheets[..s];
      var regions := sheets[s];
      for r := 0 to |regions|
        invariant count == Sliced(sheets[..s]) + TableCount(regions[..r]) == |names|
        invariant forall i :: 0 <= i < |names| ==> names[i] == SheetName(doc, i + 1)
        invariant forall i, j :: 0 <= i < j < |names| ==> names[i] != names[j]
      {
        assert regions[..r + 1][..r] == regions[..r];
        if regions[r] {
          count := count + 1;
          forall i | 0 <= i < |names| ensures names[i] != SheetName(doc, count) {
            SheetNameInjective(doc, i + 1, count);
          }
          names := names + [SheetName(doc, count)];
        }
      }
      assert regions[..|regions|] == regions;
    }
    assert sheets[..|sheets|] == sheets;
  }

  // ---------------------------------------------------------------------
  // compare_tbls / compare_para: the rows written for one pair of documents
  // ---------------------------------------------------------------------

  /**
   * One output row of `compare_tbls`: the two table keys, the format score,
   * the content score, the match flag and the files the keys resolve to.
   */
  datatype TblRow = TblRow(aNo: string, bNo: string, format: Option<real>, content: real,
                           isMatch: bool, fileA: Option<string>, fileB: Option<string>)

  function TblRowOf(ka: string, kb: string, counts: (nat, nat), content: real, fileNames: seq<string>): TblRow {
    var format := FormatScore(counts.0, counts.1);
    TblRow(ka, kb, format, content, TblMatch(content, format), Replace(ka, fileNames), Replace(kb, fileNames))
  }

  /**
   * The rows for table `ka` against every table of the other document, in
   * order; `compare` gives the true/false counts of the structural comparison
   * or None when it raises, and then the pair is skipped.
   */
  function RowsFor(ka: string, bKeys: seq<string>, compare: (string, string) -> Option<(nat, nat)>,
                   content: (string, string) -> real, fileNames: seq<string>): seq<TblRow>
  {
    if bKeys == [] then []
    else
      var kb := bKeys[|bKeys| - 1];
      RowsFor(ka, bKeys[..|bKeys| - 1], compare, content, fileNames)
        + (if compare(ka, kb).Some? then [TblRowOf(ka, kb, compare(ka, kb).value, content(ka, kb), fileNames)] else [])
  }

  function TblRows(aKeys: seq<string>, bKeys: seq<string>, compare: (string, string) -> Option<(nat, nat)>,
                   content: (string, string) -> real, fileNames: seq<string>): seq<TblRow>
  {
    if aKeys == [] then []
    else
      TblRows(aKeys[..|aKeys| - 1], bKeys, compare, content, fileNames)
        + RowsFor(aKeys[|aKeys| - 1], bKeys, compare, content, fileNames)
  }

  /** The nested loops of `compare_tbls` over the tables of two documents (lines 286-327). */
  method CompareTablePair(aKeys: seq<string>, bKeys: seq<string>, compare: (string, string) -> Option<(nat, nat)>,
                          content: (string, string) -> real, fileNames: seq<string>) returns (rows: seq<TblRow>)
    ensures rows == TblRows(aKeys, bKeys, compare, content, fileNames)
  {
    rows := [];
    for i := 0 to |aKeys|
      invariant rows == TblRows(aKeys[..i], bKeys, compare, content, fileNames)
    {
      assert aKeys[..i + 1][..i] == aKeys[..i];
      var rowsFor := CompareTableTo(aKeys[i], bKeys, compare, content, fileNames);
      rows := rows + rowsFor;
    }
    assert aKeys[..|aKeys|] == aKeys;
  }

  /** The inner loop of `compare_tbls`: table `ka` against every table of the other document. */
  method CompareTableTo(ka: string, bKeys: seq<string>, compare: (string, string) -> Option<(nat, nat)>,
                        content: (string, string) -> real, fileNames: seq<string>) returns (rows: seq<TblRow>)
    ensures rows == RowsFor(ka, bKeys, compare, content, fileNames)
  {
    rows := [];
    for j := 0 to |bKeys|
      invariant rows == RowsFor(ka, bKeys[..j], compare, content, fileNames)
    {
      assert bKeys[..j + 1][..j] == bKeys[..j];
      var kb := bKeys[j];
      var counts := compare(ka, kb);
      if counts.Some? {
        rows := rows + [TblRowOf(ka, kb, counts.value, content(ka, kb), fileNames)];
      }
    }
    assert bKeys[..|bKeys|] == bKeys;
  }

  /** Each row pairs a key of each document, its flag is `tbl_match` of its scores and its files are `replace` of its keys. */
  predicate WellFormedRow(r: TblRow, aKeys: seq<string>, bKeys: seq<string>, fileNames: seq<string>) {
    && r.aNo in aKeys && r.bNo in bKeys
    && r.isMatch == TblMatch(r.content, r.format)
    && r.fileA == Replace(r.aNo, fileNames) && r.fileB == Replace(r.bNo, fileNames)
    && (r.format.Some? ==> 0.0 <= r.format.value <= 1.0)
  }

  lemma {:induction false} RowsForWellFormed(ka: string, bKeys: seq<string>, compare: (string, string) -> Option<(nat, nat)>,
                                             content: (string, string) -> real, fileNames: seq<string>, aKeys: seq<string>)
    requires ka in aKeys
    ensures var rs := RowsFor(ka, bKeys, compare, content, fileNames);
      forall r <- rs :: WellFormedRow(r, aKeys, bKeys, fileNames) && r.aNo == ka
    ensures |RowsFor(ka, bKeys, compare, content, fileNames)| <= |bKeys|
    ensures (forall kb <- bKeys :: compare(ka, kb).Some?) ==> |RowsFor(ka, bKeys, compare, content, fileNames)| == |bKeys|
  {
    if bKeys != [] {
      var init := bKeys[..|bKeys| - 1];
      RowsForWellFormed(ka, init, compare, content, fileNames, aKeys);
      assert forall kb <- init :: kb in bKeys;
      assert bKeys[|bKeys| - 1] in bKeys;
    }
  }

  /**
   * Every row of `compare_tbls` is well formed, and when no comparison
   * raises there is one row per pair of tables.
   */
  lemma {:induction false} TblRowsWellFormed(aKeys: seq<string>, bKeys: seq<string>, compare: (string, string) -> Option<(nat, nat)>,
                                             content: (string, string) -> real, fileNames: seq<string>, allKeys: seq<string>)
    requires forall ka <- aKeys :: ka in allKeys
    ensures forall r <- TblRows(aKeys, bKeys, compare, content, fileNames) :: WellFormedRow(r, allKeys, bKeys, fileNames)
  {
    if aKeys != [] {
      var init := aKeys[..|aKeys| - 1];
      var ka := aKeys[|aKeys| - 1];
      assert forall k <- init :: k in aKeys;
      TblRowsWellFormed(init, bKeys, compare, content, fileNames, allKeys);
      RowsForWellFormed(ka, bKeys, compare, content, fileNames, allKeys);
    }
  }

  lemma MulSucc(m: nat, n: nat)
    ensures (m + 1) * n == m * n + n
  {
  }

  /** When no structural comparison raises, there is one row per pair of tables. */
  lemma {:induction false} TblRowsCount(aKeys: seq<string>, bKeys: seq<string>, compare: (string, string) -> Option<(nat, nat)>,
                                        content: (string, string) -> real, fileNames: seq<string>)
    requires forall ka <- aKeys, kb <- bKeys :: compare(ka, kb).Some?
    ensures |TblRows(aKeys, bKeys, compare, content, fileNames)| == |aKeys| * |bKeys|
  {
    if aKeys != [] {
      var init := aKeys[..|aKeys| - 1];
      var ka := aKeys[|aKeys| - 1];
      assert forall k <- init :: k in aKeys;
      TblRowsCount(init, bKeys, compare, content, fileNames);
      RowsForWellFormed(ka, bKeys, compare, content, fileNames, aKeys);
      MulSucc(|init|, |bKeys|);
    }
  }

  /** One output row of `compare_para`. */
  datatype ParaRow = ParaRow(aNo: string, bNo: string, content: real, isMatch: bool,
                             fileA: Option<string>, fileB: Option<string>)

  /** A row of `compare_para` as written: the keys are resolved with `replace`, which splits at `"_tbl"`. */
  function ParaRowAsWritten(ka: string, kb: string, content: real, fileNames: seq<string>): ParaRow {
    ParaRow(ka, kb, content, ParaMatch(content), Replace(ka, fileNames), Replace(kb, fileNames))
  }

  /** A key `<doc>_para_<x>` has no `"_tbl"` in it when the document name has no underscore. */
  lemma ParaKeyHasNoTbl(doc: string, x: nat)
    requires '_' !in doc
    ensures !IsSubstring("_tbl", ParaKey(doc, x))
  {
    var key := ParaKey(doc, x);
    NatToStringDigits(x);
    forall i: nat | i <= |key| ensures !OccursAt(key, "_tbl", i) {
      if i + 4 <= |key| {
        assert key[i..i + 4][0] == key[i] && key[i..i + 4][1] == key[i + 1];
        if i < |doc| {
          assert key[i] == doc[i];
        } else if i > |doc| + 5 {
          assert key[i] == NatToString(x)[i - |doc| - 6];
        }
      }
    }
  }

  /**
   * As written, `compare_para` resolves a paragraph key with `replace`: for a
   * document "<doc>.docx" whose name has no underscore, the key
   * `<doc>_para_<x>` has no "_tbl", the whole key is looked up, no file name
   * that short starts with it, and the row gets no file; `replace_para` finds
   * the document.
   */
  lemma ParaKeyUnresolvedAsWritten(doc: string, x: nat, kb: string, score: real)
    requires '_' !in doc
    ensures ParaRowAsWritten(ParaKey(doc, x), kb, score, [doc + ".docx"]).fileA == None
    ensures ParaRowOf(ParaKey(doc, x), kb, score, [doc + ".docx"]).fileA == Some(doc + ".docx")
  {
    var key := ParaKey(doc, x);
    var names := [doc + ".docx"];
    ParaKeyHasNoTbl(doc, x);
    assert SplitFirst(key, "_tbl") == key;
    NatToStringDigits(x);
    HeadMatchesIsPrefix(key, doc + ".docx");
    assert Matching(key, names) == [];
    assert !IsSubstring("_para", doc) by {
      forall i: nat | i <= |doc| ensures !OccursAt(doc, "_para", i) {
        if i + 5 <= |doc| {
          assert doc[i..i + 5][0] == doc[i];
        }
      }
    }
    LowerConcat(doc, ".docx");
    assert IsPrefix(Lower(doc), Lower(doc + ".docx"));
    assert FirstStartingWith(doc, names, 0);
    ReplaceParaOfParaKey(doc, x, names, 0);
  }

  /** The evidently intended row, resolving paragraph keys with `replace_para`. */
  function ParaRowOf(ka: string, kb: string, content: real, fileNames: seq<string>): ParaRow {
    ParaRow(ka, kb, content, ParaMatch(content), ReplacePara(ka, fileNames), ReplacePara(kb, fileNames))
  }

  function ParaRowsFor(ka: string, bKeys: seq<string>, content: (string, string) -> real, fileNames: seq<string>): seq<ParaRow> {
    if bKeys == [] then []
    else
      var kb := bKeys[|bKeys| - 1];
      ParaRowsFor(ka, bKeys[..|bKeys| - 1], content, fileNames) + [ParaRowOf(ka, kb, content(ka, kb), fileNames)]
  }

  function ParaRows(aKeys: seq<string>, bKeys: seq<string>, content: (string, string) -> real, fileNames: seq<string>): seq<ParaRow> {
    if aKeys == [] then []
    else
      ParaRows(aKeys[..|aKeys| - 1], bKeys, content, fileNames)
        + ParaRowsFor(aKeys[|aKeys| - 1], bKeys, content, fileNames)
  }

  /** One paragraph against the paragraphs of the other document gives one row per paragraph, in order. */
  lemma {:induction false} ParaRowsForShape(ka: string, bKeys: seq<string>, content: (string, string) -> real, fileNames: seq<string>)
    ensures |ParaRowsFor(ka, bKeys, content, fileNames)| == |bKeys|
    ensures forall j :: 0 <= j < |bKeys| ==>
      ParaRowsFor(ka, bKeys, content, fileNames)[j] == ParaRowOf(ka, bKeys[j], content(ka, bKeys[j]), fileNames)
  {
    if bKeys != [] {
      var init := bKeys[..|bKeys| - 1];
      ParaRowsForShape(ka, init, content, fileNames);
      var front := ParaRowsFor(ka, init, content, fileNames);
      var kb := bKeys[|bKeys| - 1];
      var last := ParaRowOf(ka, kb, content(ka, kb), fileNames);
      assert ParaRowsFor(ka, bKeys, content, fileNames) == front + [last];
      forall j | 0 <= j < |bKeys|
        ensures (front + [last])[j] == ParaRowOf(ka, bKeys[j], content(ka, bKeys[j]), fileNames)
      {
        if j < |init| {
          assert init[j] == bKeys[j];
        }
      }
    }
  }

  /** `compare_para` gives one row per pair of paragraphs. */
  lemma {:induction false} ParaRowsCount(aKeys: seq<string>, bKeys: seq<string>, content: (string, string) -> real, fileNames: seq<string>)
    ensures |ParaRows(aKeys, bKeys, content, fileNames)| == |aKeys| * |bKeys|
  {
    if aKeys != [] {
      var init := aKeys[..|aKeys| - 1];
      ParaRowsCount(init, bKeys, content, fileNames);
      ParaRowsForShape(aKeys[|aKeys| - 1], bKeys, content, fileNames);
      MulSucc(|init|, |bKeys|);
    }
  }

  /** Row `r` is the row of its own pair: `para_match` of the pair's score and both keys resolved with `replace_para`. */
  predicate OwnParaRow(r: ParaRow, aKeys: seq<string>, bKeys: seq<string>, content: (string, string) -> real, fileNames: seq<string>) {
    r.aNo in aKeys && r.bNo in bKeys && r == ParaRowOf(r.aNo, r.bNo, content(r.aNo, r.bNo), fileNames)
  }

  /** Every row of `compare_para` pairs a key of each document and is the row of that pair. */
  lemma {:induction false} ParaRowsWellFormed(aKeys: seq<string>, bKeys: seq<string>, content: (string, string) -> real, fileNames: seq<string>)
    ensures forall r <- ParaRows(aKeys, bKeys, content, fileNames) :: OwnParaRow(r, aKeys, bKeys, content, fileNames)
  {
    if aKeys != [] {
      var init := aKeys[..|aKeys| - 1];
      var ka := aKeys[|aKeys| - 1];
      ParaRowsWellFormed(init, bKeys, content, fileNames);
      ParaRowsForShape(ka, bKeys, content, fileNames);
      var front := ParaRows(init, bKeys, content, fileNames);
      var rs := ParaRowsFor(ka, bKeys, content, fileNames);
      assert ParaRows(aKeys, bKeys, content, fileNames) == front + rs;
      forall r <- front + rs
        ensures OwnParaRow(r, aKeys, bKeys, content, fileNames)
      {
        if r in front {
          assert OwnParaRow(r, init, bKeys, content, fileNames);
          assert r.aNo in aKeys;
        } else {
          var j :| 0 <= j < |rs| && rs[j] == r;
          assert r.bNo == bKeys[j];
        }
      }
    }
  }

  /** The nested loops of `compare_para` over the paragraphs of two documents (lines 364-390), with `replace_para`. */
  method CompareParagraphPair(aKeys: seq<string>, bKeys: seq<string>, content: (string, string) -> real,
                              fileNames: seq<string>) returns (rows: seq<ParaRow>)
    ensures rows == ParaRows(aKeys, bKeys, content, fileNames)
  {
    rows := [];
    for i := 0 to |aKeys|
      invariant rows == ParaRows(aKeys[..i], bKeys, content, fileNames)
    {
      assert aKeys[..i + 1][..i] == aKeys[..i];
      var rowsFor := CompareParagraphTo(aKeys[i], bKeys, content, fileNames);
      rows := rows + rowsFor;
    }
    assert aKeys[..|aKeys|] == aKeys;
  }

  /** The inner loop of `compare_para`: one paragraph against every paragraph of the other document. */
  method CompareParagraphTo(ka: string, bKeys: seq<string>, content: (string, string) -> real,
                            fileNames: seq<string>) returns (rows: seq<ParaRow>)
    ensures rows == ParaRowsFor(ka, bKeys, content, fileNames)
  {
    rows := [];
    for j := 0 to |bKeys|
      invariant rows == ParaRowsFor(ka, bKeys[..j], content, fileNames)
    {
      assert bKeys[..j + 1][..j] == bKeys[..j];
      var kb := bKeys[j];
      rows := rows + [ParaRowOf(ka, kb, content(ka, kb), fileNames)];
    }
    assert bKeys[..|bKeys|] == bKeys;
  }

  /**
   * With `replace_para`, every row of a paragraph pair resolves each key made
   * by `getText` back to the document it came from.
   */
  lemma ParaRowResolves(docA: string, x: nat, docB: string, y: nat, score: real, fileNames: seq<string>, ia: nat, ib: nat)
    requires !IsSubstring("_para", docA) && !IsSubstring("_para", docB)
    requires FirstStartingWith(docA, fileNames, ia) && FirstStartingWith(docB, fileNames, ib)
    ensures var r := ParaRowOf(ParaKey(docA, x), ParaKey(docB, y), score, fileNames);
      r.fileA == Some(fileNames[ia]) && r.fileB == Some(fileNames[ib]) && (r.isMatch <==> score > 0.9)
  {
    ReplaceParaOfParaKey(docA, x, fileNames, ia);
    ReplaceParaOfParaKey(docB, y, fileNames, ib);
  }
}
