/** `format_all_results`: renders the review results of a document-review job
    as the Markdown-like text that is put into the next-action prompt. */
module ResultsFormat {
  import opened Wrappers
  import opened Strings
  import opened ExtractedText

  /** The check-list entry a review result belongs to (`item["checkList"]`;
      a missing entry reads as one whose every key is missing). */
  datatype CheckList = CheckList(name: Option<string>, parentName: Option<string>, description: Option<string>)

  /** One entry of `item["sourceReferences"]`. */
  datatype SourceReference = SourceReference(filename: Option<string>, pageNumber: Option<int>)

  /** One review result. `userOverride` is the truthiness of that key (a missing
      key reads as false), `confidencePercent` is `int(confidenceScore * 100)`,
      and a missing `sourceReferences` key reads as the empty list. */
  datatype ReviewItem = ReviewItem(
    result: Option<string>,
    userOverride: bool,
    checkList: CheckList,
    confidencePercent: Option<int>,
    explanation: Option<string>,
    extractedText: Option<string>,
    sourceReferences: seq<SourceReference>,
    userComment: Option<string>)

  const NoResults := "No results available."
  const BlockSeparator := "\n\n"
  const LineSeparator := "\n"
  const OverrideSuffix := " (User Override)"
  const SnippetSeparator := "\", \""
  const ReferenceSeparator := ", "
  const MaxSnippets := 3
  const MaxReferences := 5

  // ---------------------------------------------------------------------------
  // Header line

  /** The status word; a missing result defaults to "pending". */
  function StatusWord(result: Option<string>): string
  {
    var r := result.GetOr("pending");
    if r == "pass" then "Pass" else if r == "fail" then "Fail" else "Pending"
  }

  /** "pass" reads Pass, "fail" reads Fail, and anything else, a missing
      result included, reads Pending. */
  lemma StatusWordCases(result: Option<string>)
    ensures StatusWord(result) == "Pass" <==> result == Some("pass")
    ensures StatusWord(result) == "Fail" <==> result == Some("fail")
    ensures StatusWord(result) == "Pending" <==> result != Some("pass") && result != Some("fail")
  {
  }

  /** The check-list name, "Unknown" when the key is missing. */
  function Name(item: ReviewItem): string
  {
    item.checkList.name.GetOr("Unknown")
  }

  /** `### [parent] ` for a non-empty parent name, `### ` otherwise. */
  function HeaderLead(parentName: Option<string>): string
  {
    if Truthy(parentName) then "### [" + parentName.value + "] " else "### "
  }

  function OverrideText(userOverride: bool): string
  {
    if userOverride then OverrideSuffix else ""
  }

  /** The first line of a block. */
  function Header(item: ReviewItem): string
  {
    HeaderLead(item.checkList.parentName) + Name(item) + ": " + StatusWord(item.result) + OverrideText(item.userOverride)
  }

  /** The header starts `### [parent] name: ` when the parent name is non-empty,
      and `### name: ` otherwise. */
  lemma HeaderStart(item: ReviewItem)
    ensures Truthy(item.checkList.parentName) ==>
      StartsWith(Header(item), "### [" + item.checkList.parentName.value + "] " + Name(item) + ": ")
    ensures !Truthy(item.checkList.parentName) ==> StartsWith(Header(item), "### " + Name(item) + ": ")
  {
    var front := HeaderLead(item.checkList.parentName) + Name(item) + ": ";
    var h := Header(item);
    assert h == front + (StatusWord(item.result) + OverrideText(item.userOverride));
    assert h[..|front|] == front;
  }

  /** The header ends with the status word and, exactly when a user overrode
      the result, the override suffix. */
  lemma HeaderEnd(item: ReviewItem)
    ensures EndsWith(Header(item), ": " + StatusWord(item.result) + OverrideText(item.userOverride))
    ensures EndsWith(Header(item), OverrideSuffix) <==> item.userOverride
  {
    var status := StatusWord(item.result);
    var h := Header(item);
    var tail := ": " + status + OverrideText(item.userOverride);
    assert h == (HeaderLead(item.checkList.parentName) + Name(item)) + tail;
    assert h[|h| - |tail|..] == tail;
    if !item.userOverride {
      assert h[|h| - 1] == status[|status| - 1] != ')';
    }
  }

  // ---------------------------------------------------------------------------
  // Detail lines

  /** The optional lines of a block. */
  datatype Detail = Rule | Confidence | Explanation | Extracted | Sources | Comment

  /** The order in which the optional lines are printed. */
  const DetailOrder: seq<Detail> := [Rule, Confidence, Explanation, Extracted, Sources, Comment]

  function Rank(d: Detail): nat
  {
    match d
    case Rule => 0
    case Confidence => 1
    case Explanation => 2
    case Extracted => 3
    case Sources => 4
    case Comment => 5
  }

  /** The start of the line for `d`, up to and including the colon and space. */
  function Lead(d: Detail): (l: string)
    ensures |l| >= 5
  {
    match d
    case Rule => "- Rule: "
    case Confidence => "- Confidence: "
    case Explanation => "- Explanation: "
    case Extracted => "- Extracted text: "
    case Sources => "- Sources: "
    case Comment => "- User comment: "
  }

  /** The snippets of the extracted-text field, when it is non-empty. */
  function Snippets(item: ReviewItem, json: string -> JsonParse): seq<string>
  {
    if Truthy(item.extractedText) then ParseExtractedText(item.extractedText.value, json) else []
  }

  /** Whether the line for `d` is printed: a non-empty field, except that a
      confidence of zero is printed too, and extracted text only when it parses
      to at least one snippet. */
  predicate Shown(item: ReviewItem, json: string -> JsonParse, d: Detail)
  {
    match d
    case Rule => Truthy(item.checkList.description)
    case Confidence => item.confidencePercent.Some?
    case Explanation => Truthy(item.explanation)
    case Extracted => Snippets(item, json) != []
    case Sources => item.sourceReferences != []
    case Comment => Truthy(item.userComment)
  }

  /** The first three snippets, each in double quotes, separated by ", ". */
  function SnippetsText(snippets: seq<string>): string
  {
    "\"" + Join(Take(snippets, MaxSnippets), SnippetSeparator) + "\""
  }

  /** Only the first three snippets are shown, and a single snippet is shown
      in quotes on its own. */
  lemma SnippetsCapped(snippets: seq<string>)
    ensures |snippets| > MaxSnippets ==> SnippetsText(snippets) == SnippetsText(snippets[..MaxSnippets])
    ensures |snippets| == 1 ==> SnippetsText(snippets) == "\"" + snippets[0] + "\""
  {
  }

  /** Within the cap, each snippet is wrapped in its own quotes and the quoted
      snippets are separated by ", ". */
  lemma SnippetsEachQuoted(x: string, more: seq<string>)
    requires 1 <= |more| < MaxSnippets
    ensures SnippetsText([x] + more) == "\"" + x + "\", " + SnippetsText(more)
  {
    var all := [x] + more;
    assert Take(all, MaxSnippets) == all && Take(more, MaxSnippets) == more;
    assert all[1..] == more;
    assert Join(all, SnippetSeparator) == x + SnippetSeparator + Join(more, SnippetSeparator);
  }

  predicate PageTruthy(page: Option<int>)
  {
    page.Some? && page.value != 0
  }

  function FileName(ref: SourceReference): string
  {
    ref.filename.GetOr("Unknown")
  }

  /** `filename (p.N)` for a non-zero page, the bare file name otherwise. */
  function RefText(ref: SourceReference): string
  {
    if PageTruthy(ref.pageNumber) then FileName(ref) + " (p." + IntToString(ref.pageNumber.value) + ")"
    else FileName(ref)
  }

  /** A reference starts with its file name and is exactly the file name when
      its page is missing or zero; otherwise the page follows in parentheses. */
  lemma RefTextShape(ref: SourceReference)
    ensures StartsWith(RefText(ref), FileName(ref))
    ensures RefText(ref) == FileName(ref) <==> !PageTruthy(ref.pageNumber)
    ensures PageTruthy(ref.pageNumber) ==> EndsWith(RefText(ref), " (p." + IntToString(ref.pageNumber.value) + ")")
  {
    var t := RefText(ref);
    if PageTruthy(ref.pageNumber) {
      var tail := " (p." + IntToString(ref.pageNumber.value) + ")";
      assert t == FileName(ref) + tail;
      assert t[..|FileName(ref)|] == FileName(ref);
      assert t[|t| - |tail|..] == tail;
      assert |t| > |FileName(ref)|;
    }
  }

  function RefTexts(refs: seq<SourceReference>): (r: seq<string>)
    ensures |r| == |refs|
  {
    seq(|refs|, i requires 0 <= i < |refs| => RefText(refs[i]))
  }

  /** The first five references, separated by ", ". */
  function SourcesText(refs: seq<SourceReference>): string
  {
    Join(RefTexts(Take(refs, MaxReferences)), ReferenceSeparator)
  }

  /** Only the first five references are shown, and a single reference is
      shown on its own. */
  lemma SourcesCapped(refs: seq<SourceReference>)
    ensures |refs| > MaxReferences ==> SourcesText(refs) == SourcesText(refs[..MaxReferences])
    ensures |refs| == 1 ==> SourcesText(refs) == RefText(refs[0])
  {
    if |refs| > MaxReferences {
      assert Take(refs, MaxReferences) == Take(refs[..MaxReferences], MaxReferences);
    }
  }

  /** Within the cap, the references are listed one after the other, separated
      by ", ". */
  lemma SourcesEachListed(r: SourceReference, more: seq<SourceReference>)
    requires 1 <= |more| < MaxReferences
    ensures SourcesText([r] + more) == RefText(r) + ", " + SourcesText(more)
  {
    var all := [r] + more;
    assert Take(all, MaxReferences) == all && Take(more, MaxReferences) == more;
    var texts := RefTexts(all);
    assert texts[0] == RefText(r);
    assert texts[1..] == RefTexts(more);
  }

  /** What follows the lead of the line for `d` (read only when `d` is shown). */
  function DetailText(item: ReviewItem, json: string -> JsonParse, d: Detail): string
  {
    match d
    case Rule => item.checkList.description.GetOr("")
    case Confidence => IntToString(item.confidencePercent.GetOr(0)) + "%"
    case Explanation => item.explanation.GetOr("")
    case Extracted => SnippetsText(Snippets(item, json))
    case Sources => SourcesText(item.sourceReferences)
    case Comment => item.userComment.GetOr("")
  }

  function DetailLine(item: ReviewItem, json: string -> JsonParse, d: Detail): string
  {
    Lead(d) + DetailText(item, json, d)
  }

  function LineIf(item: ReviewItem, json: string -> JsonParse, d: Detail): seq<string>
  {
    if Shown(item, json, d) then [DetailLine(item, json, d)] else []
  }

  // ---------------------------------------------------------------------------
  // Blocks and the whole text

  /** The lines of a block once the header and the first `n` details of
      `DetailOrder` have been dealt with, as the formatter appends them. */
  function LinesThrough(n: nat, item: ReviewItem, json: string -> JsonParse): (lines: seq<string>)
    requires n <= |DetailOrder|
    ensures |lines| > 0 && lines[0] == Header(item)
  {
    if n == 0 then [Header(item)]
    else LinesThrough(n - 1, item, json) + LineIf(item, json, DetailOrder[n - 1])
  }

  /** The lines of one block. */
  function ItemLines(item: ReviewItem, json: string -> JsonParse): seq<string>
  {
    LinesThrough(|DetailOrder|, item, json)
  }

  /** The block of one review result: its lines separated by newlines. */
  function Block(item: ReviewItem, json: string -> JsonParse): string
  {
    Join(ItemLines(item, json), LineSeparator)
  }

  /** A block starts with its header line. */
  lemma BlockStartsWithHeader(item: ReviewItem, json: string -> JsonParse)
    ensures StartsWith(Block(item, json), Header(item))
  {
    JoinStartsWithFirst(ItemLines(item, json), LineSeparator);
  }

  function Blocks(items: seq<ReviewItem>, json: string -> JsonParse): (bs: seq<string>)
    ensures |bs| == |items|
  {
    seq(|items|, i requires 0 <= i < |items| => Block(items[i], json))
  }

  /** The whole rendering: a fixed sentence for no results, otherwise the blocks
      separated by blank lines. */
  function RenderedResults(items: seq<ReviewItem>, json: string -> JsonParse): string
  {
    if items == [] then NoResults else Join(Blocks(items, json), BlockSeparator)
  }

  /** The text is the fixed sentence exactly when there are no results;
      otherwise it starts with the header of the first block. */
  lemma RenderedNoResultsIffEmpty(items: seq<ReviewItem>, json: string -> JsonParse)
    ensures RenderedResults(items, json) == NoResults <==> items == []
    ensures items != [] ==> StartsWith(RenderedResults(items, json), "### ")
  {
    if items != [] {
      var bs := Blocks(items, json);
      var r := Join(bs, BlockSeparator);
      assert RenderedResults(items, json) == r;
      var h := Header(items[0]);
      assert h[..4] == "### " by {
        HeaderStart(items[0]);
      }
      assert bs[0][..|h|] == h by {
        BlockStartsWithHeader(items[0], json);
      }
      assert r[..|bs[0]|] == bs[0] by {
        JoinStartsWithFirst(bs, BlockSeparator);
      }
      assert r[..4] == "### ";
      assert r[0] == '#' != NoResults[0];
    }
  }

  /** One result renders as its own block. */
  lemma RenderedSingle(x: ReviewItem, json: string -> JsonParse)
    ensures RenderedResults([x], json) == Block(x, json)
  {
  }

  /** Each further result adds a blank line and its block at the end. */
  lemma {:induction false} RenderedAppend(items: seq<ReviewItem>, x: ReviewItem, json: string -> JsonParse)
    requires items != []
    ensures RenderedResults(items + [x], json) == RenderedResults(items, json) + BlockSeparator + Block(x, json)
  {
    assert Blocks(items + [x], json) == Blocks(items, json) + [Block(x, json)];
    JoinAppend(Blocks(items, json), Block(x, json), BlockSeparator);
  }

  // ---------------------------------------------------------------------------
  // The detail lines follow the fixed order

  predicate Ordered(ds: seq<Detail>)
  {
    forall i, j :: 0 <= i < j < |ds| ==> Rank(ds[i]) < Rank(ds[j])
  }

  /** The details of `ds` that are shown, in the order of `ds`. */
  function ShownIn(ds: seq<Detail>, item: ReviewItem, json: string -> JsonParse): seq<Detail>
  {
    if ds == [] then []
    else
      var last := ds[|ds| - 1];
      ShownIn(ds[..|ds| - 1], item, json) + (if Shown(item, json, last) then [last] else [])
  }

  /** Exactly the shown details of `ds` are kept. */
  lemma {:induction false} ShownInMembers(ds: seq<Detail>, item: ReviewItem, json: string -> JsonParse)
    ensures forall d :: d in ShownIn(ds, item, json) <==> d in ds && Shown(item, json, d)
  {
    if ds != [] {
      var init := ds[..|ds| - 1];
      ShownInMembers(init, item, json);
      assert ds == init + [ds[|ds| - 1]];
    }
  }

  /** Keeping only the shown details of an ordered run keeps it ordered. */
  lemma {:induction false} ShownInOrdered(ds: seq<Detail>, item: ReviewItem, json: string -> JsonParse)
    requires Ordered(ds)
    ensures Ordered(ShownIn(ds, item, json))
  {
    if ds != [] {
      var init := ds[..|ds| - 1];
      var rest := ShownIn(init, item, json);
      ShownInOrdered(init, item, json);
      if Shown(item, json, ds[|ds| - 1]) {
        ShownInMembers(init, item, json);
        OrderedSnoc(ds, rest);
      } else {
        assert ShownIn(ds, item, json) == rest + [];
      }
    }
  }

  /** Putting the last element of an ordered list after any of its earlier
      elements that are themselves in order keeps the order. */
  lemma OrderedSnoc(ds: seq<Detail>, rest: seq<Detail>)
    requires ds != [] && Ordered(ds) && Ordered(rest)
    requires forall d :: d in rest ==> d in ds[..|ds| - 1]
    ensures Ordered(rest + [ds[|ds| - 1]])
  {
    var last := ds[|ds| - 1];
    forall d | d in rest ensures Rank(d) < Rank(last) {
      var j :| 0 <= j < |ds| - 1 && ds[..|ds| - 1][j] == d;
      assert ds[j] == d;
    }
    var r := rest + [last];
    forall i, j | 0 <= i < j < |r| ensures Rank(r[i]) < Rank(r[j]) {
      assert r[i] == rest[i];
      if j < |rest| { assert r[j] == rest[j]; }
    }
  }

  function LineOf(item: ReviewItem, json: string -> JsonParse): Detail -> string
  {
    d => DetailLine(item, json, d)
  }

  function DetailLines(ds: seq<Detail>, item: ReviewItem, json: string -> JsonParse): (r: seq<string>)
    ensures |r| == |ds|
  {
    Map(ds, LineOf(item, json))
  }

  /** After the header come the lines of exactly the shown details among the
      first `n`, in the order of `DetailOrder`. */
  lemma {:induction false} LinesThroughAreShownDetails(n: nat, item: ReviewItem, json: string -> JsonParse)
    requires n <= |DetailOrder|
    ensures LinesThrough(n, item, json) == [Header(item)] + DetailLines(ShownIn(DetailOrder[..n], item, json), item, json)
  {
    if n > 0 {
      LinesThroughAreShownDetails(n - 1, item, json);
      var ds := DetailOrder[..n];
      assert ds[..|ds| - 1] == DetailOrder[..n - 1];
      var rest := ShownIn(DetailOrder[..n - 1], item, json);
      var d := DetailOrder[n - 1];
      var added := if Shown(item, json, d) then [d] else [];
      assert ShownIn(ds, item, json) == rest + added;
      MapAppend(rest, added, LineOf(item, json));
      assert DetailLines(added, item, json) == LineIf(item, json, d);
    }
  }

  /** A block is its header followed by the line of every shown detail, in
      the fixed order Rule, Confidence, Explanation, Extracted text, Sources,
      User comment. */
  lemma ItemLinesFollowFixedOrder(item: ReviewItem, json: string -> JsonParse)
    ensures Ordered(ShownIn(DetailOrder, item, json))
    ensures ItemLines(item, json) == [Header(item)] + DetailLines(ShownIn(DetailOrder, item, json), item, json)
  {
    ShownInOrdered(DetailOrder, item, json);
    LinesThroughAreShownDetails(|DetailOrder|, item, json);
    assert DetailOrder[..|DetailOrder|] == DetailOrder;
  }

  /** In a header followed by the lines of `ds`, line `i` belongs to `ds[i - 1]`. */
  lemma DetailLineAt(lines: seq<string>, header: string, ds: seq<Detail>, item: ReviewItem, json: string -> JsonParse, i: nat)
    requires lines == [header] + DetailLines(ds, item, json) && 1 <= i < |lines|
    ensures lines[i] == DetailLine(item, json, ds[i - 1])
  {
    assert lines[i] == DetailLines(ds, item, json)[i - 1];
  }

  /** In a header followed by the lines of `ds`, every detail of `ds` has its line. */
  lemma DetailLineOf(lines: seq<string>, header: string, ds: seq<Detail>, item: ReviewItem, json: string -> JsonParse, d: Detail)
    requires lines == [header] + DetailLines(ds, item, json) && d in ds
    ensures exists i :: 1 <= i < |lines| && lines[i] == DetailLine(item, json, d)
  {
    var k :| 0 <= k < |ds| && ds[k] == d;
    assert lines[k + 1] == DetailLine(item, json, d);
  }

  /** The line of a shown detail is printed. */
  lemma ShownDetailPrinted(item: ReviewItem, json: string -> JsonParse, d: Detail)
    requires Shown(item, json, d)
    ensures exists i :: 1 <= i < |ItemLines(item, json)| && ItemLines(item, json)[i] == DetailLine(item, json, d)
  {
    ItemLinesFollowFixedOrder(item, json);
    ShownInMembers(DetailOrder, item, json);
    assert d in DetailOrder;
    DetailLineOf(ItemLines(item, json), Header(item), ShownIn(DetailOrder, item, json), item, json, d);
  }

  /** A detail line is printed only for a shown detail. */
  lemma PrintedDetailShown(item: ReviewItem, json: string -> JsonParse, d: Detail, i: nat)
    requires 1 <= i < |ItemLines(item, json)| && StartsWith(ItemLines(item, json)[i], Lead(d))
    ensures Shown(item, json, d)
  {
    var lines := ItemLines(item, json);
    var ds := ShownIn(DetailOrder, item, json);
    ItemLinesFollowFixedOrder(item, json);
    DetailLineAt(lines, Header(item), ds, item, json, i);
    var d' := ds[i - 1];
    assert lines[i] == Lead(d') + DetailText(item, json, d');
    assert lines[i][..5] == Lead(d')[..5];
    assert lines[i][..5] == Lead(d)[..5];
    LeadKeysDistinct(d, d');
    ShownInMembers(DetailOrder, item, json);
    assert d' in ds;
  }

  /** The first five characters of the line leads tell the details apart. */
  lemma LeadKeysDistinct(d: Detail, d': Detail)
    requires Lead(d)[..5] == Lead(d')[..5]
    ensures d == d'
  {
    var key := Lead(d)[..5];
    match d
    case Rule => assert key[2] == 'R';
    case Confidence => assert key[2] == 'C';
    case Explanation => assert key[4] == 'p';
    case Extracted => assert key[4] == 't';
    case Sources => assert key[2] == 'S';
    case Comment => assert key[2] == 'U';
  }

  /** A confidence of zero is still printed. */
  lemma ZeroConfidencePrinted(item: ReviewItem, json: string -> JsonParse)
    requires item.confidencePercent == Some(0)
    ensures "- Confidence: 0%" in ItemLines(item, json)
  {
    ShownDetailPrinted(item, json, Confidence);
    assert IntToString(0) == "0";
    assert DetailLine(item, json, Confidence) == "- Confidence: 0%";
  }

  // ---------------------------------------------------------------------------
  // The formatter

  /** The loop over `refs[:5]` that collects one text per reference. */
  method FormatSourceReferences(refs: seq<SourceReference>) returns (refStrs: seq<string>)
    ensures |refStrs| == if |refs| < MaxReferences then |refs| else MaxReferences
    ensures forall i :: 0 <= i < |refStrs| ==> refStrs[i] == RefText(refs[i])
  {
    var capped := Take(refs, MaxReferences);
    refStrs := [];
    for k := 0 to |capped|
      invariant |refStrs| == k
      invariant forall i :: 0 <= i < k ==> refStrs[i] == RefText(refs[i])
    {
      var ref := capped[k];
      assert ref == refs[k];
      var filename := ref.filename.GetOr("Unknown");
      var page := ref.pageNumber;
      var text;
      if page.Some? && page.value != 0 {
        text := filename + " (p." + IntToString(page.value) + ")";
      } else {
        text := filename;
      }
      assert text == RefText(ref);
      refStrs := refStrs + [text];
    }
  }

  /** The header line, built as the loop body builds it. */
  method FormatHeader(item: ReviewItem) returns (header: string)
    ensures header == Header(item)
  {
    var resultText := StatusWord(item.result);
    var override := OverrideText(item.userOverride);
    var checkList := item.checkList;
    var name := checkList.name.GetOr("Unknown");
    var parentName := checkList.parentName;
    if parentName.Some? && parentName.value != "" {
      header := "### [" + parentName.value + "] " + name + ": " + resultText + override;
    } else {
      header := "### " + name + ": " + resultText + override;
    }
  }

  /** One of the six `if` blocks of the loop body: the line for `d` when it
      applies, nothing otherwise. */
  method FormatDetail(item: ReviewItem, json: string -> JsonParse, d: Detail) returns (lines: seq<string>)
    ensures lines == LineIf(item, json, d)
  {
    lines := [];
    match d
    case Rule =>
      var description := item.checkList.description;
      if description.Some? && description.value != "" {
        lines := ["- Rule: " + description.value];
      }
    case Confidence =>
      var confidence := item.confidencePercent;
      if confidence.Some? {
        lines := ["- Confidence: " + (IntToString(confidence.value) + "%")];
      }
    case Explanation =>
      var explanation := item.explanation;
      if explanation.Some? && explanation.value != "" {
        lines := ["- Explanation: " + explanation.value];
      }
    case Extracted =>
      var extractedText := item.extractedText;
      if extractedText.Some? && extractedText.value != "" {
        var parsed := ParseExtractedText(extractedText.value, json);
        if parsed != [] {
          var quoted := Join(Take(parsed, MaxSnippets), SnippetSeparator);
          lines := ["- Extracted text: " + ("\"" + quoted + "\"")];
        }
      }
    case Sources =>
      var refs := item.sourceReferences;
      if refs != [] {
        var refStrs := FormatSourceReferences(refs);
        assert refStrs == RefTexts(Take(refs, MaxReferences));
        lines := ["- Sources: " + Join(refStrs, ReferenceSeparator)];
      }
    case Comment =>
      var userComment := item.userComment;
      if userComment.Some? && userComment.value != "" {
        lines := ["- User comment: " + userComment.value];
      }
  }

  /** The body of the loop over the results: the header, then each detail
      line that applies in the fixed order, joined by newlines. */
  method FormatItem(item: ReviewItem, json: string -> JsonParse) returns (block: string)
    ensures block == Block(item, json)
  {
    var header := FormatHeader(item);
    var parts := [header];
    var rule := FormatDetail(item, json, Rule);
    parts := parts + rule;
    assert parts == LinesThrough(1, item, json);
    var confidence := FormatDetail(item, json, Confidence);
    parts := parts + confidence;
    assert parts == LinesThrough(2, item, json);
    var explanation := FormatDetail(item, json, Explanation);
    parts := parts + explanation;
    assert parts == LinesThrough(3, item, json);
    var extracted := FormatDetail(item, json, Extracted);
    parts := parts + extracted;
    assert parts == LinesThrough(4, item, json);
    var sources := FormatDetail(item, json, Sources);
    parts := parts + sources;
    assert parts == LinesThrough(5, item, json);
    var comment := FormatDetail(item, json, Comment);
    parts := parts + comment;
    block := Join(parts, LineSeparator);
  }

  /** `format_all_results`: one block per result, in input order, or the fixed
      sentence when there are none. */
  method FormatAllResults(items: seq<ReviewItem>, json: string -> JsonParse) returns (text: string)
    ensures text == RenderedResults(items, json)
  {
    if items == [] {
      return NoResults;
    }
    var formatted: seq<string> := [];
    for k := 0 to |items|
      invariant |formatted| == k
      invariant forall i :: 0 <= i < k ==> formatted[i] == Block(items[i], json)
    {
      var block := FormatItem(items[k], json);
      formatted := formatted + [block];
    }
    assert formatted == Blocks(items, json);
    text := Join(formatted, BlockSeparator);
  }
}
