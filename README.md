# Next-action prompt expansion, modelled in Dafny

This project models `next-action-generator/template_expander.py`. That file
builds the text of the "next action" prompt of a document-review workflow.
It has three parts:

- `expand_template_variables` replaces every `{{all_results}}` in a prompt
  template with the rendered review results.
- `format_all_results` renders the review results. Each result becomes a
  Markdown-like block:
  - a header `### [parent] name: Status (User Override)`;
  - optional detail lines in the fixed order Rule, Confidence, Explanation,
    Extracted text, Sources, User comment;
  - at most three extracted-text snippets and five source references.
- `_parse_extracted_text` reads the extracted-text field as a JSON list of
  snippets, another JSON value, or plain text.

Files:

- `wrappers.dfy` (`Wrappers`): `Option`, standing for a record key that may be
  absent. `GetOr` models `dict.get(key, default)` and `Truthy` models Python
  truthiness of a string field.
- `strings.dfy` (`Strings`): the parts of Python's `str` the code relies on,
  each with its own lemmas:
  - `sep.join` (`Join`);
  - slicing to a cap (`Take`);
  - `str(int)` (`IntToString`);
  - `str.strip()` (`Strip`, with Python's `isspace` character set);
  - `str.replace` (`ReplaceAll`: left to right, non-overlapping, inserted text
    not scanned again).
- `extracted_text.dfy` (`ExtractedText`): `_parse_extracted_text`. The JSON
  decoder is a parameter `json: string -> JsonParse`.
- `results_format.dfy` (`ResultsFormat`): the review-result records and
  `format_all_results`.
  - The rendering is specified by functions (`Header`, `LinesThrough`,
    `Block`, `RenderedResults`) and lemmas about them.
  - The loops and list appends of the source are methods proved against those
    functions: `FormatAllResults`, `FormatItem`, `FormatDetail`,
    `FormatHeader`, `FormatSourceReferences`.
- `template_expander.dfy` (`TemplateExpander`): `expand_template_variables`.
  It is the method `ExpandTemplateVariables`, proved equal to the function
  `Expanded`, plus lemmas on how the placeholder is replaced.

Record keys are `Option` fields:

- `result`, `checkList.name`, `checkList.parentName`,
  `checkList.description`, `explanation`, `extractedText` and `userComment`
  are `Option<string>`.
- `confidencePercent` is `Option<int>` and holds `int(confidenceScore * 100)`.
- `sourceReferences` is a sequence; a missing key reads as the empty list.
- A source reference has `filename: Option<string>` and
  `pageNumber: Option<int>`. A page is truthy when it is present and non-zero.
- `userOverride` is its truthiness.
- `allResults` is `None` when the key is missing or null.

## Model

| member | source | states |
|---|---|---|
| TemplateExpander.ExpandTemplateVariables | next-action-generator/template_expander.py:14-32 | The expansion renders the results (or none when `allResults` is missing) and replaces the variable with them; the result equals the specification `Expanded` |
| TemplateExpander.ExpandWithoutPlaceholder | next-action-generator/template_expander.py:25-32 | A template that does not contain `{{all_results}}` comes back unchanged |
| TemplateExpander.ExpandFirstPlaceholder | next-action-generator/template_expander.py:25-32 | For a template `a + "{{all_results}}" + b` where `a` has no occurrence, the result is `a`, then the rendered results, then the expansion of `b`. So every occurrence, scanned left to right, gets the same text and the surrounding text is untouched |
| TemplateExpander.PlaceholderNotBefore | next-action-generator/template_expander.py:28-30 | No occurrence of `{{all_results}}` can start in text without one and run into the next occurrence (the variable does not overlap itself) |
| TemplateExpander.ExpandPlaceholderOnly | next-action-generator/template_expander.py:28-38 | The bare variable expands to the rendered results. That is "No results available." exactly when `allResults` is missing, null or empty |
| Strings.ReplaceWithoutMatch | next-action-generator/template_expander.py:28-30 | `str.replace` leaves text without the pattern unchanged |
| Strings.ReplaceSkipsPrefix | next-action-generator/template_expander.py:28-30 | `str.replace` copies the text before the first occurrence verbatim |
| Strings.ReplaceLeftmost | next-action-generator/template_expander.py:28-30 | `str.replace` replaces the leftmost occurrence and resumes scanning right after it |
| ResultsFormat.FormatAllResults | next-action-generator/template_expander.py:35-99 | The loop yields exactly `RenderedResults`: the fixed sentence for no results, otherwise one block per result, in input order, joined by blank lines |
| ResultsFormat.RenderedNoResultsIffEmpty | next-action-generator/template_expander.py:37-38 | The text is "No results available." if and only if there are no results; otherwise it starts with a block header `### ` |
| ResultsFormat.RenderedSingle | next-action-generator/template_expander.py:40-99 | A single result renders as its block alone |
| ResultsFormat.RenderedAppend | next-action-generator/template_expander.py:40-99 | One more result appends `"\n\n"` and its block, so blocks follow input order |
| ResultsFormat.FormatItem | next-action-generator/template_expander.py:42-97 | One loop pass yields exactly `Block`: the header and the detail lines joined by `"\n"` |
| ResultsFormat.FormatHeader | next-action-generator/template_expander.py:42-53 | The header the loop builds equals the specification `Header` |
| ResultsFormat.StatusWordCases | next-action-generator/template_expander.py:42-43 | "pass" gives Pass and "fail" gives Fail. Anything else, including a missing result (default "pending"), gives Pending. All three directions are if-and-only-if |
| ResultsFormat.HeaderStart | next-action-generator/template_expander.py:47-53 | The header starts `### [parent] name: ` for a non-empty parent name and `### name: ` otherwise; the name defaults to "Unknown" |
| ResultsFormat.HeaderEnd | next-action-generator/template_expander.py:42-53 | The header ends with `: Status` and then the suffix; it ends in " (User Override)" exactly when `userOverride` is truthy |
| ResultsFormat.LinesThrough | next-action-generator/template_expander.py:55-95 | The lines built so far always start with the header |
| ResultsFormat.BlockStartsWithHeader | next-action-generator/template_expander.py:55-97 | Every block starts with its header |
| ResultsFormat.FormatDetail | next-action-generator/template_expander.py:57-95 | Each of the six `if` blocks appends its line exactly when its detail is shown (`LineIf`) |
| ResultsFormat.ShownInMembers | next-action-generator/template_expander.py:57-95 | The printed details are exactly the shown ones: description, explanation and comment when non-empty, confidence when present (even 0), extracted text when it parses to at least one snippet, sources when there are any |
| ResultsFormat.ShownInOrdered | next-action-generator/template_expander.py:57-95 | Keeping only the shown details keeps them in the fixed order |
| ResultsFormat.LinesThroughAreShownDetails | next-action-generator/template_expander.py:55-95 | After the first n detail checks, the lines are the header followed by the lines of exactly the shown details among the first n, in order |
| ResultsFormat.ItemLinesFollowFixedOrder | next-action-generator/template_expander.py:55-95 | A block is its header followed by the line of every shown detail, in the order Rule, Confidence, Explanation, Extracted text, Sources, User comment |
| ResultsFormat.ShownDetailPrinted | next-action-generator/template_expander.py:57-95 | Every shown detail has its line in the block |
| ResultsFormat.PrintedDetailShown | next-action-generator/template_expander.py:57-95 | A block line that starts like a detail's lead belongs to a detail that is shown |
| ResultsFormat.LeadKeysDistinct | next-action-generator/template_expander.py:60-95 | The six line leads are told apart by their first five characters |
| ResultsFormat.ZeroConfidencePrinted | next-action-generator/template_expander.py:62-65 | A confidence of 0 is still printed, as "- Confidence: 0%" |
| ResultsFormat.SnippetsCapped | next-action-generator/template_expander.py:77 | Only the first three snippets are shown; a single snippet is shown in quotes |
| ResultsFormat.SnippetsEachQuoted | next-action-generator/template_expander.py:77 | Within the cap, each snippet is in its own quotes and the quoted snippets are separated by ", " |
| ResultsFormat.FormatSourceReferences | next-action-generator/template_expander.py:82-89 | The loop over `refs[:5]` yields min(n, 5) texts, text i rendering reference i |
| ResultsFormat.RefTextShape | next-action-generator/template_expander.py:84-89 | A reference starts with its file name (default "Unknown"). It is just the file name exactly when the page is missing or 0; otherwise it ends with ` (p.N)`, N the page as `str` renders it |
| ResultsFormat.SourcesCapped | next-action-generator/template_expander.py:83-90 | Only the first five references are shown; a single reference is shown alone |
| ResultsFormat.SourcesEachListed | next-action-generator/template_expander.py:83-90 | Within the cap, the references are listed in order, separated by ", " |
| Strings.IntToStringRoundTrip | next-action-generator/template_expander.py:65 | `str(int)` is a minus sign exactly for negative numbers, then digits that read back as the magnitude |
| Strings.JoinAppend | next-action-generator/template_expander.py:97-99 | Joining one more part appends the separator and the part |
| Strings.JoinStartsWithFirst | next-action-generator/template_expander.py:97-99 | A join starts with its first part |
| ExtractedText.ParseExtractedText | next-action-generator/template_expander.py:102-116 | "" gives no snippets, and a JSON list gives its elements. Another JSON value gives none. Non-JSON text gives exactly its stripped self when it is not all whitespace, and nothing when it is |
| Strings.Strip | next-action-generator/template_expander.py:113-114 | `str.strip()` neither starts nor ends with whitespace |
| Strings.StripIsInnerSlice | next-action-generator/template_expander.py:113-114 | `str.strip()` is a contiguous piece of the text with only whitespace cut on either side |
| Strings.StripEmptyIffBlank | next-action-generator/template_expander.py:113 | `value.strip()` is empty exactly when the text is all whitespace |

## Left out

- `json.loads` is not modelled. The decoder is a parameter
  `json: string -> JsonParse`, whose three outcomes are "raises
  `JSONDecodeError`" (`NotJson`), "a list" and "another value".
- Exceptions of `json.loads` other than `JSONDecodeError` are not modelled.
  Examples are `RecursionError` on very deeply nested arrays, and on Python
  3.11 and later a `ValueError` for an integer literal over the digit limit.
  `_parse_extracted_text` catches only `JSONDecodeError` and `TypeError`, so
  these escape `format_all_results` and `expand_template_variables`; the model
  has no such error path.
- `int(confidence * 100)` is not modelled: it is floating-point arithmetic. A
  result carries the already-truncated percent.
- Python's dynamic typing is not modelled:
  - list elements that are not strings (the join would raise);
  - a `checkList` that is `None`;
  - a page number or file name of another type;
  - a key present with the value `None` where the code uses a default.
    `dict.get` returns `None` there, so a name given as `None` prints
    "None". The model reads such a key as absent.
- `expand_template_variables` calls `format_all_results`. Here the method
  `ExpandTemplateVariables` calls `FormatAllResults`, and the lemmas about
  expansion are stated on the function `Expanded`, which uses the
  specification `RenderedResults`.
- The loop body of `format_all_results` is split into methods:
  - `FormatItem` is one iteration;
  - `FormatHeader` is the header;
  - `FormatDetail` is one of the six `if` blocks;
  - `FormatSourceReferences` is the inner loop.
  The appends happen in the same order as in the source.
