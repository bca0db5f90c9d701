/** `expand_template_variables`: puts the rendered review results into a
    next-action prompt template in place of its `{{all_results}}` variable. */
module TemplateExpander {
  import opened Wrappers
  import opened Strings
  import opened ExtractedText
  import opened ResultsFormat

  /** The one template variable the expander knows. */
  const Placeholder := "{{all_results}}"

  /** The data dictionary the template is expanded with; `allResults` is
      `None` when the key is missing or holds null. */
  datatype TemplateData = TemplateData(allResults: Option<seq<ReviewItem>>)

  /** `data.get("allResults", [])`, with a missing or null entry read as no
      results. */
  function AllResults(data: TemplateData): seq<ReviewItem>
  {
    data.allResults.GetOr([])
  }

  /** The expanded template: `template.replace("{{all_results}}", ...)` with the
      rendered results. */
  function Expanded(template: string, data: TemplateData, json: string -> JsonParse): string
  {
    ReplaceAll(template, Placeholder, RenderedResults(AllResults(data), json))
  }

  /** A template without the variable comes back unchanged. */
  lemma ExpandWithoutPlaceholder(template: string, data: TemplateData, json: string -> JsonParse)
    requires !Occurs(Placeholder, template)
    ensures Expanded(template, data, json) == template
  {
    ReplaceWithoutMatch(template, Placeholder, RenderedResults(AllResults(data), json));
  }

  /** An occurrence of the variable cannot start inside text that does not
      itself contain it and runs on into the variable: `{{all_results}}` has no
      proper suffix that is also a prefix of it. */
  lemma PlaceholderNotBefore(a: string, b: string)
    requires !Occurs(Placeholder, a)
    ensures NoMatchBefore(a + Placeholder + b, Placeholder, |a|)
  {
    var s := a + Placeholder + b;
    var n := |Placeholder|;
    forall i: nat | i < |a| ensures !MatchAt(s, Placeholder, i) {
      if i + n <= |a| {
        assert a[i..i + n] == s[i..i + n];
        assert !MatchAt(a, Placeholder, i);
      } else {
        var j := |a| - i;
        if j == 1 {
          assert s[i + 2] == Placeholder[1] != Placeholder[2];
        } else {
          assert s[i + n - 1] == Placeholder[n - 1 - j] != Placeholder[n - 1];
        }
      }
    }
  }

  /** The text before the first variable is kept as it is, the variable becomes
      the rendered results, and expansion goes on after it. */
  lemma ExpandFirstPlaceholder(a: string, b: string, data: TemplateData, json: string -> JsonParse)
    requires !Occurs(Placeholder, a)
    ensures Expanded(a + Placeholder + b, data, json)
      == a + RenderedResults(AllResults(data), json) + Expanded(b, data, json)
  {
    PlaceholderNotBefore(a, b);
    ReplaceLeftmost(a, Placeholder, b, RenderedResults(AllResults(data), json));
  }

  /** A template that is just the variable expands to the rendered results,
      which read "No results available." exactly when there are none (the
      entry missing, null or empty). */
  lemma ExpandPlaceholderOnly(data: TemplateData, json: string -> JsonParse)
    ensures Expanded(Placeholder, data, json) == RenderedResults(AllResults(data), json)
    ensures Expanded(Placeholder, data, json) == NoResults
      <==> data.allResults.None? || data.allResults.value == []
  {
    ExpandFirstPlaceholder([], [], data, json);
    assert [] + Placeholder + [] == Placeholder;
    RenderedNoResultsIffEmpty(AllResults(data), json);
  }

  /** `expand_template_variables`: renders the results, then replaces every
      occurrence of the variable by them. */
  method ExpandTemplateVariables(template: string, data: TemplateData, json: string -> JsonParse) returns (result: string)
    ensures result == Expanded(template, data, json)
  {
    result := template;
    var rendered := FormatAllResults(AllResults(data), json);
    result := ReplaceAll(result, Placeholder, rendered);
  }
}
