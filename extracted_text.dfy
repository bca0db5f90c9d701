/** `_parse_extracted_text`: the extracted-text field of a review result holds
    either a JSON array of snippets or plain text. */
module ExtractedText {
  import opened Strings

  /** What `json.loads` makes of a string: it raises `JSONDecodeError`, the
      exception the source catches (`NotJson`), gives a list (`JsonList`), or
      gives any other JSON value (`JsonOther`). Other exceptions of the decoder
      are not modelled. The decoder itself is a parameter of the model,
      `json: string -> JsonParse`. */
  datatype JsonParse = NotJson | JsonList(elements: seq<string>) | JsonOther

  /** The snippets held in `value`: the elements of a JSON list, nothing for any
      other JSON value, and the stripped text itself for non-JSON text that is
      not blank. */
  function ParseExtractedText(value: string, json: string -> JsonParse): (r: seq<string>)
    ensures value == "" ==> r == []
    ensures value != "" && json(value).JsonList? ==> r == json(value).elements
    ensures !json(value).JsonList? ==> |r| <= 1
    ensures json(value).JsonOther? ==> r == []
    ensures json(value).NotJson? && r != [] ==> r[0] == Strip(value) && !AllSpace(value)
    ensures json(value).NotJson? && r == [] ==> AllSpace(value)
  {
    if value == "" then []
    else match json(value)
      case JsonList(elements) => elements
      case JsonOther => []
      case NotJson =>
        StripEmptyIffBlank(value);
        if Strip(value) != "" then [Strip(value)] else []
  }
}
