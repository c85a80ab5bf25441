/** The `search-filter` custom element (searchFilter.js): a select control built
    from its `options` and `default-option` attributes. */
module SearchFilters {
  import opened Wrappers
  import opened Catalogue
  import opened Dropdowns

  /** What `JSON.parse` makes of the `options` attribute, seen through `Object.entries`:
      a syntax error, `null` (also what a missing attribute parses to), or a value with
      these entries. */
  datatype Parsed = InvalidJson | JsonNull | JsonValue(entries: Entries)

  /** `Object.entries(null)` throws a TypeError outside the `try`. */
  datatype RenderError = EntriesOfNull

  const FallbackLabel := "Select an option"

  /** `this.getAttribute('default-option') || 'Select an option'`: an absent or empty attribute
      falls back; any other value is used as it is. */
  function DefaultLabel(attr: Option<string>): (shown: string)
    ensures shown != ""
    ensures attr.Some? && attr.value != "" ==> shown == attr.value
    ensures attr.None? || attr.value == "" ==> shown == FallbackLabel
  {
    if attr.Some? && attr.value != "" then attr.value else FallbackLabel
  }

  /** The options `render` writes: the parse error is caught and read as an empty mapping,
      while a `null` result makes `Object.entries` throw. */
  function RenderOptions(defaultAttr: Option<string>, parsed: Parsed): (r: Result<seq<OptionItem>, RenderError>)
    ensures r.Err? <==> parsed.JsonNull?
    ensures parsed.InvalidJson? ==> r == Ok([OptionItem("any", DefaultLabel(defaultAttr))])
    ensures parsed.JsonValue? ==> r.Ok? && |r.value| == |parsed.entries| + 1
    ensures r.Ok? ==> r.value[0] == OptionItem("any", DefaultLabel(defaultAttr))
    ensures parsed.JsonValue? ==> forall i :: 0 <= i < |parsed.entries| ==>
              r.value[i + 1] == OptionItem(parsed.entries[i].0, parsed.entries[i].1)
  {
    var any := OptionItem("any", DefaultLabel(defaultAttr));
    match parsed
    case InvalidJson => Ok([any])
    case JsonNull => Err(EntriesOfNull)
    case JsonValue(entries) =>
      Ok([any] + seq(|entries|, i requires 0 <= i < |entries| => OptionItem(entries[i].0, entries[i].1)))
  }

  /** The element builds the same list the page-level dropdowns append. */
  lemma SameListAsPopulate(defaultAttr: Option<string>, entries: Entries)
    ensures RenderOptions(defaultAttr, JsonValue(entries)) == Ok(OptionList(DefaultLabel(defaultAttr), entries))
  {
    var rendered := RenderOptions(defaultAttr, JsonValue(entries)).value;
    var populated := OptionList(DefaultLabel(defaultAttr), entries);
    OptionListShape(DefaultLabel(defaultAttr), entries);
    assert |rendered| == |populated|;
    forall k | 0 <= k < |rendered|
      ensures rendered[k] == populated[k]
    {
      if k > 0 {
        assert rendered[(k - 1) + 1] == populated[(k - 1) + 1];
      }
    }
    assert rendered == populated;
  }

  /** A `search-filter` element: its attributes and the options it currently shows. */
  class SearchFilter {
    const defaultOption: Option<string>
    const options: Parsed
    var content: seq<OptionItem>

    /** `initial` is whatever the element held before `connectedCallback` rendered it. */
    constructor (defaultOption: Option<string>, options: Parsed, initial: seq<OptionItem>)
      ensures this.defaultOption == defaultOption && this.options == options && content == initial
    {
      this.defaultOption := defaultOption;
      this.options := options;
      content := initial;
    }

    /** `render`: replaces the whole content, or throws before touching it. */
    method Render() returns (thrown: Option<RenderError>)
      modifies this
      ensures thrown.None? <==> RenderOptions(defaultOption, options).Ok?
      ensures thrown.None? ==> content == RenderOptions(defaultOption, options).value
      ensures thrown.Some? ==> content == old(content)
    {
      var r := RenderOptions(defaultOption, options);
      if r.Ok? {
        content := r.value;
        thrown := None;
      } else {
        thrown := Some(r.error);
      }
    }
  }

  /** Rendering twice leaves what rendering once leaves, whatever the attributes and whatever
      the element held before: the rendered list, or the old content when `render` throws. */
  method RenderTwice(defaultOption: Option<string>, parsed: Parsed, initial: seq<OptionItem>)
    returns (once: seq<OptionItem>, twice: seq<OptionItem>)
    ensures once == twice
    ensures RenderOptions(defaultOption, parsed).Ok? ==> once == RenderOptions(defaultOption, parsed).value
    ensures RenderOptions(defaultOption, parsed).Err? ==> once == initial
  {
    var element := new SearchFilter(defaultOption, parsed, initial);
    var _ := element.Render();
    once := element.content;
    var _ := element.Render();
    twice := element.content;
  }
}
