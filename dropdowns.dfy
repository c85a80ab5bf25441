/** Option lists built from an id-to-name mapping: `Dropdown.populate` (scripts.js:57-72),
    which appends them to a select control. */
module Dropdowns {
  import opened Catalogue

  /** One `<option>`: its `value` and its text. */
  datatype OptionItem = OptionItem(value: string, text: string)

  /** One option per entry, in entry order, valued by the id and labelled by the name. */
  function EntryOptions(m: Entries): (r: seq<OptionItem>)
    ensures |r| == |m|
    ensures forall i :: 0 <= i < |m| ==> r[i] == OptionItem(m[i].0, m[i].1)
  {
    if m == [] then [] else EntryOptions(m[..|m| - 1]) + [OptionItem(m[|m| - 1].0, m[|m| - 1].1)]
  }

  /** The synthetic "any" option labelled `defaultLabel`, then one option per entry. */
  function OptionList(defaultLabel: string, m: Entries): seq<OptionItem> {
    [OptionItem("any", defaultLabel)] + EntryOptions(m)
  }

  /** The option list has one more option than the mapping has entries: "any" first,
      then entry `i` as option `i + 1`. */
  lemma OptionListShape(defaultLabel: string, m: Entries)
    ensures |OptionList(defaultLabel, m)| == |m| + 1
    ensures OptionList(defaultLabel, m)[0] == OptionItem("any", defaultLabel)
    ensures forall i :: 0 <= i < |m| ==> OptionList(defaultLabel, m)[i + 1] == OptionItem(m[i].0, m[i].1)
  {
  }

  /** A `<select>` whose options the page appends to. */
  class SelectControl {
    var options: seq<OptionItem>

    constructor ()
      ensures options == []
    {
      options := [];
    }

    /** `Dropdown.populate`: build the fragment entry by entry, then append it whole. */
    method Populate(m: Entries, defaultOption: string)
      modifies this
      ensures options == old(options) + OptionList(defaultOption, m)
    {
      var fragment := [OptionItem("any", defaultOption)];
      var i := 0;
      while i < |m|
        invariant 0 <= i <= |m|
        invariant fragment == [OptionItem("any", defaultOption)] + EntryOptions(m[..i])
      {
        assert m[..i + 1][..i] == m[..i];
        fragment := fragment + [OptionItem(m[i].0, m[i].1)];
        i := i + 1;
      }
      assert m[..i] == m;
      options := options + fragment;
    }
  }

  /** Populating a control twice, whatever it already held, lists every option twice more:
      nothing is de-duplicated. */
  method PopulateTwice(select: SelectControl, m: Entries, defaultOption: string)
    modifies select
    ensures select.options == old(select.options) + OptionList(defaultOption, m) + OptionList(defaultOption, m)
    ensures |select.options| == |old(select.options)| + 2 * (|m| + 1)
  {
    select.Populate(m, defaultOption);
    select.Populate(m, defaultOption);
  }
}
