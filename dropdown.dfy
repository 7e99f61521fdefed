/** A filter dropdown: `getSelectedValues` and the repopulation done by
    `populateDropdown`, which keeps a selection only for ids still offered. */
module Dropdowns {
  import opened Catalog
  import opened Seqs

  /** One `<option>` element: its value, its text, and two of its flags. */
  datatype OptionEl = OptionEl(value: string, text: string, selected: bool, disabled: bool)

  const NoOptionsText: string := "No options available"

  /** The disabled entry shown when there is nothing to offer; an option
      without a value attribute reports its text as its value. */
  const Placeholder: OptionEl := OptionEl(NoOptionsText, NoOptionsText, false, true)

  /** `getSelectedValues`: the values of the selected options, in option order. */
  function SelectedValues(opts: seq<OptionEl>): (r: seq<string>)
    ensures |r| <= |opts|
    ensures forall v :: v in r <==> exists i :: 0 <= i < |opts| && opts[i].selected && opts[i].value == v
  {
    if opts == [] then []
    else (if opts[0].selected then [opts[0].value] else []) + SelectedValues(opts[1..])
  }

  /** `new Set(getSelectedValues(selectElement))` */
  function SelectedSet(opts: seq<OptionEl>): set<string>
  {
    set v | v in SelectedValues(opts)
  }

  /** The option values that the tags become. */
  function Values(tags: seq<Tag>): (r: seq<string>)
    ensures |r| == |tags| && forall i :: 0 <= i < |tags| ==> r[i] == IdOf(tags[i])
  {
    seq(|tags|, i requires 0 <= i < |tags| => IdOf(tags[i]))
  }

  /** The test `selectedValues.has(id)` as a filter predicate. */
  function InSet(keep: set<string>): string -> bool
  {
    v => v in keep
  }

  /** The option element built for one tag. */
  function Element(keep: set<string>, t: Tag): OptionEl
  {
    OptionEl(IdOf(t), t.name, IdOf(t) in keep, false)
  }

  /** `options.forEach(...)`: one element per tag, appended in order. */
  function Build(keep: set<string>, tags: seq<Tag>): seq<OptionEl>
  {
    if tags == [] then [] else [Element(keep, tags[0])] + Build(keep, tags[1..])
  }

  /** The option list `populateDropdown` leaves, given the previously selected
      values `keep`: the placeholder alone when there are no tags, one option
      per tag otherwise. */
  function Repopulated(keep: set<string>, tags: seq<Tag>): seq<OptionEl>
  {
    (if |tags| == 0 then [Placeholder] else []) + Build(keep, tags)
  }

  lemma {:induction false} BuildSnoc(keep: set<string>, tags: seq<Tag>, t: Tag)
    ensures Build(keep, tags + [t]) == Build(keep, tags) + [Element(keep, t)]
  {
    if tags != [] {
      assert (tags + [t])[1..] == tags[1..] + [t];
      BuildSnoc(keep, tags[1..], t);
    }
  }

  /** The options are exactly the given tags, in the given order; an empty
      list shows the disabled placeholder only. */
  lemma {:induction false} BuildOffers(keep: set<string>, tags: seq<Tag>)
    ensures |Build(keep, tags)| == |tags|
    ensures forall i :: 0 <= i < |tags| ==>
      Build(keep, tags)[i].value == IdOf(tags[i]) && Build(keep, tags)[i].text == tags[i].name &&
      !Build(keep, tags)[i].disabled && (Build(keep, tags)[i].selected <==> IdOf(tags[i]) in keep)
  {
    if tags != [] {
      BuildOffers(keep, tags[1..]);
      forall i | 1 <= i < |tags|
        ensures Build(keep, tags)[i] == Build(keep, tags[1..])[i - 1]
      {
      }
    }
  }

  lemma {:induction false} RepopulatedOffers(keep: set<string>, tags: seq<Tag>)
    ensures |tags| == 0 ==> Repopulated(keep, tags) == [Placeholder]
    ensures |tags| > 0 ==> |Repopulated(keep, tags)| == |tags|
    ensures |tags| > 0 ==> forall i :: 0 <= i < |tags| ==>
      Repopulated(keep, tags)[i].value == IdOf(tags[i]) &&
      Repopulated(keep, tags)[i].text == tags[i].name &&
      !Repopulated(keep, tags)[i].disabled
  {
    BuildOffers(keep, tags);
    if |tags| > 0 {
      assert Repopulated(keep, tags) == Build(keep, tags);
    }
  }

  lemma {:induction false} SelectedOfBuild(keep: set<string>, tags: seq<Tag>)
    ensures SelectedValues(Build(keep, tags)) == Filter(Values(tags), InSet(keep))
  {
    if tags != [] {
      SelectedOfBuild(keep, tags[1..]);
      assert Values(tags)[1..] == Values(tags[1..]);
      assert Build(keep, tags)[1..] == Build(keep, tags[1..]);
    }
  }

  /** After repopulating, the selected values are the previous selection
      intersected with the new option ids, in new option order. */
  lemma {:induction false} RepopulatedSelection(keep: set<string>, tags: seq<Tag>)
    ensures SelectedValues(Repopulated(keep, tags)) == Filter(Values(tags), InSet(keep))
    ensures forall v :: v in SelectedValues(Repopulated(keep, tags)) <==> v in keep && v in Values(tags)
  {
    SelectedOfBuild(keep, tags);
    if |tags| == 0 {
      assert Repopulated(keep, tags) == [Placeholder];
      assert SelectedValues([Placeholder]) == [];
    } else {
      assert Repopulated(keep, tags) == Build(keep, tags);
    }
    FilterMembers(Values(tags), InSet(keep));
  }

  /** A `<select multiple>` element. */
  class Dropdown {
    var options: seq<OptionEl>

    constructor ()
      ensures options == []
    {
      options := [];
    }

    /** `getSelectedValues(this)` */
    function Selected(): seq<string>
      reads this
    {
      SelectedValues(options)
    }

    /** `populateDropdown(this, tags)`: clears the element and appends one
        option per tag, selected when its id was selected before. */
    method Populate(tags: seq<Tag>)
      modifies this
      ensures options == Repopulated(SelectedSet(old(options)), tags)
    {
      var keep := SelectedSet(options);
      options := [];
      if |tags| == 0 {
        options := [Placeholder];
      }
      var i := 0;
      while i < |tags|
        invariant 0 <= i <= |tags|
        invariant options == (if |tags| == 0 then [Placeholder] else []) + Build(keep, tags[..i])
      {
        assert tags[..i + 1] == tags[..i] + [tags[i]];
        BuildSnoc(keep, tags[..i], tags[i]);
        options := options + [Element(keep, tags[i])];
        i := i + 1;
      }
      assert tags[..|tags|] == tags;
    }
  }
}
