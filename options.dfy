/** `getUniqueFilterOptions`: the de-duplicated tags of one level, in
    first-seen order. */
module FilterOptions {
  import opened Catalog

  /** The tag at `level` when it passes `option && option.id`. */
  function UsableTag(e: Entry, level: Level): (r: Option<Tag>)
    ensures r.Some? <==> TagAt(e.metadata, level).Some? && Usable(TagAt(e.metadata, level).value)
    ensures r.Some? ==> Usable(r.value) && TagAt(e.metadata, level) == r
  {
    match TagAt(e.metadata, level)
    case None => None
    case Some(t) => if Usable(t) then Some(t) else None
  }

  /** Some tag of `tags` has this id. */
  predicate HasId(tags: seq<Tag>, id: string)
  {
    exists i :: 0 <= i < |tags| && IdOf(tags[i]) == id
  }

  /** The reference definition: the `reduce` of `getUniqueFilterOptions`, one
      item at a time from the left; a usable tag is kept when no kept tag has
      its id yet. */
  function UniqueTags(list: seq<Entry>, level: Level): (r: seq<Tag>)
    ensures |r| <= |list|
    decreases |list|
  {
    if list == [] then []
    else
      var prev := UniqueTags(list[..|list| - 1], level);
      match UsableTag(list[|list| - 1], level)
      case None => prev
      case Some(t) => if HasId(prev, IdOf(t)) then prev else prev + [t]
  }

  /** The index of the first item whose usable tag at `level` has this id,
      or `|list|` when there is none. */
  function FirstWith(list: seq<Entry>, level: Level, id: string): (j: nat)
    ensures j <= |list|
    ensures j < |list| ==> UsableTag(list[j], level).Some? && IdOf(UsableTag(list[j], level).value) == id
    ensures forall i :: 0 <= i < j ==> UsableTag(list[i], level).None? || IdOf(UsableTag(list[i], level).value) != id
    decreases |list|
  {
    if list == [] then 0
    else
      var f := FirstWith(list[..|list| - 1], level, id);
      if f < |list| - 1 then f
      else if UsableTag(list[|list| - 1], level).Some? && IdOf(UsableTag(list[|list| - 1], level).value) == id
      then |list| - 1
      else |list|
  }

  /** The options have usable, pairwise-distinct ids. */
  lemma {:induction false} UniqueTagsDistinct(list: seq<Entry>, level: Level)
    ensures forall i :: 0 <= i < |UniqueTags(list, level)| ==> Usable(UniqueTags(list, level)[i])
    ensures forall i, j :: 0 <= i < j < |UniqueTags(list, level)| ==>
      IdOf(UniqueTags(list, level)[i]) != IdOf(UniqueTags(list, level)[j])
    decreases |list|
  {
    if list != [] {
      var init := list[..|list| - 1];
      UniqueTagsDistinct(init, level);
      var prev := UniqueTags(init, level);
      match UsableTag(list[|list| - 1], level)
      case None =>
        assert UniqueTags(list, level) == prev;
      case Some(t) =>
        if !HasId(prev, IdOf(t)) {
          var r := prev + [t];
          assert UniqueTags(list, level) == r;
          assert forall i :: 0 <= i < |prev| ==> r[i] == prev[i] && IdOf(r[i]) != IdOf(t);
        } else {
          assert UniqueTags(list, level) == prev;
        }
    }
  }

  /** Every option is a tag that some item carries at that level. */
  lemma {:induction false} UniqueTagsDrawn(list: seq<Entry>, level: Level)
    ensures forall i :: 0 <= i < |UniqueTags(list, level)| ==>
      exists j :: 0 <= j < |list| && UsableTag(list[j], level) == Some(UniqueTags(list, level)[i])
    decreases |list|
  {
    if list != [] {
      var init := list[..|list| - 1];
      UniqueTagsDrawn(init, level);
      var prev := UniqueTags(init, level);
      var r := UniqueTags(list, level);
      assert |prev| <= |r| && forall i :: 0 <= i < |prev| ==> r[i] == prev[i];
      forall i | 0 <= i < |r|
        ensures exists j :: 0 <= j < |list| && UsableTag(list[j], level) == Some(UniqueTags(list, level)[i])
      {
        if i < |prev| {
          var j :| 0 <= j < |init| && UsableTag(init[j], level) == Some(prev[i]);
          assert list[j] == init[j];
        } else {
          assert UsableTag(list[|list| - 1], level) == Some(r[i]);
        }
      }
    } else {
      assert UniqueTags(list, level) == [];
    }
  }

  /** Every usable id that occurs in the input is offered. */
  lemma {:induction false} UniqueTagsCover(list: seq<Entry>, level: Level)
    ensures forall j :: 0 <= j < |list| && UsableTag(list[j], level).Some? ==>
      HasId(UniqueTags(list, level), IdOf(UsableTag(list[j], level).value))
    decreases |list|
  {
    if list != [] {
      var init := list[..|list| - 1];
      UniqueTagsCover(init, level);
      var prev := UniqueTags(init, level);
      var r := UniqueTags(list, level);
      assert forall i :: 0 <= i < |prev| ==> r[i] == prev[i];
      forall j | 0 <= j < |list| && UsableTag(list[j], level).Some?
        ensures HasId(r, IdOf(UsableTag(list[j], level).value))
      {
        if j < |init| {
          assert list[j] == init[j];
          var k :| 0 <= k < |prev| && IdOf(prev[k]) == IdOf(UsableTag(init[j], level).value);
          assert IdOf(r[k]) == IdOf(prev[k]);
        } else if !HasId(prev, IdOf(UsableTag(list[j], level).value)) {
          assert IdOf(r[|prev|]) == IdOf(UsableTag(list[j], level).value);
        }
      }
    }
  }

  /** Extending the list keeps the first occurrence of an id already seen. */
  lemma FirstWithKept(list: seq<Entry>, level: Level, id: string)
    requires list != [] && FirstWith(list[..|list| - 1], level, id) < |list| - 1
    ensures FirstWith(list, level, id) == FirstWith(list[..|list| - 1], level, id)
  {
  }

  /** The option a step appends is the tag of the step's item, and that item
      is the first to carry its id. */
  lemma {:induction false} NewOptionFirstAt(list: seq<Entry>, level: Level)
    requires list != [] && |UniqueTags(list, level)| > |UniqueTags(list[..|list| - 1], level)|
    ensures |UniqueTags(list, level)| == |UniqueTags(list[..|list| - 1], level)| + 1
    ensures UsableTag(list[|list| - 1], level) == Some(UniqueTags(list, level)[|UniqueTags(list[..|list| - 1], level)|])
    ensures FirstWith(list, level, IdOf(UniqueTags(list, level)[|UniqueTags(list[..|list| - 1], level)|])) == |list| - 1
  {
    var n := |list| - 1;
    var init := list[..n];
    var prev := UniqueTags(init, level);
    var r := UniqueTags(list, level);
    UniqueTagsCover(init, level);
    var t :| UsableTag(list[n], level) == Some(t) && !HasId(prev, IdOf(t)) && r == prev + [t];
    // no earlier item carries the new id, or it would already be offered
    forall i | 0 <= i < n
      ensures UsableTag(init[i], level).None? || IdOf(UsableTag(init[i], level).value) != IdOf(t)
    {
    }
    FirstWithNone(init, level, IdOf(t));
  }

  /** An id no item carries has no first occurrence. */
  lemma {:induction false} FirstWithNone(list: seq<Entry>, level: Level, id: string)
    requires forall i :: 0 <= i < |list| ==> UsableTag(list[i], level).None? || IdOf(UsableTag(list[i], level).value) != id
    ensures FirstWith(list, level, id) == |list|
    decreases |list|
  {
    if list != [] {
      var init := list[..|list| - 1];
      assert forall i :: 0 <= i < |init| ==> init[i] == list[i];
      FirstWithNone(init, level, id);
    }
  }

  /** Each option is the tag of the first item carrying its id. */
  lemma {:induction false} UniqueTagsFirstSeen(list: seq<Entry>, level: Level)
    ensures forall k :: 0 <= k < |UniqueTags(list, level)| ==>
      FirstWith(list, level, IdOf(UniqueTags(list, level)[k])) < |list| &&
      UsableTag(list[FirstWith(list, level, IdOf(UniqueTags(list, level)[k]))], level) == Some(UniqueTags(list, level)[k])
    decreases |list|
  {
    if list != [] {
      var n := |list| - 1;
      var init := list[..n];
      UniqueTagsFirstSeen(init, level);
      var prev := UniqueTags(init, level);
      var r := UniqueTags(list, level);
      assert forall i :: 0 <= i < |prev| ==> r[i] == prev[i];
      forall k | 0 <= k < |prev|
        ensures FirstWith(list, level, IdOf(r[k])) == FirstWith(init, level, IdOf(r[k]))
      {
        FirstWithKept(list, level, IdOf(prev[k]));
      }
      if |r| > |prev| {
        NewOptionFirstAt(list, level);
      }
    }
  }

  /** Options come in the order of the first items carrying their ids. */
  lemma {:induction false} UniqueTagsFirstOrder(list: seq<Entry>, level: Level)
    ensures forall k1, k2 :: 0 <= k1 < k2 < |UniqueTags(list, level)| ==>
      FirstWith(list, level, IdOf(UniqueTags(list, level)[k1])) < FirstWith(list, level, IdOf(UniqueTags(list, level)[k2]))
    decreases |list|
  {
    if list != [] {
      var n := |list| - 1;
      var init := list[..n];
      UniqueTagsFirstOrder(init, level);
      UniqueTagsFirstSeen(init, level);
      var prev := UniqueTags(init, level);
      var r := UniqueTags(list, level);
      assert forall i :: 0 <= i < |prev| ==> r[i] == prev[i];
      forall k | 0 <= k < |prev|
        ensures FirstWith(list, level, IdOf(r[k])) == FirstWith(init, level, IdOf(r[k])) < n
      {
        FirstWithKept(list, level, IdOf(prev[k]));
      }
      if |r| > |prev| {
        NewOptionFirstAt(list, level);
      }
    }
  }

  /** Appending a tag adds exactly its id to the ids present. */
  lemma HasIdSnoc(tags: seq<Tag>, t: Tag, id: string)
    ensures HasId(tags + [t], id) <==> HasId(tags, id) || id == IdOf(t)
  {
    var r := tags + [t];
    if HasId(tags, id) {
      var k :| 0 <= k < |tags| && IdOf(tags[k]) == id;
      assert IdOf(r[k]) == id;
    }
    if id == IdOf(t) {
      assert IdOf(r[|tags|]) == id;
    }
  }

  /** `getUniqueFilterOptions(metadataList, key)`: a `seen` set and an
      accumulator filled while scanning the list. */
  method UniqueFilterOptions(list: seq<Entry>, level: Level) returns (acc: seq<Tag>)
    ensures acc == UniqueTags(list, level)
  {
    var seen: set<string> := {};
    acc := [];
    var i := 0;
    while i < |list|
      invariant 0 <= i <= |list|
      invariant acc == UniqueTags(list[..i], level)
      invariant forall id :: id in seen <==> HasId(acc, id)
    {
      assert list[..i + 1][..i] == list[..i];
      var option := TagAt(list[i].metadata, level);
      if option.Some? && option.value.id.Some? && option.value.id.value != "" && IdOf(option.value) !in seen {
        seen := seen + {IdOf(option.value)};
        ghost var before := acc;
        acc := acc + [option.value];
        forall id ensures HasId(acc, id) <==> HasId(before, id) || id == IdOf(option.value) {
          HasIdSnoc(before, option.value, id);
        }
      }
      i := i + 1;
    }
    assert list[..|list|] == list;
  }
}
