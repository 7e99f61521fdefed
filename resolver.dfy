/** The file filter of `filterAndDisplayQuestions`: which index entries the
    current four-level selection resolves to. */
module Resolver {
  import opened Catalog
  import opened Seqs
  import opened Cascade

  /** The selected ids of the four dropdowns, each as `getSelectedValues` reads it. */
  datatype Selection = Selection(category: seq<string>, subject: seq<string>,
                                 chapter: seq<string>, topic: seq<string>)

  function SelectedAt(s: Selection, level: Level): seq<string>
  {
    match level
    case Category => s.category
    case Subject => s.subject
    case Chapter => s.chapter
    case Topic => s.topic
  }

  /** The same selection with one level replaced. */
  function WithLevel(s: Selection, level: Level, ids: seq<string>): (r: Selection)
    ensures SelectedAt(r, level) == ids
    ensures forall l :: l != level ==> SelectedAt(r, l) == SelectedAt(s, l)
  {
    match level
    case Category => s.(category := ids)
    case Subject => s.(subject := ids)
    case Chapter => s.(chapter := ids)
    case Topic => s.(topic := ids)
  }

  /** The four per-level tests, ANDed. */
  predicate Matches(s: Selection, e: Entry)
  {
    Accepts(s.category, e, Category) && Accepts(s.subject, e, Subject) &&
    Accepts(s.chapter, e, Chapter) && Accepts(s.topic, e, Topic)
  }

  function MatchesSel(s: Selection): Entry -> bool
  {
    e => Matches(s, e)
  }

  /** `allMetadata.filter(item => categoryMatch && ... && topicMatch)` */
  function MatchingEntries(all: seq<Entry>, s: Selection): seq<Entry>
  {
    Filter(all, MatchesSel(s))
  }

  /** `matchingFiles`: the paths of the matching entries. */
  function MatchingPaths(all: seq<Entry>, s: Selection): (r: seq<string>)
    ensures |r| <= |all|
    ensures forall i :: 0 <= i < |r| ==> exists j :: 0 <= j < |all| && all[j].path == r[i] && Matches(s, all[j])
  {
    var es := MatchingEntries(all, s);
    FilterMembers(all, MatchesSel(s));
    assert forall i :: 0 <= i < |es| ==> es[i] in all && Matches(s, es[i]) by {
      forall i | 0 <= i < |es| ensures es[i] in all && Matches(s, es[i]) {
        assert es[i] in es;
      }
    }
    Paths(es)
  }

  /** An entry is resolved iff at each of the four levels the selection is
      empty or contains the entry's id; the result keeps index order. */
  lemma MatchingSpec(all: seq<Entry>, s: Selection)
    ensures forall e :: e in MatchingEntries(all, s) <==>
      e in all && forall level :: Accepts(SelectedAt(s, level), e, level)
    ensures IsSubseq(MatchingEntries(all, s), all)
  {
    FilterMembers(all, MatchesSel(s));
    FilterSubseq(all, MatchesSel(s));
    forall e ensures Matches(s, e) <==> forall level :: Accepts(SelectedAt(s, level), e, level) {
      if Matches(s, e) {
        forall level ensures Accepts(SelectedAt(s, level), e, level) {
          match level
          case Category =>
          case Subject =>
          case Chapter =>
          case Topic =>
        }
      } else {
        assert !Accepts(SelectedAt(s, Category), e, Category) || !Accepts(SelectedAt(s, Subject), e, Subject) ||
               !Accepts(SelectedAt(s, Chapter), e, Chapter) || !Accepts(SelectedAt(s, Topic), e, Topic);
      }
    }
  }

  /** The resolver agrees with narrowing level by level, as the cascade does. */
  lemma MatchingIsNarrowing(all: seq<Entry>, s: Selection)
    ensures MatchingEntries(all, s) ==
      Narrow(Narrow(Narrow(Narrow(all, s.category, Category), s.subject, Subject), s.chapter, Chapter), s.topic, Topic)
  {
    var s1 := Selection(s.category, [], [], []);
    var s2 := Selection(s.category, s.subject, [], []);
    var s3 := Selection(s.category, s.subject, s.chapter, []);
    var n1 := Narrow(all, s.category, Category);
    var n2 := Narrow(n1, s.subject, Subject);
    var n3 := Narrow(n2, s.chapter, Chapter);
    NarrowIsFilter(all, s.category, Category);
    NarrowIsFilter(n1, s.subject, Subject);
    NarrowIsFilter(n2, s.chapter, Chapter);
    NarrowIsFilter(n3, s.topic, Topic);
    FilterSamePredicate(all, AcceptsAt(s.category, Category), MatchesSel(s1));
    FilterFilter(all, MatchesSel(s1), AcceptsAt(s.subject, Subject), MatchesSel(s2));
    FilterFilter(all, MatchesSel(s2), AcceptsAt(s.chapter, Chapter), MatchesSel(s3));
    FilterFilter(all, MatchesSel(s3), AcceptsAt(s.topic, Topic), MatchesSel(s));
  }

  /** Every id present at a level, in index order. */
  function PresentIds(all: seq<Entry>, level: Level): seq<string>
  {
    if all == [] then []
    else (if IdAt(all[0], level).Some? then [IdAt(all[0], level).value] else []) + PresentIds(all[1..], level)
  }

  lemma {:induction false} PresentIdsHas(all: seq<Entry>, level: Level)
    ensures forall e :: e in all && IdAt(e, level).Some? ==> IdAt(e, level).value in PresentIds(all, level)
  {
    if all != [] {
      PresentIdsHas(all[1..], level);
    }
  }

  /** Selecting nothing at a level resolves to the same files as selecting
      every id present at that level, provided every entry carries an id at
      that level. */
  lemma EmptyMeansAll(all: seq<Entry>, s: Selection, level: Level)
    requires forall i :: 0 <= i < |all| ==> IdAt(all[i], level).Some?
    ensures MatchingEntries(all, WithLevel(s, level, [])) ==
            MatchingEntries(all, WithLevel(s, level, PresentIds(all, level)))
  {
    var s0, s1 := WithLevel(s, level, []), WithLevel(s, level, PresentIds(all, level));
    PresentIdsHas(all, level);
    forall i | 0 <= i < |all| ensures MatchesSel(s0)(all[i]) == MatchesSel(s1)(all[i]) {
      var e := all[i];
      assert e in all;
      assert Accepts(SelectedAt(s0, level), e, level) && Accepts(SelectedAt(s1, level), e, level);
      forall l ensures Accepts(SelectedAt(s0, l), e, l) == Accepts(SelectedAt(s1, l), e, l) {
      }
      assert Matches(s0, e) == (forall l :: Accepts(SelectedAt(s0, l), e, l)) by {
        assert s0.category == SelectedAt(s0, Category) && s0.subject == SelectedAt(s0, Subject);
        assert s0.chapter == SelectedAt(s0, Chapter) && s0.topic == SelectedAt(s0, Topic);
      }
      assert Matches(s1, e) == (forall l :: Accepts(SelectedAt(s1, l), e, l)) by {
        assert s1.category == SelectedAt(s1, Category) && s1.subject == SelectedAt(s1, Subject);
        assert s1.chapter == SelectedAt(s1, Chapter) && s1.topic == SelectedAt(s1, Topic);
      }
    }
    FilterSamePredicate(all, MatchesSel(s0), MatchesSel(s1));
  }

  /** Without the proviso the equivalence fails: a file lacking a subject tag
      is resolved when no subject is selected, but not when every present
      subject id is. */
  lemma EmptyMeansAllNeedsIds()
    ensures var tagged := Entry("a.json", Metadata(None, Some(Tag(Some("cell"), "Cell")), None, None));
      var untagged := Entry("b.json", Metadata(None, None, None, None));
      var all, s := [tagged, untagged], Selection([], [], [], []);
      && PresentIds(all, Subject) == ["cell"]
      && MatchingPaths(all, WithLevel(s, Subject, [])) == ["a.json", "b.json"]
      && MatchingPaths(all, WithLevel(s, Subject, PresentIds(all, Subject))) == ["a.json"]
  {
    var tagged := Entry("a.json", Metadata(None, Some(Tag(Some("cell"), "Cell")), None, None));
    var untagged := Entry("b.json", Metadata(None, None, None, None));
    var all, s := [tagged, untagged], Selection([], [], [], []);
    assert PresentIds(all, Subject) == ["cell"] by {
      assert all[1..] == [untagged];
      assert PresentIds([untagged], Subject) == [];
    }
    var s0, s1 := WithLevel(s, Subject, []), WithLevel(s, Subject, ["cell"]);
    assert Matches(s0, tagged) && Matches(s0, untagged);
    assert Matches(s1, tagged) && !Matches(s1, untagged);
    assert all[1..] == [untagged] && [untagged][1..] == [];
    assert Filter([untagged], MatchesSel(s0)) == [untagged];
    assert MatchingEntries(all, s0) == [tagged, untagged];
    assert Filter([untagged], MatchesSel(s1)) == [];
    assert MatchingEntries(all, s1) == [tagged];
  }
}
