/** `updateDependentDropdowns`: category narrows the files that offer
    subjects, the effective subject selection narrows them further for
    chapters, and the effective chapter selection for topics. */
module Cascade {
  import opened Catalog
  import opened Seqs
  import opened FilterOptions
  import opened Dropdowns

  /** The filter callback `item => sel.includes(item.metadata?.[level]?.id)`. */
  function AcceptsAt(sel: seq<string>, level: Level): Entry -> bool
  {
    e => Accepts(sel, e, level)
  }

  /** One narrowing step: the list itself when nothing is selected at the
      level, otherwise the items whose id at the level is selected. */
  function Narrow(list: seq<Entry>, sel: seq<string>, level: Level): seq<Entry>
  {
    if |sel| == 0 then list else Filter(list, AcceptsAt(sel, level))
  }

  /** Narrowing keeps order, keeps exactly the items the selection accepts,
      and changes nothing when the selection is empty. */
  lemma NarrowSpec(list: seq<Entry>, sel: seq<string>, level: Level)
    ensures IsSubseq(Narrow(list, sel, level), list)
    ensures forall e :: e in Narrow(list, sel, level) <==> e in list && Accepts(sel, e, level)
    ensures |sel| == 0 ==> Narrow(list, sel, level) == list
  {
    if |sel| == 0 {
      SubseqRefl(list);
    } else {
      FilterSubseq(list, AcceptsAt(sel, level));
      FilterMembers(list, AcceptsAt(sel, level));
    }
  }

  /** Narrowing is a filter by the per-level test, also when nothing is selected. */
  lemma NarrowIsFilter(list: seq<Entry>, sel: seq<string>, level: Level)
    ensures Narrow(list, sel, level) == Filter(list, AcceptsAt(sel, level))
  {
    if |sel| == 0 {
      FilterKeepsAll(list, AcceptsAt(sel, level));
    }
  }

  /** The candidate lists of the three dependent levels and the option lists
      the three dependent dropdowns end with. */
  datatype Dependents = Dependents(
    forSubjects: seq<Entry>, subjects: seq<OptionEl>,
    forChapters: seq<Entry>, chapters: seq<OptionEl>,
    forTopics: seq<Entry>, topics: seq<OptionEl>)

  /** The reference definition of `updateDependentDropdowns` given the index,
      the category selection and the previous option lists of the dependent
      dropdowns. Each level reads its selection after it was repopulated. */
  function CascadeOf(all: seq<Entry>, categorySel: seq<string>,
                     subjectOld: seq<OptionEl>, chapterOld: seq<OptionEl>,
                     topicOld: seq<OptionEl>): (d: Dependents)
    ensures |d.forTopics| <= |d.forChapters| <= |d.forSubjects| <= |all|
    ensures categorySel == [] ==> d.forSubjects == all
  {
    var forSubjects := Narrow(all, categorySel, Category);
    var subjects := Repopulated(SelectedSet(subjectOld), UniqueTags(forSubjects, Subject));
    var forChapters := Narrow(forSubjects, SelectedValues(subjects), Subject);
    var chapters := Repopulated(SelectedSet(chapterOld), UniqueTags(forChapters, Chapter));
    var forTopics := Narrow(forChapters, SelectedValues(chapters), Chapter);
    var topics := Repopulated(SelectedSet(topicOld), UniqueTags(forTopics, Topic));
    Dependents(forSubjects, subjects, forChapters, chapters, forTopics, topics)
  }

  /** Each level's candidates are a subsequence of the previous level's, and
      an empty (effective) selection leaves the candidates unchanged. */
  lemma CascadeNarrows(all: seq<Entry>, categorySel: seq<string>,
                       subjectOld: seq<OptionEl>, chapterOld: seq<OptionEl>, topicOld: seq<OptionEl>)
    ensures var d := CascadeOf(all, categorySel, subjectOld, chapterOld, topicOld);
      && IsSubseq(d.forSubjects, all)
      && IsSubseq(d.forChapters, d.forSubjects)
      && IsSubseq(d.forTopics, d.forChapters)
      && (categorySel == [] ==> d.forSubjects == all)
      && (SelectedValues(d.subjects) == [] ==> d.forChapters == d.forSubjects)
      && (SelectedValues(d.chapters) == [] ==> d.forTopics == d.forChapters)
  {
    var d := CascadeOf(all, categorySel, subjectOld, chapterOld, topicOld);
    NarrowSpec(all, categorySel, Category);
    NarrowSpec(d.forSubjects, SelectedValues(d.subjects), Subject);
    NarrowSpec(d.forChapters, SelectedValues(d.chapters), Chapter);
  }

  /** A dependent dropdown keeps the previous selection for exactly the ids
      it still offers, in offer order. */
  lemma CascadeKeepsSelection(all: seq<Entry>, categorySel: seq<string>,
                              subjectOld: seq<OptionEl>, chapterOld: seq<OptionEl>, topicOld: seq<OptionEl>)
    ensures var d := CascadeOf(all, categorySel, subjectOld, chapterOld, topicOld);
      && SelectedValues(d.subjects) == Filter(Values(UniqueTags(d.forSubjects, Subject)), InSet(SelectedSet(subjectOld)))
      && SelectedValues(d.chapters) == Filter(Values(UniqueTags(d.forChapters, Chapter)), InSet(SelectedSet(chapterOld)))
      && SelectedValues(d.topics) == Filter(Values(UniqueTags(d.forTopics, Topic)), InSet(SelectedSet(topicOld)))
  {
    var d := CascadeOf(all, categorySel, subjectOld, chapterOld, topicOld);
    RepopulatedSelection(SelectedSet(subjectOld), UniqueTags(d.forSubjects, Subject));
    RepopulatedSelection(SelectedSet(chapterOld), UniqueTags(d.forChapters, Chapter));
    RepopulatedSelection(SelectedSet(topicOld), UniqueTags(d.forTopics, Topic));
  }

  /** The item carries, at `level`, a usable tag with this id. */
  predicate Carries(e: Entry, level: Level, id: string)
  {
    UsableTag(e, level).Some? && IdOf(UsableTag(e, level).value) == id
  }

  /** Some item of `list` carries the id at `level`. */
  predicate OfferedBy(list: seq<Entry>, level: Level, id: string)
  {
    exists e :: e in list && Carries(e, level, id)
  }

  /** Each enabled option of a repopulated dropdown comes from an item of the
      list its tags were derived from. */
  lemma OptionsComeFrom(list: seq<Entry>, level: Level, keep: set<string>, opts: seq<OptionEl>)
    requires opts == Repopulated(keep, UniqueTags(list, level))
    ensures forall i :: 0 <= i < |opts| && !opts[i].disabled ==> OfferedBy(list, level, opts[i].value)
  {
    var tags := UniqueTags(list, level);
    RepopulatedOffers(keep, tags);
    UniqueTagsDrawn(list, level);
    forall i | 0 <= i < |opts| && !opts[i].disabled
      ensures OfferedBy(list, level, opts[i].value)
    {
      assert |tags| > 0;
      var j :| 0 <= j < |list| && UsableTag(list[j], level) == Some(tags[i]);
      assert list[j] in list;
    }
  }

  /** Every offered subject comes from a file that passes the category selection. */
  lemma SubjectsSound(all: seq<Entry>, categorySel: seq<string>,
                      subjectOld: seq<OptionEl>, chapterOld: seq<OptionEl>, topicOld: seq<OptionEl>)
    ensures var d := CascadeOf(all, categorySel, subjectOld, chapterOld, topicOld);
      forall i :: 0 <= i < |d.subjects| && !d.subjects[i].disabled ==>
        exists e :: e in all && Carries(e, Subject, d.subjects[i].value) && Accepts(categorySel, e, Category)
  {
    var d := CascadeOf(all, categorySel, subjectOld, chapterOld, topicOld);
    NarrowSpec(all, categorySel, Category);
    OptionsComeFrom(d.forSubjects, Subject, SelectedSet(subjectOld), d.subjects);
    forall i | 0 <= i < |d.subjects| && !d.subjects[i].disabled
      ensures exists e :: e in all && Carries(e, Subject, d.subjects[i].value) && Accepts(categorySel, e, Category)
    {
      var e :| e in d.forSubjects && Carries(e, Subject, d.subjects[i].value);
      assert e in all && Accepts(categorySel, e, Category);
    }
  }

  /** Every offered chapter comes from a file that passes the category and
      the effective subject selection. */
  lemma ChaptersSound(all: seq<Entry>, categorySel: seq<string>,
                      subjectOld: seq<OptionEl>, chapterOld: seq<OptionEl>, topicOld: seq<OptionEl>)
    ensures var d := CascadeOf(all, categorySel, subjectOld, chapterOld, topicOld);
      var subjectSel := SelectedValues(d.subjects);
      forall i :: 0 <= i < |d.chapters| && !d.chapters[i].disabled ==>
        exists e :: e in all && Carries(e, Chapter, d.chapters[i].value)
          && Accepts(categorySel, e, Category) && Accepts(subjectSel, e, Subject)
  {
    var d := CascadeOf(all, categorySel, subjectOld, chapterOld, topicOld);
    var subjectSel := SelectedValues(d.subjects);
    NarrowSpec(all, categorySel, Category);
    NarrowSpec(d.forSubjects, subjectSel, Subject);
    OptionsComeFrom(d.forChapters, Chapter, SelectedSet(chapterOld), d.chapters);
    forall i | 0 <= i < |d.chapters| && !d.chapters[i].disabled
      ensures exists e ::
                e in all && Carries(e, Chapter, d.chapters[i].value) &&
                Accepts(categorySel, e, Category) && Accepts(subjectSel, e, Subject)
    {
      var e :| e in d.forChapters && Carries(e, Chapter, d.chapters[i].value);
      assert e in d.forSubjects && Accepts(subjectSel, e, Subject);
      assert e in all && Accepts(categorySel, e, Category);
    }
  }

  /** Every offered topic comes from a file that passes the category and the
      effective subject and chapter selections. */
  lemma TopicsSound(all: seq<Entry>, categorySel: seq<string>,
                    subjectOld: seq<OptionEl>, chapterOld: seq<OptionEl>, topicOld: seq<OptionEl>)
    ensures var d := CascadeOf(all, categorySel, subjectOld, chapterOld, topicOld);
      var subjectSel, chapterSel := SelectedValues(d.subjects), SelectedValues(d.chapters);
      forall i :: 0 <= i < |d.topics| && !d.topics[i].disabled ==>
        exists e :: e in all && Carries(e, Topic, d.topics[i].value)
          && Accepts(categorySel, e, Category) && Accepts(subjectSel, e, Subject) && Accepts(chapterSel, e, Chapter)
  {
    var d := CascadeOf(all, categorySel, subjectOld, chapterOld, topicOld);
    var subjectSel, chapterSel := SelectedValues(d.subjects), SelectedValues(d.chapters);
    NarrowSpec(all, categorySel, Category);
    NarrowSpec(d.forSubjects, subjectSel, Subject);
    NarrowSpec(d.forChapters, chapterSel, Chapter);
    OptionsComeFrom(d.forTopics, Topic, SelectedSet(topicOld), d.topics);
    forall i | 0 <= i < |d.topics| && !d.topics[i].disabled
      ensures exists e ::
                e in all && Carries(e, Topic, d.topics[i].value) && Accepts(categorySel, e, Category) &&
                Accepts(subjectSel, e, Subject) && Accepts(chapterSel, e, Chapter)
    {
      var e :| e in d.forTopics && Carries(e, Topic, d.topics[i].value);
      assert e in d.forChapters && Accepts(chapterSel, e, Chapter);
      assert e in d.forSubjects && Accepts(subjectSel, e, Subject);
      assert e in all && Accepts(categorySel, e, Category);
    }
  }

  /** No dependent level offers an id that cannot co-occur with the coarser
      selections: every offered topic (chapter, subject) comes from a file that
      passes the category selection and the effective subject and chapter
      selections (those above it). */
  lemma CascadeSound(all: seq<Entry>, categorySel: seq<string>,
                     subjectOld: seq<OptionEl>, chapterOld: seq<OptionEl>, topicOld: seq<OptionEl>)
    ensures var d := CascadeOf(all, categorySel, subjectOld, chapterOld, topicOld);
      var subjectSel, chapterSel := SelectedValues(d.subjects), SelectedValues(d.chapters);
      && (forall i :: 0 <= i < |d.subjects| && !d.subjects[i].disabled ==>
            exists e :: e in all && Carries(e, Subject, d.subjects[i].value)
              && Accepts(categorySel, e, Category))
      && (forall i :: 0 <= i < |d.chapters| && !d.chapters[i].disabled ==>
            exists e :: e in all && Carries(e, Chapter, d.chapters[i].value)
              && Accepts(categorySel, e, Category) && Accepts(subjectSel, e, Subject))
      && (forall i :: 0 <= i < |d.topics| && !d.topics[i].disabled ==>
            exists e :: e in all && Carries(e, Topic, d.topics[i].value)
              && Accepts(categorySel, e, Category) && Accepts(subjectSel, e, Subject) && Accepts(chapterSel, e, Chapter))
  {
    SubjectsSound(all, categorySel, subjectOld, chapterOld, topicOld);
    ChaptersSound(all, categorySel, subjectOld, chapterOld, topicOld);
    TopicsSound(all, categorySel, subjectOld, chapterOld, topicOld);
  }
}
