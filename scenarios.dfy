/** Small worked cases of the whole flow: two chapter files of one subject,
    a file without metadata, and a wrong answer in quiz mode. */
module Scenarios {
  import opened Catalog
  import opened Seqs
  import opened MetadataIndex
  import opened FilterOptions
  import opened Dropdowns
  import opened Cascade
  import opened Resolver
  import opened Loader
  import opened Quiz

  function Named(id: string): Option<Tag>
  {
    Some(Tag(Some(id), id))
  }

  const FirstMeta := Metadata(Named("bio"), Named("cell"), Named("c1"), Named("t1"))
  const SecondMeta := Metadata(Named("bio"), Named("cell"), Named("c2"), Named("t2"))
  const First := Entry("one.json", FirstMeta)
  const Second := Entry("two.json", SecondMeta)
  const NoFilter := Selection([], [], [], [])

  /** With nothing selected both files match, in configuration order, and
      their questions are concatenated in that order. */
  lemma NothingSelectedLoadsAll(q1: Question, q2: Question)
    ensures MatchingPaths([First, Second], NoFilter) == ["one.json", "two.json"]
    ensures Flatten(Expected(map[], ["one.json", "two.json"],
                             [Received(QuestionDoc(Some([q1]))), Received(QuestionDoc(Some([q2])))])) == [q1, q2]
  {
    assert Filter([First, Second], MatchesSel(NoFilter)) == [First, Second] by {
      FilterKeepsAll([First, Second], MatchesSel(NoFilter));
    }
    var e := Expected(map[], ["one.json", "two.json"],
                      [Received(QuestionDoc(Some([q1]))), Received(QuestionDoc(Some([q2])))]);
    assert e == [[q1], [q2]];
    assert e[1..] == [[q2]];
    assert Flatten(e[1..]) == [q2] + Flatten(e[1..][1..]);
  }

  /** The subject level offers `cell` once, unselected. */
  lemma OneSubject()
    ensures Repopulated({}, UniqueTags([First, Second], Subject)) == [OptionEl("cell", "cell", false, false)]
  {
    assert [First, Second][..1] == [First];
    assert [First][..0] == [];
    assert UniqueTags([First], Subject) == [Tag(Some("cell"), "cell")];
    assert HasId([Tag(Some("cell"), "cell")], "cell") by {
      assert IdOf([Tag(Some("cell"), "cell")][0]) == "cell";
    }
    assert UniqueTags([First, Second], Subject) == [Tag(Some("cell"), "cell")];
  }

  /** The chapter level offers `c1` and `c2`, keeping `c1` selected. */
  lemma TwoChapters(keep: set<string>)
    requires keep == {"c1"}
    ensures Repopulated(keep, UniqueTags([First, Second], Chapter))
            == [OptionEl("c1", "c1", true, false), OptionEl("c2", "c2", false, false)]
  {
    assert [First, Second][..1] == [First];
    assert [First][..0] == [];
    assert UniqueTags([First], Chapter) == [Tag(Some("c1"), "c1")];
    assert !HasId([Tag(Some("c1"), "c1")], "c2");
    var tags := [Tag(Some("c1"), "c1"), Tag(Some("c2"), "c2")];
    assert UniqueTags([First, Second], Chapter) == tags;
    assert tags[1..] == [Tag(Some("c2"), "c2")] && tags[1..][1..] == [];
    assert Element(keep, tags[0]) == OptionEl("c1", "c1", true, false);
    assert Element(keep, tags[1]) == OptionEl("c2", "c2", false, false);
    assert Build(keep, tags[1..]) == [OptionEl("c2", "c2", false, false)];
  }

  /** Selecting chapter `c1` resolves to the first file only. */
  lemma ChapterSelectsFirstFile()
    ensures MatchingPaths([First, Second], Selection([], [], ["c1"], [])) == ["one.json"]
  {
    var s := Selection([], [], ["c1"], []);
    assert [First, Second][1..] == [Second];
    assert !MatchesSel(s)(Second);
    assert Filter([Second], MatchesSel(s)) == [];
    assert MatchesSel(s)(First);
    assert MatchingEntries([First, Second], s) == [First];
  }

  /** Once chapter `c1` is the effective chapter selection, the topic
      level offers `t1` alone. */
  lemma OneTopic()
    ensures Repopulated({}, UniqueTags(Narrow([First, Second], ["c1"], Chapter), Topic))
            == [OptionEl("t1", "t1", false, false)]
  {
    assert [First, Second][1..] == [Second];
    assert Filter([Second], AcceptsAt(["c1"], Chapter)) == [];
    assert Narrow([First, Second], ["c1"], Chapter) == [First];
    assert [First][..0] == [];
    var tags := [Tag(Some("t1"), "t1")];
    assert UniqueTags([First], Topic) == tags;
    assert tags[1..] == [];
    assert Build({}, tags) == [Element({}, tags[0])];
  }

  /** With chapter `c1` kept selected, the topic dropdown offers `t1` alone. */
  lemma ChapterNarrowsTopics()
    ensures CascadeOf([First, Second], [], [],
                      [OptionEl("c1", "c1", true, false), OptionEl("c2", "c2", false, false)], []).topics
            == [OptionEl("t1", "t1", false, false)]
  {
    var all := [First, Second];
    var chapterOld := [OptionEl("c1", "c1", true, false), OptionEl("c2", "c2", false, false)];
    assert chapterOld[1..][1..] == [];
    assert SelectedValues(chapterOld) == ["c1"];
    assert SelectedSet(chapterOld) == {"c1"};
    assert SelectedSet([]) == {};
    OneSubject();
    TwoChapters(SelectedSet(chapterOld));
    OneTopic();
    var subjects := [OptionEl("cell", "cell", false, false)];
    assert SelectedValues(subjects) == [];
    var d := CascadeOf(all, [], [], chapterOld, []);
    assert d.subjects == subjects;
    assert d.forChapters == all;
    assert d.chapters == chapterOld;
  }

  /** A metadata document without a `metadata` key is skipped: the index
      keeps the other file only. */
  lemma MissingMetadataSkipped()
    ensures Index(["bad.json", "one.json"], [Received(MetadataDoc(None)), Received(MetadataDoc(Some(FirstMeta)))])
            == [First]
    ensures Skipped(["bad.json", "one.json"], [Received(MetadataDoc(None)), Received(MetadataDoc(Some(FirstMeta)))]) == 1
  {
    var paths := ["bad.json", "one.json"];
    var responses := [Received(MetadataDoc(None)), Received(MetadataDoc(Some(FirstMeta)))];
    assert paths[1..] == ["one.json"] && responses[1..] == [Received(MetadataDoc(Some(FirstMeta)))];
    assert FetchMetadata(paths[0], responses[0]) == None;
    assert FetchMetadata(paths[1], responses[1]) == Some(First);
    assert Index(paths[1..], responses[1..]) == [First];
    assert Skipped(paths[1..], responses[1..]) == 0;
  }

  /** In quiz mode, a wrong pick on a question whose answer is option 2 marks
      the pick wrong and option 2 correct; the explanation stays collapsed
      behind its now visible toggle. */
  lemma WrongPickRevealsAnswer(q: Question)
    requires |q.options| == 4 && q.correctAnswer == 2
    ensures Click(FreshCards([q], true), [q], true, 0, 0)
            == [Card(true, [SelectedWrong, Plain, RevealedCorrect, Plain], Panel(true, true))]
  {
    var c := FreshCard(q, true);
    assert c.markers == [Plain, Plain, Plain, Plain];
    var a := Answer(c, q, 0);
    assert a.markers == [SelectedWrong, Plain, RevealedCorrect, Plain];
    assert FreshCards([q], true) == [c];
  }
}
