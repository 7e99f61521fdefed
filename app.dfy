/** The application's module-level state (`allMetadata`, `allQuestionsCache`,
    `currentlyDisplayedQuestions`, `isQuizMode`, the four filter dropdowns and
    the rendered cards) and the operations that update it. */
module Application {
  import opened Catalog
  import opened Seqs
  import opened MetadataIndex
  import opened FilterOptions
  import opened Dropdowns
  import opened Cascade
  import opened Resolver
  import opened Loader
  import opened Quiz

  /** How `initializeApp` ends. */
  datatype InitResult = Started | InitFailed(error: InitError)

  class App {
    const category: Dropdown
    const subject: Dropdown
    const chapter: Dropdown
    const topic: Dropdown
    var metadata: seq<Entry>
    var cache: Cache
    var displayed: seq<Question>
    var quizMode: bool
    var cards: seq<Card>

    ghost predicate Valid()
      reads this
    {
      && category != subject && category != chapter && category != topic
      && subject != chapter && subject != topic && chapter != topic
      && Fits(cards, displayed)
    }

    constructor ()
      ensures Valid()
      ensures fresh(category) && fresh(subject) && fresh(chapter) && fresh(topic)
      ensures category.options == [] && subject.options == [] && chapter.options == [] && topic.options == []
      ensures metadata == [] && cache == map[] && displayed == [] && !quizMode && cards == []
    {
      category := new Dropdown();
      subject := new Dropdown();
      chapter := new Dropdown();
      topic := new Dropdown();
      metadata := [];
      cache := map[];
      displayed := [];
      quizMode := false;
      cards := [];
    }

    /** The four `getSelectedValues` calls of `filterAndDisplayQuestions`. */
    function CurrentSelection(): Selection
      reads category, subject, chapter, topic
    {
      Selection(category.Selected(), subject.Selected(), chapter.Selected(), topic.Selected())
    }

    /** The selection the four dropdowns will show once the dependent ones
        are recomputed from the current state. */
    function CascadedSelection(): Selection
      reads this, category, subject, chapter, topic
    {
      var d := CascadeOf(metadata, category.Selected(), subject.options, chapter.options, topic.options);
      Selection(category.Selected(), SelectedValues(d.subjects), SelectedValues(d.chapters), SelectedValues(d.topics))
    }

    /** `initializeApp` up to and including the first cascade: the fatal
        configuration checks, the metadata index, and the category dropdown
        followed by the dependent ones. `responses[i]` is what the metadata
        request for the i-th configured path yields. */
    method Initialize(config: Option<seq<string>>, responses: seq<Response<MetadataDoc>>)
      returns (result: InitResult, reports: seq<int>)
      requires Valid()
      requires config.Some? ==> |responses| == |config.value|
      modifies this, category, subject, chapter, topic
      ensures Valid()
      ensures cache == old(cache) && displayed == old(displayed) && quizMode == old(quizMode) && cards == old(cards)
      ensures config.None? ==> result == InitFailed(MissingConfig) && reports == [10]
      ensures config == Some([]) ==> result == InitFailed(EmptyConfig) && reports == [10]
      ensures (config.None? || config == Some([])) ==>
        metadata == old(metadata) && unchanged(category, subject, chapter, topic)
      ensures config.Some? && config.value != [] ==> metadata == Index(config.value, responses)
      ensures config.Some? && config.value != [] && metadata == [] ==>
        result == InitFailed(NoMetadata) && reports == [10, 25] && unchanged(category, subject, chapter, topic)
      ensures config.Some? && config.value != [] && metadata != [] ==>
        && result == Started && reports == [10, 25, 50]
        && category.options == Repopulated(SelectedSet(old(category.options)), UniqueTags(metadata, Category))
        && var d := CascadeOf(metadata, category.Selected(), old(subject.options), old(chapter.options), old(topic.options));
           subject.options == d.subjects && chapter.options == d.chapters && topic.options == d.topics
    {
      reports := [10];
      if config.None? {
        return InitFailed(MissingConfig), reports;
      }
      var chapterFiles := config.value;
      if |chapterFiles| == 0 {
        return InitFailed(EmptyConfig), reports;
      }
      reports := reports + [25];
      metadata := Index(chapterFiles, responses);
      if |metadata| == 0 {
        return InitFailed(NoMetadata), reports;
      }
      reports := reports + [50];
      var allCategories := UniqueFilterOptions(metadata, Category);
      category.Populate(allCategories);
      UpdateDependentDropdowns();
      result := Started;
    }

    /** `updateDependentDropdowns`: the category dropdown is read, never
        repopulated; each dependent dropdown is repopulated from the items the
        coarser levels' effective selections leave. */
    method UpdateDependentDropdowns()
      requires Valid()
      modifies subject, chapter, topic
      ensures var d := CascadeOf(metadata, category.Selected(), old(subject.options), old(chapter.options), old(topic.options));
        subject.options == d.subjects && chapter.options == d.chapters && topic.options == d.topics
    {
      var selectedCategories := category.Selected();
      var forSubjects := Narrow(metadata, selectedCategories, Category);
      var subjects := UniqueFilterOptions(forSubjects, Subject);
      subject.Populate(subjects);

      var selectedSubjects := subject.Selected();
      var forChapters := Narrow(forSubjects, selectedSubjects, Subject);
      var chapters := UniqueFilterOptions(forChapters, Chapter);
      chapter.Populate(chapters);

      var selectedChapters := chapter.Selected();
      var forTopics := Narrow(forChapters, selectedChapters, Chapter);
      var topics := UniqueFilterOptions(forTopics, Topic);
      topic.Populate(topics);
    }

    /** The part of `fetchQuestions` after the request settles: a success is
        cached and returned, a failure returns `[]` and caches nothing. */
    method Settle(path: string, response: Response<QuestionDoc>) returns (questions: seq<Question>)
      modifies this`cache
      ensures questions == Settled(response) && cache == Stored(old(cache), path, response)
    {
      match response
      case Failed =>
        questions := [];
      case Received(data) =>
        cache := cache[path := QuestionsOf(data)];
        questions := QuestionsOf(data);
    }

    /** `fetchQuestions(path)` called on its own; `requested` says whether it
        went to the network. */
    method FetchQuestions(path: string, response: Response<QuestionDoc>)
      returns (questions: seq<Question>, requested: bool)
      modifies this`cache
      ensures Fetch(questions, requested, cache) == FetchOutcome(old(cache), path, response)
    {
      var hit := Lookup(cache, path);
      if hit.Some? {
        return hit.value, false;
      }
      questions := Settle(path, response);
      requested := true;
    }

    /** `filterAndDisplayQuestions`. All calls check the cache first, then the
        requests settle in `order`; `responses[i]` is what the request for the
        i-th matching path yields. `requested` lists the paths sent to the
        network and `reports` the progress percentages, in order. */
    method FilterAndDisplay(responses: seq<Response<QuestionDoc>>, order: seq<nat>)
      returns (requested: seq<string>, reports: seq<int>)
      requires Valid()
      requires |responses| == |MatchingPaths(metadata, CurrentSelection())|
      requires IsCompletionOrder(order, |responses|)
      modifies this`cache, this`displayed, this`cards
      ensures Valid()
      ensures var paths := MatchingPaths(metadata, CurrentSelection());
        && requested == Misses(paths, old(cache))
        && displayed == Flatten(Expected(old(cache), paths, responses))
        && cache == CacheAfter(old(cache), paths, responses, order)
        && cards == FreshCards(displayed, quizMode)
      ensures MatchingPaths(metadata, CurrentSelection()) == [] ==>
        reports == [0] && requested == [] && displayed == [] && cache == old(cache)
      ensures var n := |MatchingPaths(metadata, CurrentSelection())|;
        n > 0 ==> reports == [0, 10] + ProgressSeries(n, n) + [90, 95, 100]
    {
      reports := [0];
      var matchingFiles := MatchingPaths(metadata, CurrentSelection());
      if |matchingFiles| == 0 {
        EmptyPass();
        requested := [];
        assert Expected(old(cache), [], responses) == [];
        assert MatchingPaths(metadata, CurrentSelection()) == matchingFiles;
        return;
      }
      var loaded;
      ghost var network;
      requested, loaded, network := LoadMatching(matchingFiles, responses, order);
      reports := reports + loaded;
      PrefixRegroup(0, 10, ProgressSeries(|matchingFiles|, |matchingFiles|), [90, 95, 100]);
      assert MatchingPaths(metadata, CurrentSelection()) == matchingFiles;
    }

    /** The empty branch of `filterAndDisplayQuestions`: nothing is fetched
        and nothing is displayed. */
    method EmptyPass()
      requires Valid()
      modifies this`displayed, this`cards
      ensures Valid()
      ensures displayed == [] && cards == FreshCards(displayed, quizMode)
    {
      Display([]);
    }

    /** The non-empty branch of `filterAndDisplayQuestions` for the resolved
        `paths`: the `map` phase checks the cache and issues the requests for
        the misses, then the requests settle, and the merged list is displayed.
        `network` lists the calls, by index, that took their result from the
        network; `requested` names exactly those calls' paths. */
    method LoadMatching(paths: seq<string>, responses: seq<Response<QuestionDoc>>, order: seq<nat>)
      returns (requested: seq<string>, reports: seq<int>, ghost network: seq<nat>)
      requires Valid()
      requires 0 < |paths| && |responses| == |paths| && IsCompletionOrder(order, |paths|)
      modifies this`cache, this`displayed, this`cards
      ensures Valid()
      ensures requested == Misses(paths, old(cache))
      ensures forall j :: 0 <= j < |paths| ==> (j in network <==> paths[j] !in old(cache))
      ensures forall j :: 0 <= j < |paths| && j in network ==> paths[j] in requested
      ensures (forall j :: j in network ==> j < |paths|) && Distinct(network)
      ensures displayed == Flatten(Expected(old(cache), paths, responses))
      ensures cache == CacheAfter(old(cache), paths, responses, order)
      ensures cards == FreshCards(displayed, quizMode)
      ensures reports == [10] + ProgressSeries(|paths|, |paths|) + [90, 95, 100]
    {
      reports := [10];
      var lookups;
      lookups, requested := CheckCache(paths);
      var results, progress;
      results, progress, network := SettleAll(paths, lookups, responses, order);
      reports := reports + progress;
      var allMatchingQuestions := Flatten(results);
      reports := reports + [90];
      Display(allMatchingQuestions);
      reports := reports + [95, 100];
    }

    /** The synchronous part of `matchingFiles.map(path => fetchQuestions(path))`:
        each call checks the cache, and a miss issues its request, in path
        order. Nothing changes yet. */
    method CheckCache(paths: seq<string>) returns (lookups: seq<Option<seq<Question>>>, requested: seq<string>)
      ensures |lookups| == |paths| && forall i :: 0 <= i < |paths| ==> lookups[i] == Lookup(cache, paths[i])
      ensures requested == Misses(paths, cache)
      ensures IsSubseq(requested, paths)
      ensures forall p :: p in requested <==> p in paths && p !in cache
    {
      lookups, requested := [], [];
      var i := 0;
      while i < |paths|
        invariant 0 <= i <= |paths|
        invariant |lookups| == i && forall j :: 0 <= j < i ==> lookups[j] == Lookup(cache, paths[j])
        invariant requested == Misses(paths[..i], cache)
      {
        var hit := Lookup(cache, paths[i]);
        lookups := lookups + [hit];
        if hit.None? {
          requested := requested + [paths[i]];
        }
        TakeSnoc(paths, i);
        FilterSnoc(paths[..i], paths[i], NotCached(cache));
        i := i + 1;
      }
      assert paths[..|paths|] == paths;
      FilterSubseq(paths, NotCached(cache));
      FilterMembers(paths, NotCached(cache));
    }

    /** `handleFilterChange`, the listener of all four dropdowns: the
        dependent dropdowns are recomputed, then a pass loads what the
        resulting selection matches. */
    method HandleFilterChange(responses: seq<Response<QuestionDoc>>, order: seq<nat>)
      returns (requested: seq<string>, reports: seq<int>)
      requires Valid()
      requires |responses| == |MatchingPaths(metadata, CascadedSelection())|
      requires IsCompletionOrder(order, |responses|)
      modifies this`cache, this`displayed, this`cards, subject, chapter, topic
      ensures Valid()
      ensures var d := CascadeOf(metadata, category.Selected(), old(subject.options), old(chapter.options), old(topic.options));
        subject.options == d.subjects && chapter.options == d.chapters && topic.options == d.topics
      ensures CurrentSelection() == old(CascadedSelection())
      ensures var paths := MatchingPaths(metadata, CurrentSelection());
        && requested == Misses(paths, old(cache))
        && displayed == Flatten(Expected(old(cache), paths, responses))
        && cache == CacheAfter(old(cache), paths, responses, order)
        && cards == FreshCards(displayed, quizMode)
    {
      UpdateDependentDropdowns();
      requested, reports := FilterAndDisplay(responses, order);
    }

    /** The asynchronous part of a pass: the requests issued for the misses
        in `lookups` settle in `order`, each completion reporting progress.
        Every call sees the cache as the pass began. `network` lists, in
        completion order, the calls that took their result from the network:
        each call that missed, once, and no call that hit. */
    method SettleAll(paths: seq<string>, lookups: seq<Option<seq<Question>>>,
                     responses: seq<Response<QuestionDoc>>, order: seq<nat>)
      returns (results: seq<seq<Question>>, reports: seq<int>, ghost network: seq<nat>)
      requires 0 < |paths| && |responses| == |paths| && IsCompletionOrder(order, |paths|)
      requires |lookups| == |paths| && forall i :: 0 <= i < |paths| ==> lookups[i] == Lookup(cache, paths[i])
      modifies this`cache
      ensures results == Expected(old(cache), paths, responses)
      ensures cache == CacheAfter(old(cache), paths, responses, order)
      ensures reports == ProgressSeries(|paths|, |paths|)
      ensures forall j :: j in network ==> j < |paths|
      ensures forall j :: 0 <= j < |paths| ==> (j in network <==> paths[j] !in old(cache))
      ensures Distinct(network)
    {
      ghost var c0 := cache;
      results, reports, network := SettleInOrder(paths, lookups, responses, order);
      CompletionCovers(results, Expected(c0, paths, responses), order);
      MissedCalls(c0, paths, lookups, order);
    }

    /** The completion loop: the k-th settling call is `order[k]`; a hit
        yields its cached value, a miss settles its request. */
    method SettleInOrder(paths: seq<string>, lookups: seq<Option<seq<Question>>>,
                         responses: seq<Response<QuestionDoc>>, order: seq<nat>)
      returns (results: seq<seq<Question>>, reports: seq<int>, ghost network: seq<nat>)
      requires 0 < |paths| && |responses| == |paths| && IsCompletionOrder(order, |paths|)
      requires |lookups| == |paths| && forall i :: 0 <= i < |paths| ==> lookups[i] == Lookup(cache, paths[i])
      modifies this`cache
      ensures |results| == |paths|
      ensures forall k :: 0 <= k < |order| ==> results[order[k]] == Expected(old(cache), paths, responses)[order[k]]
      ensures cache == CacheAfter(old(cache), paths, responses, order)
      ensures reports == ProgressSeries(|paths|, |paths|)
      ensures network == Filter<int>(order, MissAt(lookups))
    {
      var totalFiles := |paths|;
      ghost var c0 := cache;
      ghost var expected := Expected(c0, paths, responses);
      results := seq(totalFiles, _ => []);
      reports := [];
      network := [];
      var filesProcessed := 0;
      while filesProcessed < totalFiles
        invariant 0 <= filesProcessed <= totalFiles
        invariant |results| == totalFiles
        invariant forall k :: 0 <= k < filesProcessed ==> results[order[k]] == expected[order[k]]
        invariant cache == CacheAfter(c0, paths, responses, order[..filesProcessed])
        invariant reports == ProgressSeries(filesProcessed, totalFiles)
        invariant network == Filter<int>(order[..filesProcessed], MissAt(lookups))
      {
        var i := order[filesProcessed];
        var result;
        if lookups[i].Some? {
          result := lookups[i].value;
        } else {
          result := Settle(paths[i], responses[i]);
          network := network + [i];
        }
        TakeSnoc(order, filesProcessed);
        FilterSnoc<int>(order[..filesProcessed], i, MissAt(lookups));
        ProgressSeriesSnoc(filesProcessed, totalFiles);
        results := results[i := result];
        filesProcessed := filesProcessed + 1;
        reports := reports + [Progress(filesProcessed, totalFiles)];
      }
      assert order[..totalFiles] == order;
    }

    /** `displayQuestions`: the displayed list is replaced and every card is
        rendered afresh for the current mode. */
    method Display(questions: seq<Question>)
      requires Valid()
      modifies this`displayed, this`cards
      ensures Valid()
      ensures displayed == questions && cards == FreshCards(questions, quizMode)
    {
      displayed := questions;
      cards := FreshCards(questions, quizMode);
    }

    /** The mode toggle's listener: the mode is set and the same questions
        are displayed again, which discards every answer. */
    method ToggleMode(checked: bool)
      requires Valid()
      modifies this`quizMode, this`displayed, this`cards
      ensures Valid()
      ensures quizMode == checked && displayed == old(displayed) && cards == FreshCards(displayed, checked)
    {
      quizMode := checked;
      Display(displayed);
    }

    /** `handleQuizAnswer` on option `oi` of card `qi`. */
    method HandleQuizAnswer(qi: nat, oi: nat)
      requires Valid() && qi < |cards| && oi < |cards[qi].markers|
      modifies this`cards
      ensures Valid()
      ensures cards == old(cards)[qi := Answer(old(cards)[qi], displayed[qi], oi)]
    {
      var questionData := displayed[qi];
      var correctOptionIndex := questionData.correctAnswer;
      var markers := cards[qi].markers;
      if oi == correctOptionIndex {
        markers := markers[oi := RevealedCorrect];
      } else {
        markers := markers[oi := SelectedWrong];
        if 0 <= correctOptionIndex < |markers| {
          markers := markers[correctOptionIndex := RevealedCorrect];
        }
      }
      cards := cards[qi := Card(true, markers, Panel(true, true))];
    }

    /** The display area's click listener, for a click on option `oi` of card
        `qi` (an index outside the card stands for a click elsewhere). */
    method OnClick(qi: int, oi: int)
      requires Valid()
      modifies this`cards
      ensures Valid()
      ensures cards == Click(old(cards), displayed, quizMode, qi, oi)
    {
      if !quizMode {
        return;
      }
      if 0 <= qi < |cards| && 0 <= oi < |cards[qi].markers| && !cards[qi].answered {
        HandleQuizAnswer(qi, oi);
      }
    }
  }
}
