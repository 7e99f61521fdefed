# Question bank filter and quiz engine, in Dafny

`script.js` drives a static question-bank page. At start-up it fetches one
metadata document per configured chapter file and builds an index of
`{path, metadata}` entries. From that index it fills four cascading
multi-select dropdowns: category, subject, chapter and topic. Whenever a
dropdown changes, it recomputes the dependent dropdowns and resolves the
selection to the matching chapter files. It then loads their questions
through a per-path cache, reports loading progress, concatenates the
results and renders them. Rendering is in study mode (correct answer
shown) or quiz mode (click an option to answer, once).

This project models that engine and proves what it promises:

- `Catalog`: the records — tags with an optional id, the four-level
  metadata, index entries, questions — and network responses as values.
- `Seqs`: filtering, subsequences and concatenation of pieces.
- `MetadataIndex`: `fetchMetadata` and the null-filter of the index.
- `FilterOptions`: `getUniqueFilterOptions`. It is a reference definition
  plus the imperative `seen`-set loop, proved equal to it.
- `Dropdowns`: `getSelectedValues` and `populateDropdown`. Each `<select>`
  is a `Dropdown` object whose option list is rebuilt in place.
- `Cascade`: `updateDependentDropdowns` as a reference definition. Its
  narrowing, selection-keeping and soundness are proved.
- `Resolver`: the `matchingFiles` filter of `filterAndDisplayQuestions`.
- `Loader`: the `fetchQuestions` cache, and the merge and progress
  arithmetic of one loading pass.
- `Quiz`: rendered cards, and the answer state machine behind the click
  listener.
- `Application`: the module-level state (`allMetadata`, `allQuestionsCache`,
  `currentlyDisplayedQuestions`, `isQuizMode`, the dropdowns, the rendered
  cards) as the class `App`. Each state-changing function of the script is
  a method proved against the reference definitions above.
- `Scenarios`: worked cases of the whole flow.

### How the outside world is modelled

- `fetch` and `response.json()` become arguments. A request yields `Failed`
  (bad status, network error or unparsable JSON) or `Received(document)`.
  For the metadata batch, the caller supplies one response per configured
  path, in configuration order. For a question pass (`FilterAndDisplay`,
  `LoadMatching`, `HandleFilterChange`) it supplies one response per
  resolved path, in resolution order; the response of a path that hits
  the cache goes unused.
- Asynchrony is modelled by the one fact the code depends on. Every
  `fetchQuestions` call of a pass reaches its synchronous cache check
  before any request settles; the requests then settle in an arbitrary
  completion order, given as a permutation `order`.
- An absent tag id is `None`, which renders as the option value
  `"undefined"`. An empty id is `Some("")`, and only a present, non-empty
  id is usable.
- Each method returns the percentages the pass reports to the progress
  bar, in order.

### Behaviour of the code worth noting

- script.js:260 computes the progress as `10 + Math.round((k / n) * 75)`.
  `Math.round` rounds half up, so the model computes `10 + (150k + n) / 2n`
  in integers.
- script.js:150-153 re-renders the explanation after a quiz answer with its
  text hidden behind a "Show Answer & Explanation" toggle, so the
  explanation stays collapsed (`Scenarios.WrongPickRevealsAnswer`).
- script.js:44 checks only the top-level `metadata` key. A block that lacks
  sub-tags is indexed, and the later reads go through optional chaining.
- In script.js:239-242 an empty selection at a level accepts every file,
  tagged or not. Selecting nothing is therefore the same as selecting
  every present id only when every entry carries an id at that level.
  `Resolver.EmptyMeansAllNeedsIds` exhibits a file that breaks the
  equivalence otherwise.

## Model

| member | source | states |
|---|---|---|
| MetadataIndex.FetchMetadata | script.js:38-53 | the result is an entry exactly when the response arrived and its document has `metadata`; the entry then holds the requested path and that metadata |
| MetadataIndex.Index | script.js:328-329 | the index has no more entries than configured paths, each for a configured path |
| MetadataIndex.IndexMembers | script.js:328-329 | an entry is in the index exactly when some configured path's fetch produced it |
| MetadataIndex.IndexInConfigOrder | script.js:328-329 | the index's paths are a subsequence of the configured paths, so config order is kept |
| MetadataIndex.IndexCount | script.js:328-329 | index length plus the number of skipped files equals the number of configured files |
| FilterOptions.UsableTag | script.js:66-67 | a tag is taken exactly when the item's tag at that level is present with a non-empty id, and it is that tag |
| FilterOptions.UniqueTags | script.js:62-73 | the de-duplicated list is no longer than the input |
| FilterOptions.UniqueTagsDistinct | script.js:62-73 | every option has a usable id and the ids are pairwise distinct |
| FilterOptions.UniqueTagsDrawn | script.js:62-73 | every option is the tag some input item carries at that level |
| FilterOptions.UniqueTagsCover | script.js:62-73 | every usable id occurring in the input is offered |
| FilterOptions.UniqueTagsFirstSeen | script.js:62-73 | each option is the tag of the first item carrying its id |
| FilterOptions.UniqueTagsFirstOrder | script.js:62-73 | options appear in the order of the first occurrences of their ids |
| FilterOptions.UniqueFilterOptions | script.js:62-73 | the `seen`-set scan yields exactly the reference de-duplicated list |
| Dropdowns.SelectedValues | script.js:55-60 | a value is read exactly when some selected option carries it, and no more values than options |
| Dropdowns.RepopulatedOffers | script.js:78-93 | with no tags only the disabled placeholder is shown; otherwise one enabled option per tag, in tag order, with the tag's id as value and name as text |
| Dropdowns.RepopulatedSelection | script.js:77-91 | the selected values afterwards are the new option ids filtered by the old selection, in option order: exactly the old selection intersected with the new ids |
| Dropdowns.Dropdown.Populate | script.js:75-94 | the option list is rebuilt from the tags and the selection read before clearing it |
| Cascade.NarrowSpec | script.js:213-223 | one narrowing step keeps order, keeps exactly the items whose id at the level is selected, and is the identity for an empty selection |
| Cascade.NarrowIsFilter | script.js:213-223 | a narrowing step equals filtering by the per-level test even when nothing is selected |
| Cascade.CascadeOf | script.js:211-226 | the candidate lists shrink from level to level, and with nothing selected in the category the subject candidates are the whole index |
| Cascade.CascadeNarrows | script.js:211-226 | each level's candidates are a subsequence of the previous level's, and an empty effective selection leaves them unchanged |
| Cascade.CascadeKeepsSelection | script.js:211-226 | each dependent dropdown keeps its previous selection for exactly the ids it still offers |
| Cascade.CascadeSound | script.js:211-226 | every enabled subject, chapter and topic option comes from a file that passes the category selection and the effective selections above it |
| Resolver.MatchingPaths | script.js:237-244 | every resolved path belongs to an index entry that passes the four tests, and none is invented |
| Resolver.MatchingSpec | script.js:237-244 | a file matches exactly when at every level the selection is empty or holds its id; the result keeps index order |
| Resolver.MatchingIsNarrowing | script.js:237-244 | resolution equals the four narrowing steps applied in turn |
| Resolver.EmptyMeansAll | script.js:237-244 | when every entry has an id at a level, selecting nothing there resolves the same files as selecting every present id |
| Resolver.EmptyMeansAllNeedsIds | script.js:237-244 | a concrete index in which an untagged file breaks that equivalence |
| Loader.Lookup | script.js:97 | a lookup hits exactly when the path has an entry, a cached `[]` included |
| Loader.FetchOutcome | script.js:96-108 | a hit returns the stored value without a request; a success caches and returns `questions` or `[]`; a failure returns `[]` and leaves the cache; other paths are never altered |
| Loader.FetchTwice | script.js:96-108 | after a hit or a success a second call is a hit with the same value; after a failure it goes to the network again |
| Loader.CompletionCovers | script.js:257-266 | results placed by a completion order fill every position, so `Promise.all` order is the request order |
| Loader.CacheAfterPreserves | script.js:257-264 | a pass never alters an entry cached before it, and adds entries only for its own paths |
| Loader.CacheAfterAt | script.js:257-264 | a path resolved once in the pass and missed at its start is cached afterwards exactly when its request settled successfully, and then holds that request's questions |
| Loader.CacheAfterAny | script.js:257-264 | a path missed at the start of a pass, resolved any number of times, is cached afterwards exactly when some settled request for it succeeded, and then holds the questions of the last such request in completion order |
| Loader.Progress | script.js:260 | the percentage is 10 plus 75k/n rounded half up, and lies in [10, 85] |
| Loader.ProgressMonotone | script.js:259-261 | progress never decreases as more calls settle |
| Loader.ProgressEnds | script.js:260 | progress is 10 before any completion and 85 after the last |
| Loader.ProgressSeries | script.js:254-261 | the reports of a pass lie in [10, 85], never decrease, and the last is 85 once every call has settled |
| Loader.ProgressSeriesSnoc | script.js:259-261 | each completion appends the progress after it to the reports |
| Loader.Expected | script.js:257-266 | a path cached at the start of the pass yields its cached value; a missed path yields the outcome of its request |
| Loader.CacheAfter | script.js:257-266 | a pass removes no cache entry |
| Loader.MissedCalls | script.js:97-107 | the calls that miss, in completion order, are exactly the indices of paths absent from the cache, without repetition |
| Seqs.FlattenLength | script.js:267 | the merged list's length is the sum of the per-path lengths |
| Quiz.FreshCard | script.js:170-196 | a rendered card is unanswered, has one marker per option and a hidden explanation; study mode marks exactly the correct option and shows the toggle; quiz mode marks nothing |
| Quiz.FreshCards | script.js:170-199 | the cards fit the displayed questions; each is unanswered with a hidden explanation, and no option carries a revealed-correct or selected-wrong marker |
| Quiz.Answer | script.js:130-153 | the card becomes answered; a correct pick is marked revealed-correct; a wrong pick is marked selected-wrong and the correct option, if that index exists, revealed-correct; no other option changes; the explanation is hidden behind a visible toggle |
| Quiz.Click | script.js:304-311 | a click is ignored outside quiz mode, away from an option, off the card list or off its options, and on an answered card; otherwise it answers that card only |
| Quiz.AnsweredIsFinal | script.js:304-311 | once a card is answered, no sequence of clicks changes it |
| Quiz.FirstClickDecides | script.js:304-311 | a card's final state is fixed by the first click that reached it |
| Application.App.constructor | script.js:13-17 | the state starts empty, in study mode |
| Application.App.Initialize | script.js:316-338 | an absent or empty path list and an empty index are fatal, each with its error; otherwise the index is built, the category dropdown filled and the dependent dropdowns cascaded; the progress reports are as in the code |
| Application.App.UpdateDependentDropdowns | script.js:211-226 | the dependent dropdowns end as the reference cascade of the index and the category selection; the category dropdown is untouched |
| Application.App.Settle | script.js:99-107 | a settled request returns `questions` or `[]`, and writes the cache on success only |
| Application.App.FetchQuestions | script.js:96-108 | the call behaves as the reference fetch outcome |
| Application.App.FilterAndDisplay | script.js:228-283 | the pass requests exactly the resolved paths missing from the cache, in resolution order. It displays the concatenation of per-path results in resolution order, whatever the completion order, and reports 0, 10, the per-completion progress, 90, 95, 100; an empty match fetches and displays nothing |
| Application.App.EmptyPass | script.js:246-250 | with no matching file the display is emptied and no card rendered |
| Application.App.LoadMatching | script.js:252-277 | the requested paths are those whose cache check missed; the calls that went to the network are exactly the calls for such paths, each once; cache, merged display and reports are those of the pass |
| Application.App.SettleInOrder | script.js:253-266 | the k-th settling call is `order[k]`: its result is that path's outcome, the cache is written as the completion order dictates, the k-th report is the progress after k completions, and the network calls are the misses in completion order |
| Application.App.SettleAll | script.js:253-266 | every call sees the cache as the pass began; the results are the per-path outcomes however the requests settle; the cache ends as the completion order writes it; the calls that went to the network are the calls for missing paths, each call once, and none that hit |
| Application.App.CheckCache | script.js:257-258 | each call's synchronous cache check is the lookup of its path; the requested paths are exactly the resolved paths absent from the cache, in resolution order |
| Application.App.HandleFilterChange | script.js:285-288 | the cascade runs first, and the pass then loads what the recomputed selection matches |
| Application.App.Display | script.js:161-208 | the displayed list is replaced and every card rendered afresh for the current mode |
| Application.App.ToggleMode | script.js:297-300 | the mode is set and the same questions are re-rendered, discarding every answer |
| Application.App.HandleQuizAnswer | script.js:125-159 | the chosen card is answered as the reference answer step says, and no other card changes |
| Application.App.OnClick | script.js:304-311 | the click listener acts as the reference click filter |
| Scenarios.NothingSelectedLoadsAll | script.js:237-267 | with nothing selected both files load, concatenated in config order |
| Scenarios.ChapterSelectsFirstFile | script.js:237-244 | selecting one chapter resolves to that chapter's file only |
| Scenarios.ChapterNarrowsTopics | script.js:211-226 | with that chapter selected the topic dropdown offers only its topic |
| Scenarios.MissingMetadataSkipped | script.js:38-53 | a document without `metadata` is skipped and the index shrinks by one |
| Scenarios.WrongPickRevealsAnswer | script.js:136-153 | a wrong pick on a question whose answer is option 2 marks the pick wrong and option 2 correct, and the explanation stays collapsed |

## Left out

- HTML templating, images and the toggle-button rewiring (script.js:110-123, 161-208): a card is reduced to its answered flag, option markers and explanation panel.
- MathJax typesetting: a call into a foreign library. A rejected typesetting promise (script.js:273-275), which ends the pass in the `catch` at script.js:279-282 without the final 100 report, is not modelled either: `FilterAndDisplay` always reports 90, 95, 100.
- The overlay show/hide timer, the progress-bar style and the progress texts: only the reported percentages are kept.
- The progress formula uses exact rationals. Floating-point rounding of `(k / n) * 75` at a half-way point is not modelled.
- Event wiring (`setupEventListeners`), and races between overlapping passes after quick successive changes: each pass is modelled as running alone.
- Initialize: ends after the first cascade. `setupEventListeners` and the first `filterAndDisplayQuestions` (script.js:340-341) are left to the caller, which runs `FilterAndDisplay` on the resulting state: that pass needs one response per resolved path, a number known only after the cascade.
- The fatal-error message written into the display area, and the `console` logging.
- Guards against missing DOM elements (`if (!selectElement) return` and the like): every element is assumed present.
- The dropdowns are assumed to be `<select multiple>`. A single-select element would have its first option selected by the browser.
- Tag ids are strings. A numeric id in a document would become a string option value and then fail `includes`; that is not modelled.
- A cache key that is a property of every JavaScript object (such as `constructor`) would wrongly hit at script.js:97; the cache is an honest map.
- A `questions` field that is present but not an array is not modelled. Neither is a `correctAnswer` that is not an integer index.
- `handleQuizAnswer`'s `if (!questionData) return` cannot fire in the model: every card belongs to a displayed question.
