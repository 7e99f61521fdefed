/** `fetchQuestions` and the merge-and-progress part of
    `filterAndDisplayQuestions`, as values: the cache is a map from path to
    the questions stored for it. */
module Loader {
  import opened Catalog
  import opened Seqs

  type Cache = map<string, seq<Question>>

  /** `data.questions || []` */
  function QuestionsOf(d: QuestionDoc): seq<Question>
  {
    match d.questions
    case Some(qs) => qs
    case None => []
  }

  /** What a request that missed the cache resolves to: the questions on
      success, `[]` when the fetch fails. */
  function Settled(r: Response<QuestionDoc>): seq<Question>
  {
    match r
    case Failed => []
    case Received(d) => QuestionsOf(d)
  }

  /** The cache after such a request settles: written on success only. */
  function Stored(c: Cache, path: string, r: Response<QuestionDoc>): Cache
  {
    match r
    case Failed => c
    case Received(d) => c[path := QuestionsOf(d)]
  }

  /** The synchronous check `if (allQuestionsCache[path])`: any stored
      entry, even `[]`, counts as a hit. */
  function Lookup(c: Cache, path: string): (r: Option<seq<Question>>)
    ensures r.Some? <==> path in c
  {
    if path in c then Some(c[path]) else None
  }

  /** The result of one `fetchQuestions(path)` call, whether it issued a
      network request, and the cache it leaves. */
  datatype Fetch = Fetch(questions: seq<Question>, requested: bool, cache: Cache)

  /** `fetchQuestions(path)` on its own, `r` being what the network would
      answer. A cached entry, even `[]`, is a hit. */
  function FetchOutcome(c: Cache, path: string, r: Response<QuestionDoc>): (f: Fetch)
    ensures f.requested <==> path !in c
    ensures path in c ==> f.questions == c[path] && f.cache == c
    ensures path !in c && r.Received? ==>
      f.questions == QuestionsOf(r.body) && f.cache == c[path := f.questions]
    ensures path !in c && r.Failed? ==> f.questions == [] && f.cache == c
    ensures forall p :: p != path ==> (p in f.cache <==> p in c) && (p in c ==> f.cache[p] == c[p])
  {
    match Lookup(c, path)
    case Some(qs) => Fetch(qs, false, c)
    case None => Fetch(Settled(r), true, Stored(c, path, r))
  }

  /** Fetching a path twice: after a success (or a hit) the second call is a
      hit returning the same questions; after a failure it asks again. */
  lemma FetchTwice(c: Cache, path: string, r1: Response<QuestionDoc>, r2: Response<QuestionDoc>)
    ensures var f1 := FetchOutcome(c, path, r1);
      var f2 := FetchOutcome(f1.cache, path, r2);
      && ((path in c || r1.Received?) ==> !f2.requested && f2.questions == f1.questions && f2.cache == f1.cache)
      && ((path !in c && r1.Failed?) ==> f2.requested)
  {
  }

  function NotCached(c: Cache): string -> bool
  {
    p => p !in c
  }

  /** The paths a pass requests from the network, in request order. */
  function Misses(paths: seq<string>, c: Cache): seq<string>
  {
    Filter(paths, NotCached(c))
  }

  /** What the call for `paths[i]` resolves to within one pass. Every call
      checks the cache before any request settles, so all of them see the
      cache as it stood when the pass began. */
  function Expected(c0: Cache, paths: seq<string>, responses: seq<Response<QuestionDoc>>): (r: seq<seq<Question>>)
    requires |responses| == |paths|
    ensures |r| == |paths|
    ensures forall i :: 0 <= i < |paths| && paths[i] in c0 ==> r[i] == c0[paths[i]]
    ensures forall i :: 0 <= i < |paths| && paths[i] !in c0 ==> r[i] == Settled(responses[i])
  {
    seq(|paths|, i requires 0 <= i < |paths| =>
      match Lookup(c0, paths[i])
      case Some(qs) => qs
      case None => Settled(responses[i]))
  }

  /** The order in which the `n` issued calls settle: each exactly once. */
  predicate IsCompletionOrder(order: seq<nat>, n: nat)
  {
    && |order| == n
    && (forall k :: 0 <= k < n ==> order[k] < n)
    && (forall k1, k2 :: 0 <= k1 < k2 < n ==> order[k1] != order[k2])
    && (forall i :: 0 <= i < n ==> i in order)
  }

  /** Results filled in along a completion order cover every position. */
  lemma CompletionCovers<T>(results: seq<T>, expected: seq<T>, order: seq<nat>)
    requires |results| == |expected| && IsCompletionOrder(order, |expected|)
    requires forall k :: 0 <= k < |order| ==> results[order[k]] == expected[order[k]]
    ensures results == expected
  {
    forall j | 0 <= j < |expected| ensures results[j] == expected[j] {
      assert j in order;
      var k :| 0 <= k < |order| && order[k] == j;
    }
  }

  /** The calls, by index, whose cache check missed. */
  function MissAt(lookups: seq<Option<seq<Question>>>): int -> bool
  {
    j => 0 <= j < |lookups| && lookups[j].None?
  }

  /** Taken along a completion order, the calls that missed are exactly the
      calls whose path was not cached, each once. */
  lemma MissedCalls(c: Cache, paths: seq<string>, lookups: seq<Option<seq<Question>>>, order: seq<nat>)
    requires IsCompletionOrder(order, |paths|)
    requires |lookups| == |paths| && forall i :: 0 <= i < |paths| ==> lookups[i] == Lookup(c, paths[i])
    ensures forall j :: j in Filter<int>(order, MissAt(lookups)) ==> j < |paths|
    ensures forall j :: 0 <= j < |paths| ==> (j in Filter<int>(order, MissAt(lookups)) <==> paths[j] !in c)
    ensures Distinct(Filter<int>(order, MissAt(lookups)))
  {
    FilterMembers<int>(order, MissAt(lookups));
    assert Distinct<int>(order);
    FilterDistinct<int>(order, MissAt(lookups));
  }

  /** The cache after the calls `done` (indices into `paths`, in completion
      order) have settled: each that missed at the start writes on success. */
  function CacheAfter(c0: Cache, paths: seq<string>, responses: seq<Response<QuestionDoc>>, done: seq<nat>): (c: Cache)
    requires |responses| == |paths|
    requires forall k :: 0 <= k < |done| ==> done[k] < |paths|
    ensures c0.Keys <= c.Keys
    decreases |done|
  {
    if done == [] then c0
    else
      var c := CacheAfter(c0, paths, responses, done[..|done| - 1]);
      var i := done[|done| - 1];
      if paths[i] in c0 then c else Stored(c, paths[i], responses[i])
  }

  /** A pass never alters an entry that was already cached, and adds entries
      only for requested paths. */
  lemma {:induction false} CacheAfterPreserves(c0: Cache, paths: seq<string>,
                                               responses: seq<Response<QuestionDoc>>, done: seq<nat>)
    requires |responses| == |paths|
    requires forall k :: 0 <= k < |done| ==> done[k] < |paths|
    ensures forall p :: p in c0 ==> p in CacheAfter(c0, paths, responses, done) &&
                                     CacheAfter(c0, paths, responses, done)[p] == c0[p]
    ensures forall p :: p in CacheAfter(c0, paths, responses, done) ==> p in c0 || p in paths
    decreases |done|
  {
    if done != [] {
      CacheAfterPreserves(c0, paths, responses, done[..|done| - 1]);
    }
  }

  /** A path requested once in the pass is cached afterwards exactly when its
      request has settled successfully, and then holds that request's questions. */
  lemma {:induction false} CacheAfterAt(c0: Cache, paths: seq<string>,
                                        responses: seq<Response<QuestionDoc>>, done: seq<nat>, i: nat)
    requires |responses| == |paths|
    requires forall k :: 0 <= k < |done| ==> done[k] < |paths|
    requires i < |paths| && paths[i] !in c0
    requires forall j :: 0 <= j < |paths| && j != i ==> paths[j] != paths[i]
    ensures paths[i] in CacheAfter(c0, paths, responses, done) <==> i in done && responses[i].Received?
    ensures paths[i] in CacheAfter(c0, paths, responses, done) ==>
      CacheAfter(c0, paths, responses, done)[paths[i]] == QuestionsOf(responses[i].body)
    decreases |done|
  {
    if done != [] {
      var init := done[..|done| - 1];
      CacheAfterAt(c0, paths, responses, init, i);
      assert done == init + [done[|done| - 1]];
      assert forall j :: j in done <==> j in init || j == done[|done| - 1];
    }
  }

  /** The request of call `i` is for path `p` and settled successfully. */
  predicate SucceedsFor(paths: seq<string>, responses: seq<Response<QuestionDoc>>, i: nat, p: string)
  {
    i < |paths| && i < |responses| && paths[i] == p && responses[i].Received?
  }

  /** The general case, where a path may be resolved more than once in a
      pass: a path missed at the start is cached afterwards exactly when
      some settled request for it succeeded, and then holds the questions
      of the last such request in completion order. */
  lemma {:induction false} CacheAfterAny(c0: Cache, paths: seq<string>,
                                         responses: seq<Response<QuestionDoc>>, done: seq<nat>, p: string)
    requires |responses| == |paths|
    requires forall k :: 0 <= k < |done| ==> done[k] < |paths|
    requires p !in c0
    ensures p in CacheAfter(c0, paths, responses, done) <==>
      exists k :: 0 <= k < |done| && SucceedsFor(paths, responses, done[k], p)
    ensures forall k ::
      (0 <= k < |done| && SucceedsFor(paths, responses, done[k], p) &&
       forall k2 :: k < k2 < |done| ==> !SucceedsFor(paths, responses, done[k2], p)) ==>
        p in CacheAfter(c0, paths, responses, done) &&
        CacheAfter(c0, paths, responses, done)[p] == QuestionsOf(responses[done[k]].body)
    decreases |done|
  {
    if done != [] {
      var n := |done| - 1;
      var init, i := done[..n], done[n];
      CacheAfterAny(c0, paths, responses, init, p);
      var c := CacheAfter(c0, paths, responses, init);
      var c' := CacheAfter(c0, paths, responses, done);
      assert forall k :: 0 <= k < n ==> init[k] == done[k];
      if SucceedsFor(paths, responses, i, p) {
        assert c' == c[p := QuestionsOf(responses[i].body)];
      } else {
        assert p in c' <==> p in c;
        assert p in c ==> c'[p] == c[p];
        if p in c' {
          var k :| 0 <= k < n && SucceedsFor(paths, responses, init[k], p);
          assert SucceedsFor(paths, responses, done[k], p);
        }
      }
    }
  }

  /** `10 + Math.round((k / n) * 75)` in exact arithmetic: `p - 10` is `75k/n`
      rounded half up, and lies between 0 and 75. */
  function Progress(k: nat, n: nat): (p: int)
    requires 0 < n && k <= n
    ensures 2 * n * (p - 10) <= 150 * k + n < 2 * n * (p - 10) + 2 * n
    ensures 10 <= p <= 85
  {
    var a, d := 150 * k + n, 2 * n;
    DivBounds(a, d);
    CapQuotient(k, n, a / d);
    10 + a / d
  }

  lemma DivBounds(a: nat, d: nat)
    requires 0 < d
    ensures d * (a / d) <= a < d * (a / d) + d
    ensures 0 <= a / d
  {
  }

  lemma CapQuotient(k: nat, n: nat, q: int)
    requires 0 < n && k <= n
    requires 2 * n * q <= 150 * k + n
    ensures q <= 75
  {
    if q >= 76 {
      assert 2 * n * q >= 2 * n * 76 by { MulLeft(2 * n, 76, q); }
    }
  }

  lemma MulLeft(c: nat, x: int, y: int)
    requires x <= y
    ensures c * x <= c * y
  {
  }

  /** Progress never goes backwards as calls settle. */
  lemma ProgressMonotone(k1: nat, k2: nat, n: nat)
    requires 0 < n && k1 <= k2 <= n
    ensures Progress(k1, n) <= Progress(k2, n)
  {
    var q1, q2 := Progress(k1, n) - 10, Progress(k2, n) - 10;
    if q1 > q2 {
      // 150 * k1 + n >= 2n * q1 >= 2n * (q2 + 1) > 150 * k2 + n >= 150 * k1 + n
      MulLeft(2 * n, q2 + 1, q1);
    }
  }

  /** The fetch phase starts at 10 and ends at 85. */
  lemma ProgressEnds(n: nat)
    requires 0 < n
    ensures Progress(0, n) == 10 && Progress(n, n) == 85
  {
    var q0, qn := Progress(0, n) - 10, Progress(n, n) - 10;
    if q0 >= 1 {
      MulLeft(2 * n, 1, q0);
    }
    if qn <= 74 {
      MulLeft(2 * n, qn, 74);
    }
  }

  /** One more completion appends one report. */
  lemma ProgressSeriesSnoc(k: nat, n: nat)
    requires 0 < n && k < n
    ensures ProgressSeries(k + 1, n) == ProgressSeries(k, n) + [Progress(k + 1, n)]
  {
  }

  /** The reports of a pass never decrease, stay within [10, 85], and the
      last of a complete pass is 85. */
  function ProgressSeries(k: nat, n: nat): (r: seq<int>)
    requires 0 < n && k <= n
    ensures |r| == k && forall j :: 0 <= j < k ==> r[j] == Progress(j + 1, n)
    ensures forall j :: 0 <= j < k ==> 10 <= r[j] <= 85
    ensures forall j1, j2 :: 0 <= j1 <= j2 < k ==> r[j1] <= r[j2]
    ensures k == n ==> r[n - 1] == 85
  {
    var r := seq(k, j requires 0 <= j < k => Progress(j + 1, n));
    assert forall j1, j2 :: 0 <= j1 <= j2 < k ==> r[j1] <= r[j2] by {
      forall j1, j2 | 0 <= j1 <= j2 < k ensures r[j1] <= r[j2] {
        ProgressMonotone(j1 + 1, j2 + 1, n);
      }
    }
    ProgressEnds(n);
    r
  }
}
