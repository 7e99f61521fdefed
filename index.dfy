/** The metadata index: `fetchMetadata` per configured path and the
    null-filter that `initializeApp` applies to the settled results. */
module MetadataIndex {
  import opened Catalog
  import opened Seqs

  /** The fatal configuration errors of `initializeApp`. */
  datatype InitError =
    | MissingConfig   // `chapterFiles` is undefined or not an array
    | EmptyConfig     // `chapterFiles` is an empty array
    | NoMetadata      // no configured file yielded a metadata block

  /** `fetchMetadata(path)`: null on a failed fetch or when `data.metadata` is
      missing; otherwise the path with its metadata block, whatever sub-tags
      that block lacks. */
  function FetchMetadata(path: string, r: Response<MetadataDoc>): (e: Option<Entry>)
    ensures e.Some? <==> r.Received? && r.body.metadata.Some?
    ensures e.Some? ==> e.value.path == path && e.value.metadata == r.body.metadata.value
  {
    match r
    case Failed => None
    case Received(doc) =>
      match doc.metadata
      case None => None
      case Some(md) => Some(Entry(path, md))
  }

  /** `(await Promise.all(paths.map(fetchMetadata))).filter(m => m !== null)`,
      where `responses[i]` is what the request for `paths[i]` yields. */
  function Index(paths: seq<string>, responses: seq<Response<MetadataDoc>>): (r: seq<Entry>)
    requires |responses| == |paths|
    ensures |r| <= |paths|
    ensures forall i :: 0 <= i < |r| ==> r[i].path in paths
  {
    if paths == [] then []
    else
      var rest := Index(paths[1..], responses[1..]);
      match FetchMetadata(paths[0], responses[0])
      case None => rest
      case Some(e) => [e] + rest
  }

  /** The number of configured files that are skipped. */
  function Skipped(paths: seq<string>, responses: seq<Response<MetadataDoc>>): nat
    requires |responses| == |paths|
  {
    if paths == [] then 0
    else (if FetchMetadata(paths[0], responses[0]).None? then 1 else 0)
         + Skipped(paths[1..], responses[1..])
  }

  /** The index holds exactly the entries some configured file yielded. */
  lemma {:induction false} IndexMembers(paths: seq<string>, responses: seq<Response<MetadataDoc>>)
    requires |responses| == |paths|
    ensures forall e :: e in Index(paths, responses) <==>
      exists i :: 0 <= i < |paths| && FetchMetadata(paths[i], responses[i]) == Some(e)
  {
    if paths != [] {
      IndexMembers(paths[1..], responses[1..]);
      forall e | e in Index(paths, responses)
        ensures exists i :: 0 <= i < |paths| && FetchMetadata(paths[i], responses[i]) == Some(e)
      {
        if FetchMetadata(paths[0], responses[0]) != Some(e) {
          var j :| 0 <= j < |paths| - 1 && FetchMetadata(paths[1..][j], responses[1..][j]) == Some(e);
          assert FetchMetadata(paths[j + 1], responses[j + 1]) == Some(e);
        }
      }
      forall e, i | 0 <= i < |paths| && FetchMetadata(paths[i], responses[i]) == Some(e)
        ensures e in Index(paths, responses)
      {
        if i > 0 {
          assert FetchMetadata(paths[1..][i - 1], responses[1..][i - 1]) == Some(e);
        }
      }
    }
  }

  /** The index keeps configuration order: its paths are a subsequence of the
      configured paths. */
  lemma {:induction false} IndexInConfigOrder(paths: seq<string>, responses: seq<Response<MetadataDoc>>)
    requires |responses| == |paths|
    ensures IsSubseq(Paths(Index(paths, responses)), paths)
  {
    if paths != [] {
      IndexInConfigOrder(paths[1..], responses[1..]);
      var rest := Paths(Index(paths[1..], responses[1..]));
      match FetchMetadata(paths[0], responses[0])
      case None =>
        assert Paths(Index(paths, responses)) == rest;
        if rest != [] {
          assert IsSubseq(rest, paths[1..]);
        }
      case Some(e) =>
        var r := Paths(Index(paths, responses));
        assert r[0] == paths[0];
        assert r[1..] == rest;
    }
  }

  /** Every configured file is either indexed or skipped, never both. */
  lemma {:induction false} IndexCount(paths: seq<string>, responses: seq<Response<MetadataDoc>>)
    requires |responses| == |paths|
    ensures |Index(paths, responses)| + Skipped(paths, responses) == |paths|
  {
    if paths != [] {
      IndexCount(paths[1..], responses[1..]);
    }
  }
}
