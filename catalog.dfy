/** The records the quiz-bank application reads from its JSON files, and the
    per-level accessors that the filters share. */
module Catalog {

  datatype Option<+T> = None | Some(value: T)

  /** A taxonomy tag as a metadata file carries it: `{id, name}`. The id may be
      absent (None) or the empty string; both are falsy in the source. */
  datatype Tag = Tag(id: Option<string>, name: string)

  /** The four taxonomy levels, coarsest first. */
  datatype Level = Category | Subject | Chapter | Topic

  /** The `metadata` block of a file. Only the block itself is checked on
      loading, so each of the four sub-tags may still be missing. */
  datatype Metadata = Metadata(category: Option<Tag>, subject: Option<Tag>,
                               chapter: Option<Tag>, topic: Option<Tag>)

  /** One element of the metadata index: `{path, metadata}`. */
  datatype Entry = Entry(path: string, metadata: Metadata)

  /** A question record; images are display-only and not modelled. */
  datatype Question = Question(text: string, options: seq<string>, correctAnswer: int,
                               explanation: Option<string>)

  /** What one `fetch(path)` followed by `response.json()` yields: Failed stands
      for a non-ok status, a transport error and a body that does not parse. */
  datatype Response<+T> = Failed | Received(body: T)

  /** A metadata file's body; `metadata` is None when the key is missing or falsy. */
  datatype MetadataDoc = MetadataDoc(metadata: Option<Metadata>)

  /** A question file's body; `questions` is None when the key is missing or falsy. */
  datatype QuestionDoc = QuestionDoc(questions: Option<seq<Question>>)

  /** `item.metadata?.[key]` */
  function TagAt(m: Metadata, level: Level): Option<Tag>
  {
    match level
    case Category => m.category
    case Subject => m.subject
    case Chapter => m.chapter
    case Topic => m.topic
  }

  /** `item.metadata?.[key]?.id`: None when the tag or its id is missing. */
  function IdAt(e: Entry, level: Level): Option<string>
  {
    match TagAt(e.metadata, level)
    case None => None
    case Some(t) => t.id
  }

  /** The test `option && option.id`: the tag is there and its id is non-empty. */
  predicate Usable(t: Tag)
  {
    t.id.Some? && t.id.value != ""
  }

  /** The string a tag's id becomes as an option value; an absent id is
      coerced to "undefined", as assigning `undefined` to `value` does. */
  function IdOf(t: Tag): string
  {
    match t.id
    case Some(s) => s
    case None => "undefined"
  }

  /** The per-level test `sel.length === 0 || sel.includes(md?.[level]?.id)`:
      an empty selection accepts every entry, and a missing id is never included. */
  predicate Accepts(sel: seq<string>, e: Entry, level: Level)
  {
    |sel| == 0 || (IdAt(e, level).Some? && IdAt(e, level).value in sel)
  }

  /** `.map(item => item.path)` */
  function Paths(es: seq<Entry>): (r: seq<string>)
    ensures |r| == |es|
    ensures forall i :: 0 <= i < |es| ==> r[i] == es[i].path
  {
    if es == [] then [] else [es[0].path] + Paths(es[1..])
  }
}
