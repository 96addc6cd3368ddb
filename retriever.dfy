/**
 * Context retrieval of lib/retriever.ts: embed the question, ask the
 * similarity search for the five nearest chunks above similarity 0.5 across
 * ALL repositories, keep the rows tagged with the requested repository, and
 * join their contents with a blank line. Every failure becomes the empty
 * context.
 *
 * The embedding call and the `match_repo_embeddings` call are parameters
 * (`Services`), each returning a value or an error.
 */
module Retriever {
  import opened Wrappers
  import opened Text
  import opened Selection

  /** The `metadata` column of a row; `repository` is absent when the JSON has no string under that key. */
  datatype Metadata = Metadata(repository: Option<string>)

  /** A row returned by the similarity search; `metadata` is absent when it is null. */
  datatype Row = Row(content: string, metadata: Option<Metadata>)

  /** The arguments of `match_repo_embeddings`. */
  datatype Query = Query(queryEmbedding: seq<real>, matchThreshold: real, matchCount: nat)

  /** The two calls retrieval depends on. */
  datatype Services = Services(
    embedQuery: string -> Result<seq<real>, string>,
    matchRepoEmbeddings: Query -> Result<seq<Row>, string>)

  const MATCH_THRESHOLD: real := 0.5
  const MATCH_COUNT: nat := 5
  const SEPARATOR: string := "\n\n"

  /** `chunk.metadata && chunk.metadata.repository === repo` */
  predicate FromRepo(row: Row, repo: string)
  {
    row.metadata.Some? && row.metadata.value.repository == Some(repo)
  }

  /** The filter and the `map((chunk) => chunk.content)` as one selection. */
  function ContentIfFrom(repo: string): Row -> Option<string>
  {
    (row: Row) => if FromRepo(row, repo) then Some(row.content) else None
  }

  /** `relevantChunks`: the contents of the rows of `repo`, in search order. */
  function RelevantChunks(rows: seq<Row>, repo: string): seq<string>
  {
    FilterMap(rows, ContentIfFrom(repo))
  }

  /** The single similarity query retrieval issues for a question embedding. */
  function QueryFor(embedding: seq<real>): (q: Query)
    ensures q.queryEmbedding == embedding && q.matchThreshold == 0.5 && q.matchCount == 5
  {
    Query(embedding, MATCH_THRESHOLD, MATCH_COUNT)
  }

  /**
   * `retrieveContext(question, repo)`. It never fails: an embedding error or
   * a search error gives `""`; otherwise the kept contents joined by a blank
   * line, from the one query at threshold 0.5 and count 5, so the search
   * matters only through its answer to that query.
   */
  function RetrieveContext(question: string, repo: string, services: Services): (context: string)
    ensures services.embedQuery(question).Err? ==> context == ""
    ensures (services.embedQuery(question).Ok? &&
             services.matchRepoEmbeddings(QueryFor(services.embedQuery(question).value)).Err?) ==> context == ""
    ensures (services.embedQuery(question).Ok? &&
             services.matchRepoEmbeddings(QueryFor(services.embedQuery(question).value)).Ok?) ==>
              context == Join(RelevantChunks(services.matchRepoEmbeddings(QueryFor(services.embedQuery(question).value)).value, repo), SEPARATOR)
  {
    match services.embedQuery(question)
    case Err(_) => ""
    case Ok(embedding) =>
      match services.matchRepoEmbeddings(QueryFor(embedding))
      case Err(_) => ""
      case Ok(rows) => Join(RelevantChunks(rows, repo), SEPARATOR)
  }

  /**
   * The kept chunks are exactly the contents of the rows tagged with `repo`,
   * in search order: chunk k is the content of the row at the k-th selected
   * position, those positions increase, and a row is selected if and only if
   * it has metadata whose repository is `repo`. So there are never more chunks
   * than rows, and no chunk comes from another repository or an untagged row.
   */
  lemma ChunksFromRepoOnly(rows: seq<Row>, repo: string)
    ensures var idx := Selected(rows, ContentIfFrom(repo));
            var chunks := RelevantChunks(rows, repo);
            |idx| == |chunks| <= |rows| &&
            IncreasingBelow(idx, |rows|) &&
            (forall k :: 0 <= k < |idx| ==> FromRepo(rows[idx[k]], repo) && chunks[k] == rows[idx[k]].content) &&
            (forall i :: 0 <= i < |rows| ==> (i in idx <==> FromRepo(rows[i], repo)))
  {
    var f := ContentIfFrom(repo);
    FilterMapSelects(rows, f);
    forall k | 0 <= k < |Selected(rows, f)|
      ensures FromRepo(rows[Selected(rows, f)[k]], repo)
    {
      assert f(rows[Selected(rows, f)[k]]).Some?;
    }
  }

  /** A row without metadata is never included: dropping it leaves the chunks unchanged. */
  lemma UntaggedRowIgnored(rows: seq<Row>, repo: string, k: nat)
    requires k < |rows| && rows[k].metadata.None?
    ensures RelevantChunks(rows[..k] + rows[k + 1..], repo) == RelevantChunks(rows, repo)
  {
    FilterMapSkipsRejected(rows, ContentIfFrom(repo), k);
  }

  /**
   * How long the context is: no chunk gives `""`, one chunk gives its content
   * unchanged, and n chunks give their lengths plus n - 1 blank-line
   * separators of two characters each.
   */
  lemma ContextLength(chunks: seq<string>)
    ensures chunks == [] ==> Join(chunks, SEPARATOR) == ""
    ensures |chunks| == 1 ==> Join(chunks, SEPARATOR) == chunks[0]
    ensures |chunks| > 0 ==> |Join(chunks, SEPARATOR)| == TotalLength(chunks) + 2 * (|chunks| - 1)
  {
    JoinSmall(chunks, SEPARATOR);
    if |chunks| > 0 {
      JoinLength(chunks, SEPARATOR);
    }
  }

  /**
   * Where each chunk sits in the context: chunk k at its offset (the earlier
   * chunks and one separator after each), followed directly by a blank-line
   * separator unless it is the last. With `ContextLength` this fixes every
   * character of the context.
   */
  lemma ContextLayout(chunks: seq<string>)
    ensures forall k :: 0 <= k < |chunks| ==>
              OccursAt(Join(chunks, SEPARATOR), chunks[k], PartOffset(chunks, SEPARATOR, k)) &&
              (k + 1 < |chunks| ==> OccursAt(Join(chunks, SEPARATOR), SEPARATOR, PartOffset(chunks, SEPARATOR, k) + |chunks[k]|))
  {
    JoinLaysOut(chunks, SEPARATOR);
  }
}
