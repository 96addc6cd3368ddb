# GitGpt core, modelled in Dafny

GitGpt answers questions about a GitHub repository. Ingesting a repository
URL has several steps:

- find the owner and name in the URL;
- list the repository's tree and keep the relevant source and documentation files;
- fetch their contents ten at a time;
- hand them to processing under the id `owner/repo`.

A chat turn also has several steps:

- take the last message as the question;
- format the earlier messages as the conversation;
- retrieve context from the similarity search, only when a repository name is given, and keep only that repository's chunks;
- fill the fixed prompt template.

This project models these four parts of the program:

- `ingest_route.dfy`: the ingestion route. It covers:
  - the unanchored pattern `github\.com\/([^\/]+)\/([^\/]+)`, modelled as a leftmost search of greedy slash-free runs;
  - the removal of the first `.git`;
  - the id;
  - the mapping of every outcome to a status and a JSON body.
- `github.dfy`: the fetcher.
  - The relevance filter is a pure function.
  - The batched collection is a `method` with the source's loop over slices of ten and its inner push loop. It is proved equal to a filter-map over all relevant entries, with the slicing proved to cover the list in order.
- `retriever.dfy`: retrieval. It covers the filter and the map, the blank-line join, and the collapse of every failure into `""`.
- `chat_route.dfy`: the chat route. It covers `formatMessage`, the history, the conditional context, the template as literal pieces and placeholders, and the response.

Three supporting modules hold shared pieces:

- `text.dfy`: the JavaScript string operations used by the routes (`includes`, `endsWith`, `replace` with a string pattern, `join`, the decimal rendering of a count). `Text.IndexOf` is the search step inside `replace`, and it also reads an id or a chat line back in `IngestRoute.SplitRepoId` and `ChatRoute.ParseLine`.
- `selection.dfy`: filter-map, the positions it selects, and slicing into batches.
- `wrappers.dfy`: `Option` and `Result`.

Every external call is a function-valued parameter:

- the three Octokit calls;
- the embedding call;
- the `match_repo_embeddings` call;
- the imported `processAndStoreRepo`;
- starting the model stream.

## Model

| member | source | states |
|---|---|---|
| Text.Contains | lib/github.ts:38 | `includes`: some occurrence anywhere. Definition; `Text.IndexOf` finds an occurrence exactly when this holds. |
| Text.HasSuffix | lib/github.ts:41 | `endsWith`. Definition; characterised by `GitHub.RelevantFilesExactly` and `GitHub.RelevanceExamples`. |
| Text.Join | lib/retriever.ts:45 | `join`. Definition; characterised by `Text.JoinSmall`, `Text.JoinLength` and `Text.JoinLayout`. |
| Text.IndexOf | app/api/ingest-repo/route.ts:23 | The search step of `replace`: it finds an occurrence exactly when the pattern occurs, and returns the first one. |
| Text.ReplaceFirst | app/api/ingest-repo/route.ts:23 | `replace` with a string pattern cuts out only the first occurrence and splices in the replacement. Without an occurrence the text is unchanged. No new characters appear. |
| Text.JoinSmall | lib/retriever.ts:45 | Joining no part gives `""`. Joining one part gives that part. |
| Text.JoinLength | lib/retriever.ts:45 | n joined parts have length equal to the part lengths plus n-1 separators. |
| Text.JoinLayout | app/api/chat/route.ts:33 | Part k sits at its offset in the join. A separator directly follows every part but the last. |
| Text.DecimalString | app/api/ingest-repo/route.ts:35 | A count prints as at least one digit, with no leading zero. |
| Text.DecimalRoundTrip | app/api/ingest-repo/route.ts:35 | Reading the printed numeral back gives the count. |
| Selection.FilterMap | lib/github.ts:79-80 | The filtered-and-mapped list is never longer than its input. |
| Selection.FilterMapSelects | lib/retriever.ts:36-41 | The output is the images of exactly the accepted inputs, in input order. The selected positions increase, and an input is selected iff the callback accepts it. |
| Selection.SelectedExactly | lib/github.ts:33-43 | Position i is selected iff the callback accepts element i. |
| Selection.SelectedImage | lib/github.ts:33-43 | Output k is the callback's value at the k-th selected position. |
| Selection.SelectedIncreasing | lib/github.ts:33-43 | The selected positions are strictly increasing and in range, so order is kept and nothing is duplicated. |
| Selection.SelectedLength | lib/github.ts:33-43 | There are as many selected positions as outputs. |
| Selection.FilterMapAppend | lib/github.ts:51-81 | Filter-mapping a concatenation equals the concatenation of the filter-maps, so slice-wise collection equals whole-list collection. |
| Selection.FilterMapSkipsRejected | lib/retriever.ts:36-41 | Removing an input the callback rejects leaves the output unchanged. |
| Selection.Batches | lib/github.ts:51-52 | The slices `slice(i, i + size)` for i = 0, size, 2·size, …. Definition; characterised by `Selection.BatchesCover`, `Selection.BatchesSizes` and `Selection.BatchesStep`. |
| Selection.BatchesCover | lib/github.ts:51-52 | The slices, concatenated, are the whole list, in order. |
| Selection.BatchesSizes | lib/github.ts:51-52 | Every slice is non-empty and at most the batch size. Every slice but the last is exactly the batch size. |
| Selection.BatchesStep | lib/github.ts:51-52 | From a slice boundary, the slicing is one slice `slice(i, i + size)` followed by the slicing of the rest. |
| GitHub.HasAllowedExtension | lib/github.ts:41 | The path ends with one of the five extensions. Definition; characterised by `GitHub.RelevanceExamples`. |
| GitHub.IsRelevant | lib/github.ts:33-43 | The filter callback. Definition; characterised by `GitHub.RelevantFilesExactly`, `GitHub.ExclusionIsSubstring` and `GitHub.RelevanceExamples`. |
| GitHub.KeepRelevant | lib/github.ts:33-43 | The filter callback as a selection: the entry itself when relevant, nothing otherwise. Definition; characterised by `GitHub.RelevantFilesExactly`. |
| GitHub.PathOf | lib/github.ts:68 | `file.path!`: the path of an entry. Definition; characterised by `GitHub.RepoFilesContents`, whose files carry the entry's path. |
| GitHub.RelevantFiles | lib/github.ts:33 | `treeData.tree.filter(...)`. Definition; characterised by `GitHub.RelevantFilesExactly`. |
| GitHub.Fetcher | lib/github.ts:54-75 | The per-file fetch: the tree path and decoded text, or nothing on failure. Definition; characterised by `GitHub.RepoFilesContents` and `GitHub.FailedFetchDropsOnlyThatFile`. |
| GitHub.RepoFiles | lib/github.ts:14-90 | A failed branch lookup is passed on unchanged, and so is a failed tree lookup after a successful branch lookup. The result is a success iff both lookups succeed, and it never has more files than the tree has entries. |
| GitHub.PushFetched | lib/github.ts:77-81 | After the pushes, the results are the earlier results followed by every successful fetch of the slice, in slice order. |
| GitHub.CollectFiles | lib/github.ts:48-84 | The batch loop collects exactly the successful fetches of all relevant files, in order. The slices it walks are the slicing of the list into tens. |
| GitHub.GetRepoFiles | lib/github.ts:14-90 | The imperative `getRepoFiles` returns exactly the specified result. |
| GitHub.RelevantFilesExactly | lib/github.ts:33-43 | The filter keeps entries in tree order. An entry is kept iff all of these hold: it is a blob, its path is present and non-empty, its path does not contain `node_modules` as a substring, and its path ends with one of the five extensions. |
| GitHub.ExclusionIsSubstring | lib/github.ts:38 | `docs/node_modules_notes.md` is rejected, because the exclusion is a substring test. |
| GitHub.RelevanceExamples | lib/github.ts:12 | `docs/notes.md` is kept. A tree entry is rejected. An upper-case `.MD` is rejected, because the extension test is case-sensitive. |
| GitHub.RepoFilesContents | lib/github.ts:54-81 | File k carries the tree path and decoded text of the k-th entry whose fetch succeeded. An entry appears iff its fetch succeeded, and tree order is kept. |
| GitHub.FailedFetchDropsOnlyThatFile | lib/github.ts:71-74 | A failed fetch drops that file and changes nothing else. |
| GitHub.BatchesOfTen | lib/github.ts:49-52 | The fetch slices cover the relevant files in order. Each slice has 1 to 10 files, and every slice but the last has exactly 10. |
| IngestRoute.RunEnd | app/api/ingest-repo/route.ts:17 | Where a greedy `[^\/]+` run stops. Definition; characterised by `IngestRoute.RunEndStops` and `IngestRoute.RunEndAt`. |
| IngestRoute.Groups | app/api/ingest-repo/route.ts:17 | The two capture groups after `github.com/`. Definition; characterised by `IngestRoute.GroupsShape` and `IngestRoute.GroupsWhere`. |
| IngestRoute.MatchHere | app/api/ingest-repo/route.ts:17 | The pattern anchored at the start of a text. Definition; characterised by `IngestRoute.MatchHereShape` and `IngestRoute.MatchHereWhere`. |
| IngestRoute.MatchAt | app/api/ingest-repo/route.ts:17 | The pattern tried at one start index. Definition; characterised by `IngestRoute.MatchShape` and `IngestRoute.MatchesWhereShapeOccurs`. |
| IngestRoute.MatchFrom | app/api/ingest-repo/route.ts:17 | The leftmost match at or after an index. Definition; characterised by `IngestRoute.MatchFromLeftmost`. |
| IngestRoute.Match | app/api/ingest-repo/route.ts:17 | `repoUrl.match(...)`. Definition; characterised by `IngestRoute.LeftmostMatch` and `IngestRoute.NoMatchAnywhere`. |
| IngestRoute.RunEndStops | app/api/ingest-repo/route.ts:17 | A greedy `[^\/]` run is slash-free and stops at a `/` or at the end. |
| IngestRoute.GroupsShape | app/api/ingest-repo/route.ts:17 | The groups are two non-empty slash-free segments separated by `/`, and the second one ends at a `/` or at the end. |
| IngestRoute.MatchHereShape | app/api/ingest-repo/route.ts:17 | An anchored match reads `github.com/`, owner, `/`, name, followed by a `/` or the end. |
| IngestRoute.MatchShape | app/api/ingest-repo/route.ts:17 | A match at index p is an occurrence of `github.com/owner/name` at p with maximal segments. |
| IngestRoute.MatchFromLeftmost | app/api/ingest-repo/route.ts:17 | The search returns a match at the index it reports, no match starts earlier, and with no result nothing matches anywhere. |
| IngestRoute.StripGit | app/api/ingest-repo/route.ts:23 | A name without `.git` is unchanged. Otherwise it is four characters shorter. A slash-free name stays slash-free. |
| IngestRoute.ParseRepoUrl | app/api/ingest-repo/route.ts:9-23 | The result is "Missing repoUrl" iff the URL is absent or empty. It is "Invalid GitHub URL" iff the URL is non-empty and the pattern matches nowhere. Otherwise the owner is a segment and the name is slash-free. |
| IngestRoute.RepoId | app/api/ingest-repo/route.ts:34 | `${owner}/${repo}`. Definition; characterised by `IngestRoute.RepoIdRoundTrip`. |
| IngestRoute.IngestedMessage | app/api/ingest-repo/route.ts:35 | `Ingested ${chunkCount} chunks`. Definition; characterised by `IngestRoute.IngestedMessageCount`. |
| IngestRoute.ErrorMessage | app/api/ingest-repo/route.ts:42 | The error's message, or `Internal Server Error` when that message is empty. Definition; characterised by `IngestRoute.PostOutcomes`. |
| IngestRoute.Post | app/api/ingest-repo/route.ts:7-44 | URL errors give a 400 with no fetch. Processing only happens after a fetch, under the id of what was fetched. A 200 implies processing, and the status is always 200, 400 or 500. |
| IngestRoute.RunEndAt | app/api/ingest-repo/route.ts:17 | A slash-free run that stops at a `/` or the end is exactly where the greedy run stops. |
| IngestRoute.GroupsWhere | app/api/ingest-repo/route.ts:17 | Text starting with `a/b`, for segments a and b where b is maximal, yields groups a and b. |
| IngestRoute.MatchHereWhere | app/api/ingest-repo/route.ts:17 | Text starting with `github.com/a/b`, with b maximal, matches with groups a and b. |
| IngestRoute.MatchesWhereShapeOccurs | app/api/ingest-repo/route.ts:17 | Wherever `github.com/a/b` occurs with maximal segments, the pattern matches there with exactly those groups. This is the converse of MatchShape. |
| IngestRoute.ParseLeftmost | app/api/ingest-repo/route.ts:17-23 | The leftmost occurrence of `github.com/a/b` decides: the route uses owner a and name `StripGit(b)`. |
| IngestRoute.NoMatchInside | app/api/ingest-repo/route.ts:17 | No match starts inside a prefix that has no `g`. |
| IngestRoute.MatchAtShift | app/api/ingest-repo/route.ts:17 | Matching at index d+k of a text equals matching at index k of its suffix from d. |
| IngestRoute.LeftmostMatch | app/api/ingest-repo/route.ts:17 | A match at p with none before it is what `match` returns. |
| IngestRoute.NoMatchAnywhere | app/api/ingest-repo/route.ts:17-20 | A text matching nowhere gives `null`. |
| IngestRoute.NoMatchAfter | app/api/ingest-repo/route.ts:17 | With no match before d and none in the suffix from d, there is no match at all. |
| IngestRoute.FirstMatchAfter | app/api/ingest-repo/route.ts:17 | With no match before d, the first match is the suffix's first match, shifted by d. |
| IngestRoute.IgnoresPrefix | app/api/ingest-repo/route.ts:15-23 | A scheme or host prefix without `g` (such as `https://`) does not change the parsed owner and name. |
| IngestRoute.RunEndExtend | app/api/ingest-repo/route.ts:17 | Appending `/` and more text changes no greedy run. |
| IngestRoute.IgnoresTrailingPath | app/api/ingest-repo/route.ts:15-23 | Once a URL matches, appending `/` and any further path (`/tree/main/...`) leaves the result unchanged. |
| IngestRoute.GroupsExtend | app/api/ingest-repo/route.ts:17 | Appending `/` and more text to text containing a `/` changes no groups. |
| IngestRoute.MatchHereExtend | app/api/ingest-repo/route.ts:17 | Appending `/` and more text changes no anchored match that has a `/` past the host. |
| IngestRoute.EarlierStaysUnmatched | app/api/ingest-repo/route.ts:17 | Appending `/` and more text creates no match before an existing match. |
| IngestRoute.StripGitAnywhere | app/api/ingest-repo/route.ts:23 | `.git` is removed wherever it first occurs: `repo.git` becomes `repo`, `user.github.io` becomes `userhub.io`, and `.git` becomes `""`. |
| IngestRoute.FirstGitAt | app/api/ingest-repo/route.ts:23 | `.git` at i, with no `.` before i, is the first occurrence. |
| IngestRoute.RepoIdRoundTrip | app/api/ingest-repo/route.ts:34 | `owner/repo` splits back into owner and name, because the owner has no `/`. |
| IngestRoute.IngestedMessageCount | app/api/ingest-repo/route.ts:35 | The success message is `Ingested `, digits, ` chunks`, and the digits read back as the chunk count. |
| IngestRoute.PostOutcomes | app/api/ingest-repo/route.ts:11-42 | The outcomes, case by case. A missing URL gives 400 "Missing repoUrl". An unmatched URL gives 400 "Invalid GitHub URL". A fetch error gives 500 with the error message, or "Internal Server Error" when that message is empty. Otherwise processing of `owner/repo` happens, and the response is either 200 `Ingested n chunks` or 500 `Processing failed: ` plus the error. |
| Retriever.FromRepo | lib/retriever.ts:37-40 | The row has metadata naming the repository. Definition; characterised by `Retriever.ChunksFromRepoOnly`. |
| Retriever.ContentIfFrom | lib/retriever.ts:36-41 | The filter and the map as one selection. Definition; characterised by `Retriever.ChunksFromRepoOnly`. |
| Retriever.RelevantChunks | lib/retriever.ts:36-41 | `relevantChunks`. Definition; characterised by `Retriever.ChunksFromRepoOnly` and `Retriever.UntaggedRowIgnored`. |
| Retriever.QueryFor | lib/retriever.ts:12-16 | The query sends the question's embedding, with threshold 0.5 and count 5. |
| Retriever.RetrieveContext | lib/retriever.ts:5-51 | An embedding error gives `""`, and so does a search error. Otherwise the result is the kept contents joined by a blank line. |
| Retriever.ChunksFromRepoOnly | lib/retriever.ts:36-41 | Chunk k is the content of the k-th row tagged with the repository. A row is kept iff its metadata names the repository, and search order is kept. |
| Retriever.UntaggedRowIgnored | lib/retriever.ts:39 | A row without metadata never contributes. |
| Retriever.ContextLength | lib/retriever.ts:45 | No chunk gives `""`. One chunk gives its content. n chunks give their lengths plus n-1 two-character separators. |
| Retriever.ContextLayout | lib/retriever.ts:45 | Chunk k sits at its offset in the context, followed by `\n\n` unless it is the last. |
| ChatRoute.FormatMessage | app/api/chat/route.ts:11-13 | A line is the role, `: `, then the content. |
| ChatRoute.Earlier | app/api/chat/route.ts:33 | `messages.slice(0, -1)`. Definition; characterised by `ChatRoute.HistoryLength` and `ChatRoute.HistoryLines`. |
| ChatRoute.ChatHistory | app/api/chat/route.ts:33 | `formattedPreviousMessages`. Definition; characterised by `ChatRoute.HistoryLength` and `ChatRoute.HistoryLines`. |
| ChatRoute.SlotCount | app/api/chat/route.ts:15-25 | How often a placeholder occurs in a template. Definition; characterised by `ChatRoute.SlotCountThree`. |
| ChatRoute.Render | app/api/chat/route.ts:46-55 | Filling a template from values. Definition; characterised by `ChatRoute.RenderFailsExactly` and `ChatRoute.RenderThreeSlots`. |
| ChatRoute.TemplateValues | app/api/chat/route.ts:49-63 | The three values the chain hands to the template. Definition; characterised by `ChatRoute.RenderTemplate`. |
| ChatRoute.Truthy | app/api/chat/route.ts:37 | `if (repoName)`: present and non-empty. Definition; characterised by `ChatRoute.TurnContext` and `ChatRoute.PromptOfTurn`. |
| ChatRoute.FormatParseRoundTrip | app/api/chat/route.ts:11-13 | For a role without `:`, the line splits back into that role and content. |
| ChatRoute.FormatAll | app/api/chat/route.ts:33 | The mapping has one formatted line per message, in order. |
| ChatRoute.RenderFailsExactly | app/api/chat/route.ts:46-55 | Filling a template fails exactly when some placeholder has no value. |
| ChatRoute.SlotCountThree | app/api/chat/route.ts:15-25 | In three literals around three placeholders, a name occurs once for each placeholder that names it. |
| ChatRoute.TemplateSlotsOnce | app/api/chat/route.ts:15-25 | `{context}`, `{chat_history}` and `{question}` each occur exactly once in the template. The template is the constant `ChatRoute.TEMPLATE`: the literals `PREAMBLE`, `CONVERSATION_HEADER`, `QUESTION_HEADER` and `ANSWER_CUE` around the three placeholders, with the text of lines 15-25. |
| ChatRoute.RenderThreeSlots | app/api/chat/route.ts:46-55 | Three literals around three placeholders render as the literals and values in order. |
| ChatRoute.RenderFilled | app/api/chat/route.ts:15-25 | With values for all three placeholders, the template renders as the instructions, the context, the conversation header, the history, `User: `, the question, then `Answer:`. |
| ChatRoute.RenderTemplate | app/api/chat/route.ts:49-63 | The chain's three values fill the template in that order. |
| ChatRoute.TurnContext | app/api/chat/route.ts:36-39 | Without a truthy repository name, the context is `""`. |
| ChatRoute.Post | app/api/chat/route.ts:27-70 | An empty conversation fails with 500. Every failure is a 500. A stream only starts for a non-empty conversation, when starting it does not throw. |
| ChatRoute.HistoryLength | app/api/chat/route.ts:33 | The history is `""` for at most one message. Otherwise it has one line per earlier message, and its length is their lengths plus the newlines between them. |
| ChatRoute.HistoryLines | app/api/chat/route.ts:33 | Line k of the history is `role: content` of message k. It sits at its offset, followed by a newline unless it is last. The last message is never in the history. |
| ChatRoute.PromptOfTurn | app/api/chat/route.ts:31-65 | For a non-empty conversation, the response streams exactly one prompt, or is a 500 with the error thrown when the stream starts. That prompt is, in order: the instructions, the retrieved context (or `""` without a repository name), the conversation header and history, `User: ` with the last message's content, and `Answer:`. |

## Left out

- `processAndStoreRepo` is imported from `@/lib/embeddings` (app/api/ingest-repo/route.ts:3), but lib/embeddings.ts defines only the `embeddings` client; the function is not part of this model. `IngestRoute.Post` takes it as an arbitrary parameter `process` that returns a chunk count or an error message. That includes a call that always fails, in which case every request that gets past the fetch ends in a 500 `Processing failed: ...`.
- The Octokit client, the Supabase client, the embedding model and the Gemini model are not part of this model. Each appears as a function-valued parameter that returns a value or an error.
- Reading the request body (`req.json()`) is not modelled, and neither is the 500 a malformed body gives. Fields are given as already-parsed values, and a non-string `repoUrl` or non-array `messages` is not modelled.
- `Promise.all` runs the fetches of one slice concurrently. The model fetches them one after another. The collected order is the same, because `Promise.all` keeps input order.
- Base64 and UTF-8 decoding of a blob are folded into `Remote.getBlob`, which returns the decoded text or `None` when anything in that fetch throws.
- The `truncated` flag of the tree only triggers a warning, so it plays no part in the result. All console logging is left out.
- The tokens the model streams, and the `HttpResponseOutputParser`, are not modelled. The model stops at the prompt the stream is started with.
- `Text.DecimalString`: counts are taken as unbounded naturals printed as plain digits. JavaScript numbers are doubles, and from 10^21 on a template literal prints exponent form (`1e+21`); that rendering is not modelled.
- `IngestRoute.IngestedMessageCount`: holds for the plain-digit rendering only, so it matches the source for chunk counts below 10^21; the exponent form of larger counts is not modelled.
- `Text.ReplaceFirst`: the replacement is taken literally. The `$` patterns of `String.prototype.replace` are not modelled; the route always uses the empty replacement.
- `ChatRoute.Post`: for an empty conversation the model always answers the 500 carrying the JavaScript `TypeError` message for reading `content` of `undefined`. With an empty conversation and no repository name, the source builds the model (`new ChatGoogleGenerativeAI`, app/api/chat/route.ts:41-44) before it reads the missing message; when that constructor throws, the source answers with the constructor's error instead, which the model does not capture.
- `ChatRoute.Post`: a placeholder without a value is an error of the template library. It is modelled as a 500 with a fixed message, and it never happens for this template (`ChatRoute.RenderTemplate`).
- The UI components, pages, layout and the standalone scripts are not part of this model.
