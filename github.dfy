/**
 * The repository fetcher of lib/github.ts: resolve the default branch, list
 * the whole tree, keep the relevant blobs, and fetch their contents in slices
 * of ten, dropping every file whose fetch fails.
 *
 * The three Octokit calls are parameters (`Remote`): `repos.get` gives the
 * default branch, `git.getTree` the recursive listing, and `git.getBlob`
 * followed by the base64/UTF-8 decoding gives the text of one blob or `None`
 * when anything in that fetch throws.
 */
module GitHub {
  import opened Wrappers
  import opened Text
  import opened Selection

  /** One item of a recursive git tree listing; `path` and `sha` may be absent. */
  datatype TreeEntry = TreeEntry(kind: string, path: Option<string>, sha: Option<string>)

  /** A tree listing; `truncated` is set when the provider cut the listing short. */
  datatype Tree = Tree(entries: seq<TreeEntry>, truncated: bool)

  /** A fetched file: its path in the tree and its decoded text. */
  datatype FileContent = FileContent(filePath: string, content: string)

  /** The upstream calls: default branch of owner/repo, tree of a branch, decoded blob of a sha. */
  datatype Remote = Remote(
    getDefaultBranch: (string, string) -> Result<string, string>,
    getTree: (string, string, string) -> Result<Tree, string>,
    getBlob: (string, string, Option<string>) -> Option<string>)

  const ALLOWED_EXTENSIONS: seq<string> := [".ts", ".js", ".tsx", ".md", ".json"]
  const EXCLUDED_DIRECTORY: string := "node_modules"
  const BATCH_SIZE: nat := 10

  /** `ALLOWED_EXTENSIONS.some((ext) => path.endsWith(ext))` */
  predicate HasAllowedExtension(path: string)
  {
    exists ext :: ext in ALLOWED_EXTENSIONS && HasSuffix(path, ext)
  }

  /**
   * The filter callback: a blob with a non-empty path, whose path does not
   * contain `node_modules` anywhere (a substring test, not a path-component
   * test), and which ends with an allowed extension.
   */
  predicate IsRelevant(item: TreeEntry)
  {
    if item.kind != "blob" || item.path.None? || item.path.value == "" then false
    else if Contains(item.path.value, EXCLUDED_DIRECTORY) then false
    else HasAllowedExtension(item.path.value)
  }

  /** The filter as a selection: keep the entry itself when it is relevant. */
  function KeepRelevant(item: TreeEntry): Option<TreeEntry>
  {
    if IsRelevant(item) then Some(item) else None
  }

  /** `treeData.tree.filter(...)` */
  function RelevantFiles(entries: seq<TreeEntry>): seq<TreeEntry>
  {
    FilterMap(entries, KeepRelevant)
  }

  /** `file.path!`: the path of an entry that passed the filter. */
  function PathOf(item: TreeEntry): string
  {
    match item.path
    case Some(p) => p
    case None => ""
  }

  /**
   * The per-file callback of lines 54-75: fetch the blob by its sha; on
   * success the file carries the tree path and the decoded text, on any
   * failure the callback yields nothing (`null`).
   */
  function Fetcher(remote: Remote, owner: string, repo: string): TreeEntry -> Option<FileContent>
  {
    (item: TreeEntry) =>
      match remote.getBlob(owner, repo, item.sha)
      case Some(text) => Some(FileContent(PathOf(item), text))
      case None => None
  }

  /**
   * `getRepoFiles` as a value: a failure of the branch or tree lookup is
   * passed on unchanged; otherwise the files fetched successfully, in tree
   * order. A truncated listing is only warned about, so `truncated` plays no part.
   */
  function RepoFiles(remote: Remote, owner: string, repo: string): (r: Result<seq<FileContent>, string>)
    ensures remote.getDefaultBranch(owner, repo).Err? ==> r == Err(remote.getDefaultBranch(owner, repo).error)
    ensures remote.getDefaultBranch(owner, repo).Ok? &&
            remote.getTree(owner, repo, remote.getDefaultBranch(owner, repo).value).Err? ==>
              r == Err(remote.getTree(owner, repo, remote.getDefaultBranch(owner, repo).value).error)
    ensures r.Ok? <==> remote.getDefaultBranch(owner, repo).Ok? &&
                       remote.getTree(owner, repo, remote.getDefaultBranch(owner, repo).value).Ok?
    ensures r.Ok? ==> |r.value| <= |remote.getTree(owner, repo, remote.getDefaultBranch(owner, repo).value).value.entries|
  {
    match remote.getDefaultBranch(owner, repo)
    case Err(e) => Err(e)
    case Ok(branch) =>
      match remote.getTree(owner, repo, branch)
      case Err(e) => Err(e)
      case Ok(tree) => Ok(FilterMap(RelevantFiles(tree.entries), Fetcher(remote, owner, repo)))
  }

  /**
   * The inner loop of lines 79-81 over the results of one slice: push every
   * successful fetch, in slice order, after what was collected before.
   */
  method PushFetched(results: seq<FileContent>, batch: seq<TreeEntry>, fetch: TreeEntry -> Option<FileContent>)
    returns (pushed: seq<FileContent>)
    ensures pushed == results + FilterMap(batch, fetch)
  {
    var batchResults := seq(|batch|, k requires 0 <= k < |batch| => fetch(batch[k]));
    pushed := results;
    var j := 0;
    while j < |batchResults|
      invariant j <= |batch|
      invariant pushed == results + FilterMap(batch[..j], fetch)
    {
      if batchResults[j].Some? {
        pushed := pushed + [batchResults[j].value];
      }
      assert batch[..j + 1] == batch[..j] + [batch[j]];
      FilterMapAppend(batch[..j], [batch[j]], fetch);
      j := j + 1;
    }
    assert batch[..j] == batch;
  }

  /**
   * The batch loop of lines 48-82: walk the relevant files in slices
   * `[i, i + 10)`, fetch every file of a slice, then push the successful
   * results of that slice in slice order. The result is the order-preserving
   * selection of the files whose fetch succeeded, and the slices visited are
   * exactly the cut of the input into tens.
   */
  method CollectFiles(relevantFiles: seq<TreeEntry>, fetch: TreeEntry -> Option<FileContent>)
    returns (results: seq<FileContent>, ghost batches: seq<seq<TreeEntry>>)
    ensures results == FilterMap(relevantFiles, fetch)
    ensures batches == Batches(relevantFiles, BATCH_SIZE)
  {
    var n := |relevantFiles|;
    results := [];
    batches := [];
    var i := 0;
    ghost var done := 0;
    while i < n
      invariant done == (if i < n then i else n)
      invariant results == FilterMap(relevantFiles[..done], fetch)
      invariant batches + Batches(relevantFiles[done..], BATCH_SIZE) == Batches(relevantFiles, BATCH_SIZE)
    {
      var end := if i + BATCH_SIZE <= n then i + BATCH_SIZE else n;
      var batch := relevantFiles[i..end];
      results := PushFetched(results, batch, fetch);
      SliceStep(relevantFiles, fetch, i, end);
      AppendAssoc(batches, [batch], Batches(relevantFiles[end..], BATCH_SIZE));
      batches := batches + [batch];
      i := i + BATCH_SIZE;
      done := end;
    }
    assert relevantFiles[..n] == relevantFiles;
  }

  /** One turn of the batch loop: the slice `[i, end)` extends the collected prefix and is the next cut slice. */
  lemma SliceStep(relevantFiles: seq<TreeEntry>, fetch: TreeEntry -> Option<FileContent>, i: nat, end: nat)
    requires i < |relevantFiles| && end == (if i + BATCH_SIZE <= |relevantFiles| then i + BATCH_SIZE else |relevantFiles|)
    ensures FilterMap(relevantFiles[..end], fetch) == FilterMap(relevantFiles[..i], fetch) + FilterMap(relevantFiles[i..end], fetch)
    ensures Batches(relevantFiles[i..], BATCH_SIZE) == [relevantFiles[i..end]] + Batches(relevantFiles[end..], BATCH_SIZE)
  {
    assert relevantFiles[..end] == relevantFiles[..i] + relevantFiles[i..end];
    FilterMapAppend(relevantFiles[..i], relevantFiles[i..end], fetch);
    BatchesStep(relevantFiles, BATCH_SIZE, i);
    if end == |relevantFiles| {
      assert relevantFiles[end..] == [] && relevantFiles[i..end] == relevantFiles[i..];
    }
  }

  /** `getRepoFiles(owner, repo)`: the lookups, the filter, then the batch loop. */
  method GetRepoFiles(remote: Remote, owner: string, repo: string) returns (r: Result<seq<FileContent>, string>)
    ensures r == RepoFiles(remote, owner, repo)
  {
    var branch := remote.getDefaultBranch(owner, repo);
    if branch.Err? {
      return Err(branch.error);
    }
    var tree := remote.getTree(owner, repo, branch.value);
    if tree.Err? {
      return Err(tree.error);
    }
    var relevantFiles := RelevantFiles(tree.value.entries);
    var results, _ := CollectFiles(relevantFiles, Fetcher(remote, owner, repo));
    return Ok(results);
  }

  /**
   * The filter keeps exactly the relevant entries, in tree order: kept entry
   * k is the tree entry at the k-th selected position, the positions increase,
   * and an entry is selected if and only if it is a blob with a path that
   * avoids `node_modules` and ends with an allowed extension.
   */
  lemma RelevantFilesExactly(entries: seq<TreeEntry>)
    ensures |Selected(entries, KeepRelevant)| == |RelevantFiles(entries)| <= |entries|
    ensures IncreasingBelow(Selected(entries, KeepRelevant), |entries|)
    ensures forall k :: 0 <= k < |RelevantFiles(entries)| ==>
              RelevantFiles(entries)[k] == entries[Selected(entries, KeepRelevant)[k]]
    ensures forall i :: 0 <= i < |entries| ==>
              (i in Selected(entries, KeepRelevant) <==>
                 entries[i].kind == "blob" && entries[i].path.Some? && entries[i].path.value != "" &&
                 !Contains(entries[i].path.value, EXCLUDED_DIRECTORY) &&
                 HasAllowedExtension(entries[i].path.value))
  {
    FilterMapSelects(entries, KeepRelevant);
  }

  /** The `node_modules` test matches inside any path segment, not only a directory named so. */
  lemma ExclusionIsSubstring()
    ensures !IsRelevant(TreeEntry("blob", Some("docs/node_modules_notes.md"), Some("sha")))
  {
    var p := "docs/node_modules_notes.md";
    assert p[5..17] == EXCLUDED_DIRECTORY;
    assert OccursAt(p, EXCLUDED_DIRECTORY, 5);
  }

  /** A Markdown file outside `node_modules` is kept; a directory entry and an upper-case extension are not. */
  lemma RelevanceExamples()
    ensures IsRelevant(TreeEntry("blob", Some("docs/notes.md"), Some("sha")))
    ensures !IsRelevant(TreeEntry("tree", Some("src.ts"), Some("sha")))
    ensures !IsRelevant(TreeEntry("blob", Some("README.MD"), Some("sha")))
  {
    var p := "docs/notes.md";
    forall i | 0 <= i <= |p| ensures !OccursAt(p, EXCLUDED_DIRECTORY, i) {
      if i + |EXCLUDED_DIRECTORY| <= |p| {
        assert p[i..i + |EXCLUDED_DIRECTORY|][0] == p[i] != 'n';
      }
    }
    assert ".md" in ALLOWED_EXTENSIONS && HasSuffix(p, ".md");
    var q := "README.MD";
    forall ext | ext in ALLOWED_EXTENSIONS ensures !HasSuffix(q, ext) {
      assert ext[|ext| - 1] != 'D';
    }
  }

  /**
   * What `getRepoFiles` returns once both lookups succeed, whether or not the
   * tree was truncated: file k is the relevant entry at the k-th selected
   * position, carrying its own tree path and its decoded blob; the positions
   * increase; an entry is selected if and only if its blob fetch succeeded; so
   * there are never more files than relevant entries.
   */
  lemma RepoFilesContents(remote: Remote, owner: string, repo: string, branch: string, tree: Tree)
    requires remote.getDefaultBranch(owner, repo) == Ok(branch)
    requires remote.getTree(owner, repo, branch) == Ok(tree)
    ensures var rel := RelevantFiles(tree.entries);
            var idx := Selected(rel, Fetcher(remote, owner, repo));
            RepoFiles(remote, owner, repo).Ok? &&
            |idx| == |RepoFiles(remote, owner, repo).value| <= |rel| &&
            IncreasingBelow(idx, |rel|) &&
            (forall k :: 0 <= k < |idx| ==>
               rel[idx[k]].path.Some? &&
               remote.getBlob(owner, repo, rel[idx[k]].sha).Some? &&
               RepoFiles(remote, owner, repo).value[k] ==
                 FileContent(rel[idx[k]].path.value, remote.getBlob(owner, repo, rel[idx[k]].sha).value)) &&
            (forall i :: 0 <= i < |rel| ==> (i in idx <==> remote.getBlob(owner, repo, rel[i].sha).Some?))
  {
    var rel := RelevantFiles(tree.entries);
    var fetch := Fetcher(remote, owner, repo);
    var idx := Selected(rel, fetch);
    var files := FilterMap(rel, fetch);
    assert RepoFiles(remote, owner, repo) == Ok(files);
    FilterMapSelects(rel, fetch);
    RelevantFilesExactly(tree.entries);
    forall k | 0 <= k < |idx|
      ensures rel[idx[k]].path.Some? &&
              remote.getBlob(owner, repo, rel[idx[k]].sha).Some? &&
              files[k] == FileContent(rel[idx[k]].path.value, remote.getBlob(owner, repo, rel[idx[k]].sha).value)
    {
      var e := rel[idx[k]];
      assert fetch(e) == Some(files[k]);
      var s := Selected(tree.entries, KeepRelevant)[idx[k]];
      assert e == tree.entries[s];
    }
  }

  /**
   * A failed fetch drops only that file: removing the entry from the listing
   * changes nothing, so the job neither aborts nor loses any other file.
   */
  lemma FailedFetchDropsOnlyThatFile(remote: Remote, owner: string, repo: string, rel: seq<TreeEntry>, k: nat)
    requires k < |rel| && remote.getBlob(owner, repo, rel[k].sha).None?
    ensures FilterMap(rel[..k] + rel[k + 1..], Fetcher(remote, owner, repo)) == FilterMap(rel, Fetcher(remote, owner, repo))
  {
    FilterMapSkipsRejected(rel, Fetcher(remote, owner, repo), k);
  }

  /**
   * The slices the loop visits partition the relevant files: glued together
   * they give the files back in order, none is empty, none holds more than ten
   * files, and only the last may hold fewer.
   */
  lemma BatchesOfTen(relevantFiles: seq<TreeEntry>)
    ensures Flatten(Batches(relevantFiles, BATCH_SIZE)) == relevantFiles
    ensures forall k :: 0 <= k < |Batches(relevantFiles, BATCH_SIZE)| ==>
              0 < |Batches(relevantFiles, BATCH_SIZE)[k]| <= BATCH_SIZE
    ensures forall k :: 0 <= k < |Batches(relevantFiles, BATCH_SIZE)| - 1 ==>
              |Batches(relevantFiles, BATCH_SIZE)[k]| == BATCH_SIZE
  {
    BatchesCover(relevantFiles, BATCH_SIZE);
    BatchesSizes(relevantFiles, BATCH_SIZE);
  }
}
