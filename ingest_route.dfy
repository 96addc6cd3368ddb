/**
 * The ingestion route of app/api/ingest-repo/route.ts: read `repoUrl`, find
 * the owner and repository name with the unanchored pattern
 * `github\.com\/([^\/]+)\/([^\/]+)`, remove the first `.git` from the name,
 * fetch the files, hand them to processing under the id `owner/repo`, and
 * map every outcome to an HTTP status and a JSON body.
 */
module IngestRoute {
  import opened Wrappers
  import opened Text
  import GitHub

  /** The literal part of the pattern before the first group. */
  const HOST: string := "github.com/"

  const MISSING_URL: string := "Missing repoUrl"
  const INVALID_URL: string := "Invalid GitHub URL"
  const INTERNAL_ERROR: string := "Internal Server Error"
  const PROCESSING_FAILED: string := "Processing failed: "

  /** A character other than `/`: what the class `[^\/]` accepts. */
  predicate SlashFree(s: string)
  {
    forall k :: 0 <= k < |s| ==> s[k] != '/'
  }

  /** A path segment as the pattern captures it: non-empty and slash-free. */
  predicate Segment(s: string)
  {
    s != "" && SlashFree(s)
  }

  /**
   * Where the greedy run `[^\/]*` starting at `i` stops: the first `/` at or
   * after `i`, or the end of the string.
   */
  function RunEnd(s: string, i: nat): (j: nat)
    requires i <= |s|
    ensures i <= j <= |s|
    decreases |s| - i
  {
    if i == |s| || s[i] == '/' then i else RunEnd(s, i + 1)
  }

  /** The run is slash-free and stops at a `/` or at the end. */
  lemma {:induction false} RunEndStops(s: string, i: nat)
    requires i <= |s|
    ensures forall k :: i <= k < RunEnd(s, i) ==> s[k] != '/'
    ensures RunEnd(s, i) == |s| || s[RunEnd(s, i)] == '/'
    decreases |s| - i
  {
    if i < |s| && s[i] != '/' {
      RunEndStops(s, i + 1);
    }
  }

  /** The two capture groups of a match. */
  datatype Captures = Captures(owner: string, repo: string)

  /** A match and the index where it starts. */
  datatype Found = Found(at: nat, caps: Captures)

  /**
   * The two groups read from the start of `rest`, the text after
   * `github.com/`. Each group is greedy and its class excludes `/`, so
   * backtracking never helps: group one is the whole slash-free run at the
   * start, which must be non-empty and followed by a `/`; group two is the
   * whole slash-free run after that `/`, non-empty.
   */
  function Groups(rest: string): Option<Captures>
  {
    var e1 := RunEnd(rest, 0);
    if 0 < e1 < |rest| then
      var e2 := RunEnd(rest, e1 + 1);
      if e1 + 1 < e2 then Some(Captures(rest[..e1], rest[e1 + 1..e2])) else None
    else None
  }

  /** The pattern anchored at the start of `t`: the literal `github.com/`, then the two groups. */
  function MatchHere(t: string): Option<Captures>
  {
    if |HOST| <= |t| && t[..|HOST|] == HOST then Groups(t[|HOST|..]) else None
  }

  /** The pattern tried at start index `p` of `s`; it looks only at `s[p..]`. */
  function MatchAt(s: string, p: nat): Option<Captures>
  {
    if p <= |s| then MatchHere(s[p..]) else None
  }

  /** What the groups are: the owner, `/`, the name, both segments, then a `/` or the end. */
  lemma GroupsShape(rest: string)
    requires Groups(rest).Some?
    ensures var m := Groups(rest).value;
            Segment(m.owner) && Segment(m.repo) &&
            HasPrefix(rest, m.owner + "/" + m.repo) &&
            (var e := |m.owner| + 1 + |m.repo|; e == |rest| || rest[e] == '/')
  {
    var e1 := RunEnd(rest, 0);
    var e2 := RunEnd(rest, e1 + 1);
    RunEndStops(rest, 0);
    RunEndStops(rest, e1 + 1);
    assert rest[..e2] == rest[..e1] + "/" + rest[e1 + 1..e2];
  }

  /** What an anchored match is: `github.com/`, the owner, `/`, the name, then a `/` or the end. */
  lemma MatchHereShape(t: string)
    requires MatchHere(t).Some?
    ensures var m := MatchHere(t).value;
            Segment(m.owner) && Segment(m.repo) &&
            HasPrefix(t, HOST + m.owner + "/" + m.repo) &&
            (var e := |HOST| + |m.owner| + 1 + |m.repo|; e == |t| || t[e] == '/')
  {
    var rest := t[|HOST|..];
    GroupsShape(rest);
    var m := Groups(rest).value;
    var w := m.owner + "/" + m.repo;
    PrefixThen(t, HOST, w);
    Concat4(HOST, m.owner, "/", m.repo);
    var e := |w|;
    if e < |rest| {
      assert t[|HOST| + e] == rest[e];
    }
  }

  /**
   * What a match is: at p the text reads `github.com/`, the owner, `/`, the
   * repository name, both non-empty segments, and the name runs up to a `/`
   * or to the end.
   */
  lemma MatchShape(s: string, p: nat)
    requires MatchAt(s, p).Some?
    ensures var m := MatchAt(s, p).value;
            Segment(m.owner) && Segment(m.repo) &&
            OccursAt(s, HOST + m.owner + "/" + m.repo, p) &&
            (var e := p + |HOST| + |m.owner| + 1 + |m.repo|; e == |s| || s[e] == '/')
  {
    var t := s[p..];
    MatchHereShape(t);
    var m := MatchHere(t).value;
    var w := HOST + m.owner + "/" + m.repo;
    assert s[p..p + |w|] == t[..|w|];
    if p + |w| < |s| {
      assert s[p + |w|] == t[|w|];
    }
  }

  /** `String.prototype.match` without the global flag: the leftmost start index at or after `p` where the pattern matches. */
  function MatchFrom(s: string, p: nat): Option<Found>
    decreases |s| - p
  {
    if p + |HOST| > |s| then None
    else
      match MatchAt(s, p)
      case Some(c) => Some(Found(p, c))
      case None => MatchFrom(s, p + 1)
  }

  /**
   * The search finds the leftmost match: where it stops the pattern matches,
   * at no index between its start and there does it match, and when it finds
   * nothing the pattern matches nowhere from its start on.
   */
  lemma {:induction false} MatchFromLeftmost(s: string, p: nat)
    ensures var r := MatchFrom(s, p);
            (r.Some? ==> p <= r.value.at && MatchAt(s, r.value.at) == Some(r.value.caps)) &&
            (r.Some? ==> forall q :: p <= q < r.value.at ==> MatchAt(s, q).None?) &&
            (r.None? ==> forall q: nat :: p <= q ==> MatchAt(s, q).None?)
    decreases |s| - p
  {
    if p + |HOST| > |s| {
      forall q: nat | p <= q ensures MatchAt(s, q).None? {
        if q <= |s| {
          assert |s[q..]| < |HOST|;
        }
      }
    } else if MatchAt(s, p).None? {
      MatchFromLeftmost(s, p + 1);
    }
  }

  /** `repoUrl.match(/github\.com\/([^\/]+)\/([^\/]+)/)` */
  function Match(s: string): Option<Found>
  {
    MatchFrom(s, 0)
  }

  /** `match[2].replace('.git', '')`: the FIRST `.git`, wherever it is, is removed. */
  function StripGit(name: string): (r: string)
    ensures SlashFree(name) ==> SlashFree(r)
    ensures !Contains(name, ".git") ==> r == name
    ensures Contains(name, ".git") ==> |r| == |name| - 4
  {
    var r := ReplaceFirst(name, ".git", "");
    assert forall c :: c in r ==> c in name;
    r
  }

  /** The owner and the repository name the route works with. */
  datatype RepoRef = RepoRef(owner: string, repo: string)

  /**
   * Lines 9-23: the URL check and the extraction. A missing or empty
   * `repoUrl` (falsy) and a URL without a match are the two error outcomes.
   */
  function ParseRepoUrl(repoUrl: Option<string>): (r: Result<RepoRef, string>)
    ensures r == Err(MISSING_URL) <==> repoUrl.None? || repoUrl.value == ""
    ensures r == Err(INVALID_URL) <==>
              repoUrl.Some? && repoUrl.value != "" && forall p: nat :: MatchAt(repoUrl.value, p).None?
    ensures r.Err? ==> r.error in {MISSING_URL, INVALID_URL}
    ensures r.Ok? ==> Segment(r.value.owner) && SlashFree(r.value.repo)
  {
    match repoUrl
    case None => Err(MISSING_URL)
    case Some(url) =>
      if url == "" then Err(MISSING_URL)
      else
        MatchFromLeftmost(url, 0);
        match Match(url)
        case None => Err(INVALID_URL)
        case Some(found) =>
          MatchShape(url, found.at);
          Ok(RepoRef(found.caps.owner, StripGit(found.caps.repo)))
  }

  /** `${owner}/${repo}`: the repository id handed to processing. */
  function RepoId(r: RepoRef): string
  {
    r.owner + "/" + r.repo
  }

  /** Reading an id back: the owner is everything before the first `/`. */
  function SplitRepoId(id: string): Option<RepoRef>
  {
    match IndexOf(id, "/")
    case None => None
    case Some(i) => Some(RepoRef(id[..i], id[i + 1..]))
  }

  /** The body of a JSON response: an error message, or the success flag and a message. */
  datatype Body = ErrorBody(error: string) | SuccessBody(success: bool, message: string)

  datatype Response = Response(status: nat, body: Body)

  /**
   * What one request does: the response, the owner/repo the files were
   * fetched for (if a fetch happened) and the id processing was called with
   * (if it was called).
   */
  datatype Outcome = Outcome(response: Response, fetched: Option<RepoRef>, processed: Option<string>)

  /** `error.message || 'Internal Server Error'` */
  function ErrorMessage(message: string): string
  {
    if message == "" then INTERNAL_ERROR else message
  }

  /** `Ingested ${chunkCount} chunks` */
  function IngestedMessage(chunkCount: nat): string
  {
    "Ingested " + DecimalString(chunkCount) + " chunks"
  }

  /**
   * `POST` with `getRepoFiles` as modelled in `GitHub.RepoFiles` and
   * `processAndStoreRepo` as the parameter `process` (the id and the files in,
   * the number of stored chunks or an error message out).
   */
  function Post(repoUrl: Option<string>, remote: GitHub.Remote,
                process: (string, seq<GitHub.FileContent>) -> Result<nat, string>): (o: Outcome)
    ensures ParseRepoUrl(repoUrl).Err? ==>
              o == Outcome(Response(400, ErrorBody(ParseRepoUrl(repoUrl).error)), None, None)
    ensures ParseRepoUrl(repoUrl).Ok? ==> o.fetched == Some(ParseRepoUrl(repoUrl).value)
    ensures o.processed.Some? ==> o.fetched.Some? && o.processed.value == RepoId(o.fetched.value)
    ensures o.response.status == 200 ==> o.processed.Some?
    ensures o.response.status in {200, 400, 500}
  {
    match ParseRepoUrl(repoUrl)
    case Err(e) => Outcome(Response(400, ErrorBody(e)), None, None)
    case Ok(ref) =>
      match GitHub.RepoFiles(remote, ref.owner, ref.repo)
      case Err(e) => Outcome(Response(500, ErrorBody(ErrorMessage(e))), Some(ref), None)
      case Ok(files) =>
        var id := RepoId(ref);
        match process(id, files)
        case Ok(chunkCount) =>
          Outcome(Response(200, SuccessBody(true, IngestedMessage(chunkCount))), Some(ref), Some(id))
        case Err(e) =>
          Outcome(Response(500, ErrorBody(ErrorMessage(PROCESSING_FAILED + e))), Some(ref), Some(id))
  }

  // ---------------------------------------------------------------------------
  // Properties of the pattern match

  /** A run of non-`/` characters ending at a `/` or at the end is exactly where `RunEnd` stops. */
  lemma RunEndAt(s: string, i: nat, j: nat)
    requires i <= j <= |s|
    requires forall k :: i <= k < j ==> s[k] != '/'
    requires j == |s| || s[j] == '/'
    ensures RunEnd(s, i) == j
    decreases j - i
  {
    if i < j {
      RunEndAt(s, i + 1, j);
    }
  }

  /**
   * The converse of `GroupsShape`: a text that starts with `a/b`, with
   * segments a and b and b followed by a `/` or the end, yields exactly those
   * groups.
   */
  lemma GroupsWhere(rest: string, a: string, b: string)
    requires Segment(a) && Segment(b)
    requires HasPrefix(rest, a + "/" + b)
    requires var e := |a| + 1 + |b|; e == |rest| || rest[e] == '/'
    ensures Groups(rest) == Some(Captures(a, b))
  {
    var tail := a + "/" + b;
    assert rest[..|tail|] == tail;
    forall k | 0 <= k < |a| ensures rest[k] != '/' {
      assert rest[k] == tail[k] == a[k];
    }
    assert rest[|a|] == tail[|a|] == '/';
    RunEndAt(rest, 0, |a|);
    assert rest[..|a|] == tail[..|a|] == a;
    var e2 := |a| + 1 + |b|;
    forall k | |a| + 1 <= k < e2 ensures rest[k] != '/' {
      assert rest[k] == tail[k] == b[k - |a| - 1];
    }
    RunEndAt(rest, |a| + 1, e2);
    assert rest[|a| + 1..e2] == tail[|a| + 1..] == b;
  }

  /**
   * The converse of `MatchHereShape`: a text that starts with
   * `github.com/a/b`, with segments a and b and b followed by a `/` or the
   * end, matches with exactly those groups.
   */
  lemma MatchHereWhere(t: string, a: string, b: string)
    requires Segment(a) && Segment(b)
    requires HasPrefix(t, HOST + a + "/" + b)
    requires var e := |HOST| + |a| + 1 + |b|; e == |t| || t[e] == '/'
    ensures MatchHere(t) == Some(Captures(a, b))
  {
    var tail := a + "/" + b;
    Concat4(HOST, a, "/", b);
    PrefixSplit(t, HOST, tail);
    var rest := t[|HOST|..];
    if |tail| < |rest| {
      assert rest[|tail|] == t[|HOST| + |tail|];
    }
    GroupsWhere(rest, a, b);
  }

  /**
   * The converse of `MatchShape`: wherever `github.com/a/b` occurs with
   * segments a and b, and b runs up to a `/` or the end, the pattern matches
   * at that index with groups a and b.
   */
  lemma MatchesWhereShapeOccurs(s: string, p: nat, a: string, b: string)
    requires Segment(a) && Segment(b)
    requires OccursAt(s, HOST + a + "/" + b, p)
    requires var e := p + |HOST| + |a| + 1 + |b|; e == |s| || s[e] == '/'
    ensures MatchAt(s, p) == Some(Captures(a, b))
  {
    var t := s[p..];
    var w := HOST + a + "/" + b;
    assert t[..|w|] == s[p..p + |w|];
    if p + |w| < |s| {
      assert t[|w|] == s[p + |w|];
    }
    MatchHereWhere(t, a, b);
  }

  /**
   * The leftmost occurrence decides: if `github.com/a/b` occurs at p, with b a
   * maximal segment and no match starting before p, then the route works on
   * owner a and repository `StripGit(b)`.
   */
  lemma ParseLeftmost(url: string, p: nat, a: string, b: string)
    requires Segment(a) && Segment(b)
    requires OccursAt(url, HOST + a + "/" + b, p)
    requires var e := p + |HOST| + |a| + 1 + |b|; e == |url| || url[e] == '/'
    requires forall q :: 0 <= q < p ==> MatchAt(url, q).None?
    ensures ParseRepoUrl(Some(url)) == Ok(RepoRef(a, StripGit(b)))
  {
    MatchesWhereShapeOccurs(url, p, a, b);
    MatchFromLeftmost(url, 0);
    var f := Match(url);
    assert f.Some? && f.value.at <= p;
    assert f.value.at == p;
  }

  /** A match starts with `g`, so no match can start inside a prefix without a `g`. */
  lemma NoMatchInside(pre: string, s: string, q: nat)
    requires 'g' !in pre && q < |pre|
    ensures MatchAt(pre + s, q).None?
  {
    var t := (pre + s)[q..];
    assert t[0] == pre[q] != 'g';
    if |HOST| <= |t| {
      assert t[..|HOST|][0] != HOST[0];
    }
  }

  /** The pattern at index `d + k` of a text whose suffix from `d` is `s` is the pattern at index k of `s`. */
  lemma MatchAtShift(u: string, s: string, d: nat, k: nat)
    requires d <= |u| && u[d..] == s
    ensures MatchAt(u, d + k) == MatchAt(s, k)
  {
    if k <= |s| {
      assert u[d + k..] == s[k..];
    }
  }

  /** The leftmost match decides: a match at p with none before it is what the search returns. */
  lemma LeftmostMatch(s: string, p: nat, c: Captures)
    requires MatchAt(s, p) == Some(c)
    requires forall q :: 0 <= q < p ==> MatchAt(s, q).None?
    ensures Match(s) == Some(Found(p, c))
  {
    MatchFromLeftmost(s, 0);
    var f := Match(s);
    assert f.Some? && f.value.at <= p;
    assert f.value.at == p;
  }

  /** A text where the pattern matches nowhere has no match. */
  lemma NoMatchAnywhere(s: string)
    requires forall q: nat :: MatchAt(s, q).None?
    ensures Match(s).None?
  {
    MatchFromLeftmost(s, 0);
  }

  /** A text whose suffix from `d` has no match, with no match before `d`, has none. */
  lemma NoMatchAfter(u: string, s: string, d: nat)
    requires d <= |u| && u[d..] == s
    requires forall q :: 0 <= q < d ==> MatchAt(u, q).None?
    requires forall q: nat :: MatchAt(s, q).None?
    ensures Match(u).None?
  {
    forall k: nat | d <= k ensures MatchAt(u, k).None? {
      MatchAtShift(u, s, d, k - d);
    }
    NoMatchAnywhere(u);
  }

  /** A text whose suffix from `d` matches first at p, with no match before `d`, matches first at `d + p`. */
  lemma FirstMatchAfter(u: string, s: string, d: nat, p: nat, c: Captures)
    requires d <= |u| && u[d..] == s
    requires forall q :: 0 <= q < d ==> MatchAt(u, q).None?
    requires MatchAt(s, p) == Some(c) && forall q :: 0 <= q < p ==> MatchAt(s, q).None?
    ensures Match(u) == Some(Found(d + p, c))
  {
    forall k | d <= k < d + p ensures MatchAt(u, k).None? {
      MatchAtShift(u, s, d, k - d);
    }
    MatchAtShift(u, s, d, p);
    LeftmostMatch(u, d + p, c);
  }

  /**
   * The match is unanchored: a scheme or host prefix such as `https://` or
   * `https://www.` (anything without a `g`) changes nothing.
   */
  lemma IgnoresPrefix(pre: string, url: string)
    requires 'g' !in pre && url != ""
    ensures ParseRepoUrl(Some(pre + url)) == ParseRepoUrl(Some(url))
  {
    var u := pre + url;
    assert u[|pre|..] == url;
    forall q | 0 <= q < |pre| ensures MatchAt(u, q).None? {
      NoMatchInside(pre, url, q);
    }
    MatchFromLeftmost(url, 0);
    match Match(url)
    case None => NoMatchAfter(u, url, |pre|);
    case Some(f) => FirstMatchAfter(u, url, |pre|, f.at, f.caps);
  }

  /** Appending text that starts with `/` ends no run early and lengthens none. */
  lemma {:induction false} RunEndExtend(s: string, t: string, i: nat)
    requires i <= |s|
    ensures RunEnd(s + "/" + t, i) == RunEnd(s, i)
    decreases |s| - i
  {
    var u := s + "/" + t;
    if i < |s| {
      assert u[i] == s[i];
      if s[i] != '/' {
        RunEndExtend(s, t, i + 1);
      }
    } else {
      assert u[i] == '/';
    }
  }

  /**
   * A trailing path after the repository segment is ignored: once `url` has a
   * match, appending `/` and anything after it leaves the outcome unchanged.
   */
  lemma IgnoresTrailingPath(url: string, t: string)
    requires Match(url).Some?
    ensures ParseRepoUrl(Some(url + "/" + t)) == ParseRepoUrl(Some(url))
  {
    var u := url + "/" + t;
    var f := Match(url).value;
    var p := f.at;
    var a := f.caps.owner;
    var b := f.caps.repo;
    MatchFromLeftmost(url, 0);
    MatchShape(url, p);
    assert u[..|url|] == url;
    assert OccursAt(u, HOST + a + "/" + b, p) by {
      assert u[p..p + |HOST + a + "/" + b|] == url[p..p + |HOST + a + "/" + b|];
    }
    var e := p + |HOST| + |a| + 1 + |b|;
    assert e == |u| || u[e] == '/' by {
      if e < |url| { assert u[e] == url[e]; } else { assert u[e] == '/'; }
    }
    forall q | 0 <= q < p ensures MatchAt(u, q).None? {
      EarlierStaysUnmatched(url, t, q, p);
    }
    ParseLeftmost(u, p, a, b);
    ParseLeftmost(url, p, a, b);
  }

  /**
   * Appending `/` and more text to a text that has a `/` somewhere changes
   * no groups: the first group cannot reach the end, and the second group
   * stops at the appended `/` where it stopped at the end before.
   */
  lemma GroupsExtend(rest: string, t: string, d: nat)
    requires d < |rest| && rest[d] == '/'
    ensures Groups(rest + "/" + t) == Groups(rest)
  {
    var y := rest + "/" + t;
    RunEndExtend(rest, t, 0);
    var e1 := RunEnd(rest, 0);
    RunEndStops(rest, 0);
    assert e1 <= d;
    if 0 < e1 {
      RunEndExtend(rest, t, e1 + 1);
      var e2 := RunEnd(rest, e1 + 1);
      assert y[..e1] == rest[..e1];
      assert y[e1 + 1..e2] == rest[e1 + 1..e2];
    }
  }

  /**
   * Appending `/` and more text to a text that has a `/` past `github.com/`
   * changes no anchored match.
   */
  lemma MatchHereExtend(x: string, t: string, d: nat)
    requires |HOST| <= d < |x| && x[d] == '/'
    ensures MatchHere(x + "/" + t) == MatchHere(x)
  {
    var y := x + "/" + t;
    assert y[..|HOST|] == x[..|HOST|];
    var rest := x[|HOST|..];
    assert y[|HOST|..] == rest + "/" + t;
    assert rest[d - |HOST|] == '/';
    GroupsExtend(rest, t, d - |HOST|);
  }

  /**
   * Before the leftmost match of `url`, appending `/` and more text creates no
   * new match: a run that could now reach the new `/` would have to swallow
   * the `/` of `github.com/` at the leftmost match.
   */
  lemma EarlierStaysUnmatched(url: string, t: string, q: nat, p: nat)
    requires MatchAt(url, p).Some? && q < p
    ensures MatchAt(url + "/" + t, q) == MatchAt(url, q)
  {
    MatchShape(url, p);
    var m := MatchAt(url, p).value;
    var w := HOST + m.owner + "/" + m.repo;
    assert url[p..p + |w|] == w;
    assert url[p + |HOST| - 1] == w[|HOST| - 1] == '/';
    var x := url[q..];
    assert (url + "/" + t)[q..] == x + "/" + t;
    MatchHereExtend(x, t, p - q + |HOST| - 1);
  }

  // ---------------------------------------------------------------------------
  // Properties of the extracted names and of the route

  /** `.git` is removed wherever it first occurs, not only as a suffix; a name may become empty. */
  lemma StripGitAnywhere()
    ensures StripGit("repo.git") == "repo"
    ensures StripGit("user.github.io") == "userhub.io"
    ensures StripGit(".git") == ""
    ensures StripGit("repo") == "repo"
  {
    FirstGitAt("repo.git", 4);
    assert "repo.git"[..4] + "" + "repo.git"[8..] == "repo";
    FirstGitAt("user.github.io", 4);
    assert "user.github.io"[..4] + "" + "user.github.io"[8..] == "userhub.io";
    FirstGitAt(".git", 0);
    assert !OccursAt("repo", ".git", 0) by {
      assert "repo"[0] != ".git"[0];
    }
  }

  /** `.git` occurs at i and at no earlier index (it cannot start before a `.` ). */
  lemma FirstGitAt(name: string, i: nat)
    requires i + 4 <= |name| && name[i..i + 4] == ".git"
    requires forall j :: 0 <= j < i ==> name[j] != '.'
    ensures OccursAt(name, ".git", i)
    ensures forall j :: 0 <= j < i ==> !OccursAt(name, ".git", j)
  {
    forall j | 0 <= j < i ensures !OccursAt(name, ".git", j) {
      if j + 4 <= |name| {
        assert name[j..j + 4][0] == name[j];
      }
    }
  }

  /** The id splits back into the owner and the repository name, because the owner has no `/`. */
  lemma RepoIdRoundTrip(r: RepoRef)
    requires SlashFree(r.owner)
    ensures SplitRepoId(RepoId(r)) == Some(r)
  {
    var id := RepoId(r);
    assert OccursAt(id, "/", |r.owner|);
    forall j | 0 <= j < |r.owner| ensures !OccursAt(id, "/", j) {
      assert id[j] == r.owner[j];
    }
    assert id[..|r.owner|] == r.owner;
    assert id[|r.owner| + 1..] == r.repo;
  }

  /** The chunk count can be read back from the success message. */
  lemma IngestedMessageCount(chunkCount: nat)
    ensures var msg := IngestedMessage(chunkCount);
            |msg| > 16 && HasPrefix(msg, "Ingested ") && HasSuffix(msg, " chunks") &&
            AllDigits(msg[9..|msg| - 7]) && DecimalValue(msg[9..|msg| - 7]) == chunkCount
  {
    var msg := IngestedMessage(chunkCount);
    assert msg[9..|msg| - 7] == DecimalString(chunkCount);
    DecimalRoundTrip(chunkCount);
  }

  /**
   * The outcomes of a request: a 400 with no fetch for a missing or unusable
   * URL; a 500 carrying the fetch error (or the fallback message) when the
   * file fetch fails, with no processing; otherwise processing of exactly
   * `owner/repo`, answered with `Ingested n chunks`, or a 500 whose message is
   * the processing error behind `Processing failed: `.
   */
  lemma PostOutcomes(repoUrl: Option<string>, remote: GitHub.Remote,
                     process: (string, seq<GitHub.FileContent>) -> Result<nat, string>)
    ensures var o := Post(repoUrl, remote, process);
            (repoUrl.None? || repoUrl == Some("") ==>
               o.response == Response(400, ErrorBody(MISSING_URL)) && o.fetched.None?) &&
            (repoUrl.Some? && repoUrl.value != "" && Match(repoUrl.value).None? ==>
               o.response == Response(400, ErrorBody(INVALID_URL)) && o.fetched.None?)
    ensures var o := Post(repoUrl, remote, process);
            ParseRepoUrl(repoUrl).Ok? ==>
              var ref := ParseRepoUrl(repoUrl).value;
              var files := GitHub.RepoFiles(remote, ref.owner, ref.repo);
              (files.Err? ==> o.response == Response(500, ErrorBody(ErrorMessage(files.error))) && o.processed.None?) &&
              (files.Ok? ==>
                 o.processed == Some(ref.owner + "/" + ref.repo) &&
                 SplitRepoId(o.processed.value) == Some(ref) &&
                 (match process(ref.owner + "/" + ref.repo, files.value)
                  case Ok(n) => o.response == Response(200, SuccessBody(true, IngestedMessage(n)))
                  case Err(e) => o.response == Response(500, ErrorBody(PROCESSING_FAILED + e))))
  {
    var o := Post(repoUrl, remote, process);
    if repoUrl.Some? && repoUrl.value != "" && Match(repoUrl.value).None? {
      assert ParseRepoUrl(repoUrl) == Err(INVALID_URL);
    }
    if ParseRepoUrl(repoUrl).Ok? {
      RepoIdRoundTrip(ParseRepoUrl(repoUrl).value);
    }
  }
}
