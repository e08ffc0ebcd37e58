/**
 * The web directory scan: candidate paths (the wordlist, optionally expanded
 * with file extensions), the per-path decision taken on each HTTP response,
 * the worker's drain of the queue, and the resume selection of `run_dir_scan`.
 * The HTTP client is the parameter `fetch`, from the requested URL to its
 * outcome; the worker threads are one sequential drain of the queue.
 */
module WebDir {
  import opened Wrappers
  import opened Output
  import opened Config
  import opened Network
  import opened Wordlist

  // ---------------------------------------------------------- expansion

  /** A path followed by the path with each extension appended, in extension order. */
  function Variants(path: string, extensions: seq<string>): (r: seq<string>)
    ensures |r| == 1 + |extensions| && r[0] == path
    ensures forall j :: 0 <= j < |extensions| ==> r[j + 1] == path + extensions[j]
  {
    [path] + seq(|extensions|, j requires 0 <= j < |extensions| => path + extensions[j])
  }

  /** The variants of every path, path after path. */
  function Expanded(paths: seq<string>, extensions: seq<string>): seq<string> {
    if paths == [] then []
    else Expanded(paths[..|paths| - 1], extensions) + Variants(paths[|paths| - 1], extensions)
  }

  /** Each path contributes itself and one candidate per extension. */
  lemma {:induction false} ExpandedLength(paths: seq<string>, extensions: seq<string>)
    ensures |Expanded(paths, extensions)| == |paths| * (1 + |extensions|)
  {
    if paths != [] {
      var n, k := |paths| - 1, 1 + |extensions|;
      ExpandedLength(paths[..n], extensions);
      assert n * k + k == |paths| * k;
    }
  }

  /** Expanding two lists of paths one after the other expands each in turn. */
  lemma {:induction false} ExpandedAppend(a: seq<string>, b: seq<string>, extensions: seq<string>)
    ensures Expanded(a + b, extensions) == Expanded(a, extensions) + Expanded(b, extensions)
  {
    if b == [] {
      assert a + b == a;
    } else {
      var c := b[..|b| - 1];
      assert (a + b)[..|a + b| - 1] == a + c;
      ExpandedAppend(a, c, extensions);
      AppendAssoc(Expanded(a, extensions), Expanded(c, extensions), Variants(b[|b| - 1], extensions));
    }
  }

  /** The variants of the i-th path follow the expansion of the paths before it. */
  lemma ExpandedAtBlock(paths: seq<string>, extensions: seq<string>, i: nat, j: nat)
    requires i < |paths| && j <= |extensions|
    ensures |Expanded(paths[..i], extensions)| + j < |Expanded(paths, extensions)|
    ensures Expanded(paths, extensions)[|Expanded(paths[..i], extensions)| + j] == Variants(paths[i], extensions)[j]
  {
    assert paths == paths[..i + 1] + paths[i + 1..];
    ExpandedAppend(paths[..i + 1], paths[i + 1..], extensions);
    ExpandedSnoc(paths, extensions, i);
  }

  /**
   * Where each candidate sits: the i-th path at position i·(1+|extensions|),
   * followed by its j-th extended form at offset j+1 (see `Variants`).
   */
  lemma ExpandedAt(paths: seq<string>, extensions: seq<string>, i: nat, j: nat)
    requires i < |paths| && j <= |extensions|
    ensures i * (1 + |extensions|) + j < |Expanded(paths, extensions)|
    ensures Expanded(paths, extensions)[i * (1 + |extensions|) + j] == Variants(paths[i], extensions)[j]
  {
    var before := paths[..i];
    ExpandedAtBlock(paths, extensions, i, j);
    ExpandedLength(before, extensions);
    assert |before| == i;
    var off := |Expanded(before, extensions)|;
    assert off == i * (1 + |extensions|);
  }

  /**
   * `expand_paths_with_extensions`: the paths themselves when there are no
   * extensions, otherwise every path followed by its extended forms.
   */
  method ExpandPathsWithExtensions(paths: seq<string>, extensions: Option<seq<string>>)
    returns (expanded: seq<string>)
    ensures extensions.None? || extensions.value == [] ==> expanded == paths
    ensures extensions.Some? && extensions.value != [] ==> expanded == Expanded(paths, extensions.value)
  {
    if extensions.None? || extensions.value == [] {
      return paths;
    }
    var exts := extensions.value;
    expanded := [];
    var i := 0;
    while i < |paths|
      invariant 0 <= i <= |paths|
      invariant expanded == Expanded(paths[..i], exts)
    {
      ExpandedSnoc(paths, exts, i);
      expanded := AppendVariants(expanded, paths[i], exts);
      i := i + 1;
    }
    assert paths[..i] == paths;
  }

  /** The inner loop of `expand_paths_with_extensions`: the path, then the path with each extension. */
  method AppendVariants(expanded: seq<string>, path: string, exts: seq<string>) returns (r: seq<string>)
    ensures r == expanded + Variants(path, exts)
  {
    r := expanded + [path];
    VariantsSnoc(path, exts, 0);
    var j := 0;
    while j < |exts|
      invariant 0 <= j <= |exts|
      invariant r == expanded + Variants(path, exts[..j])
    {
      VariantsSnoc(path, exts, j + 1);
      AppendAssoc(expanded, Variants(path, exts[..j]), [path + exts[j]]);
      r := r + [path + exts[j]];
      j := j + 1;
    }
    assert exts[..j] == exts;
  }

  /** The variants of a path over the first j extensions, one extension at a time. */
  lemma VariantsSnoc(path: string, extensions: seq<string>, j: nat)
    requires j <= |extensions|
    ensures j == 0 ==> Variants(path, extensions[..j]) == [path]
    ensures j > 0 ==> Variants(path, extensions[..j]) == Variants(path, extensions[..j - 1]) + [path + extensions[j - 1]]
  {
    if j > 0 {
      var a, b := Variants(path, extensions[..j]), Variants(path, extensions[..j - 1]) + [path + extensions[j - 1]];
      assert |a| == |b|;
      forall k | 0 <= k < |a| ensures a[k] == b[k] {
        if 0 < k < j {
          assert extensions[..j][k - 1] == extensions[..j - 1][k - 1];
        }
      }
    }
  }

  lemma ExpandedSnoc(paths: seq<string>, extensions: seq<string>, i: nat)
    requires i < |paths|
    ensures Expanded(paths[..i + 1], extensions) == Expanded(paths[..i], extensions) + Variants(paths[i], extensions)
  {
    assert paths[..i + 1][..i] == paths[..i];
  }

  /** The candidates of a scan: the loaded wordlist, expanded when extensions are configured. */
  function DirCandidates(text: string, extensions: Option<seq<string>>): seq<string> {
    var paths := LoadWordlist(text);
    if extensions.Some? && extensions.value != [] then Expanded(paths, extensions.value) else paths
  }

  // ------------------------------------------------------------- decision

  /** `config.status_codes and code not in config.status_codes`: an unset or empty allow-list admits every code. */
  predicate FilteredOut(statusCodes: Option<seq<int>>, status: int) {
    statusCodes.Some? && statusCodes.value != [] && status !in statusCodes.value
  }

  /**
   * What one request for `base/path` adds to the results: nothing for a failed
   * request, a code outside the allow-list or a 404, and otherwise one web
   * result for the requested URL that records the final URL only when the
   * request was redirected elsewhere.
   */
  function DirProbe(baseUrl: string, path: string, statusCodes: Option<seq<int>>, outcome: HttpOutcome)
    : (r: seq<ScanResult>)
    ensures |r| <= 1
    ensures r != [] <==> outcome.Response? && !FilteredOut(statusCodes, outcome.status) && outcome.status != 404
    ensures r != [] ==>
      && r[0].WebHit?
      && r[0] == FormatWebResult(r[0].url, r[0].status, r[0].length, r[0].redirect)
      && r[0].url == baseUrl + "/" + path
      && r[0].status == outcome.status && r[0].length == outcome.contentLength
      && (r[0].redirect.Some? <==> outcome.finalUrl != r[0].url)
      && (r[0].redirect.Some? ==> r[0].redirect.value == outcome.finalUrl)
    ensures r != [] ==> r[0].status != 404
    ensures r != [] && statusCodes.Some? && statusCodes.value != [] ==> r[0].status in statusCodes.value
  {
    match outcome
    case RequestFailed(_) => []
    case Response(status, contentLength, finalUrl) =>
      var url := baseUrl + "/" + path;
      if FilteredOut(statusCodes, status) then []
      else if status == 404 then []
      else [FormatWebResult(url, status, contentLength, if finalUrl != url then Some(finalUrl) else None)]
  }

  /** The per-path decision with the client built in. */
  function PathProbe(baseUrl: string, statusCodes: Option<seq<int>>, fetch: string -> HttpOutcome)
    : string -> seq<ScanResult>
  {
    path => DirProbe(baseUrl, path, statusCodes, fetch(baseUrl + "/" + path))
  }

  // --------------------------------------------------------------- worker

  /**
   * `dir_worker`: every dequeued path is requested, its hit (if any) is
   * appended to the results and to the checkpoint, the path is marked
   * completed and the progress advances by exactly one, whatever the outcome.
   */
  method DirWorker(baseUrl: string, queue: seq<string>, results: seq<ScanResult>,
                   statusCodes: Option<seq<int>>, fetch: string -> HttpOutcome,
                   progress: ProgressBar, state: ScanState?)
    returns (found: seq<ScanResult>)
    modifies progress, state
    ensures found == results + Gathered(PathProbe(baseUrl, statusCodes, fetch), queue)
    ensures progress.current == old(progress.current) + |queue|
    ensures state != null ==>
      && state.foundResults == old(state.foundResults) + Gathered(PathProbe(baseUrl, statusCodes, fetch), queue)
      && state.completedItems == CompletedAfter(old(state.completedItems), queue)
  {
    ghost var current0 := progress.current;
    ghost var found0 := if state != null then state.foundResults else [];
    ghost var completed0 := if state != null then state.completedItems else [];
    found := results;
    var i := 0;
    while i < |queue|
      invariant 0 <= i <= |queue|
      invariant Drained(PathProbe(baseUrl, statusCodes, fetch), queue, i, results, found, current0, found0, completed0, progress, state)
    {
      found := DirStep(baseUrl, queue, i, statusCodes, fetch, results, found, current0, found0, completed0, progress, state);
      i := i + 1;
    }
    assert queue[..i] == queue;
  }

  /** The body of the `dir_worker` loop for the path at index `i` of the queue. */
  method DirStep(baseUrl: string, queue: seq<string>, i: int, statusCodes: Option<seq<int>>, fetch: string -> HttpOutcome,
                 results: seq<ScanResult>, found: seq<ScanResult>,
                 ghost current0: int, ghost found0: seq<ScanResult>, ghost completed0: seq<string>,
                 progress: ProgressBar, state: ScanState?)
    returns (found': seq<ScanResult>)
    requires 0 <= i < |queue|
    requires Drained(PathProbe(baseUrl, statusCodes, fetch), queue, i, results, found, current0, found0, completed0, progress, state)
    modifies progress, state
    ensures Drained(PathProbe(baseUrl, statusCodes, fetch), queue, i + 1, results, found', current0, found0, completed0, progress, state)
  {
    ghost var probe := PathProbe(baseUrl, statusCodes, fetch);
    var path := queue[i];
    GatheredStep(probe, queue, i);
    AppendAssoc(results, Gathered(probe, queue[..i]), probe(path));
    if state != null {
      CompletedAfterStep(completed0, queue, i);
      AppendAssoc(found0, Gathered(probe, queue[..i]), probe(path));
    }
    var fullUrl := baseUrl + "/" + path;
    var hits := DirProbe(baseUrl, path, statusCodes, fetch(fullUrl));
    found' := found;
    if hits != [] {
      assert hits == [hits[0]];
      found' := found' + [hits[0]];
      if state != null {
        state.AddResult(hits[0]);
      }
    }
    if state != null {
      state.MarkCompleted(path);
    }
    progress.Update(1);
  }

  // ----------------------------------------------------------------- scan

  /**
   * `run_dir_scan`. An unreadable wordlist ends the scan with no results.
   * Otherwise the candidates are resolved against the checkpoint (a loaded
   * state for module "dir" and the same target is resumed, anything else is
   * replaced by a fresh state) and drained. The checkpoint is never removed:
   * a state exists only when resuming, and the clean-up asks for a state
   * without resuming.
   */
  method RunDirScan(config: ScanConfig, wordlistText: Option<string>, loaded: ScanState?,
                    fetch: string -> HttpOutcome)
    returns (results: seq<ScanResult>, state: ScanState?, removedStateFile: bool)
    modifies loaded
    ensures !removedStateFile
    ensures wordlistText.None? ==> results == [] && state == null
    ensures !(wordlistText.Some? && config.resume && Matches(loaded, "dir", config.target)) ==>
      (loaded != null ==> unchanged(loaded))
    ensures wordlistText.Some? ==> (state != null <==> config.resume)
    ensures wordlistText.Some? && !config.resume ==>
      results == Gathered(PathProbe(config.target, config.statusCodes, fetch),
                          DirCandidates(wordlistText.value, config.extensions))
    ensures wordlistText.Some? && config.resume && Matches(loaded, "dir", config.target) ==>
      var rest := Remaining(DirCandidates(wordlistText.value, config.extensions), old(loaded.completedItems));
      && state == loaded
      && results == old(loaded.foundResults) + Gathered(PathProbe(config.target, config.statusCodes, fetch), rest)
      && state.foundResults == results
      && state.completedItems == CompletedAfter(old(loaded.completedItems), rest)
    ensures wordlistText.Some? && config.resume && !Matches(loaded, "dir", config.target) ==>
      var paths := DirCandidates(wordlistText.value, config.extensions);
      && fresh(state) && state.moduleName == "dir" && state.target == config.target
      && state.wordlist == config.wordlist && state.totalItems == |paths|
      && results == Gathered(PathProbe(config.target, config.statusCodes, fetch), paths)
      && state.foundResults == results
      && state.completedItems == CompletedAfter([], paths)
  {
    results, state, removedStateFile := [], null, false;
    if wordlistText.None? {
      return;
    }
    var paths := LoadWordlist(wordlistText.value);
    if config.extensions.Some? && config.extensions.value != [] {
      paths := ExpandPathsWithExtensions(paths, config.extensions);
    }
    results, state := ScanPaths(config, paths, loaded, fetch);
    removedStateFile := state != null && !config.resume;
  }

  /** The part of `run_dir_scan` after the candidates are built: resume, drain, finish the progress bar. */
  method ScanPaths(config: ScanConfig, paths: seq<string>, loaded: ScanState?, fetch: string -> HttpOutcome)
    returns (results: seq<ScanResult>, state: ScanState?)
    modifies loaded
    ensures state != null <==> config.resume
    ensures !(config.resume && Matches(loaded, "dir", config.target)) ==> (loaded != null ==> unchanged(loaded))
    ensures !config.resume ==> results == Gathered(PathProbe(config.target, config.statusCodes, fetch), paths)
    ensures config.resume && Matches(loaded, "dir", config.target) ==>
      var rest := Remaining(paths, old(loaded.completedItems));
      && state == loaded
      && results == old(loaded.foundResults) + Gathered(PathProbe(config.target, config.statusCodes, fetch), rest)
      && state.foundResults == results
      && state.completedItems == CompletedAfter(old(loaded.completedItems), rest)
    ensures config.resume && !Matches(loaded, "dir", config.target) ==>
      && fresh(state) && state.moduleName == "dir" && state.target == config.target
      && state.wordlist == config.wordlist && state.totalItems == |paths|
      && results == Gathered(PathProbe(config.target, config.statusCodes, fetch), paths)
      && state.foundResults == results
      && state.completedItems == CompletedAfter([], paths)
  {
    var scanPaths;
    state, scanPaths := ResolveResume(config.resume, loaded, "dir", config.target, config.wordlist, paths);
    results := [];
    if state != null {
      results := state.foundResults;
    }
    var progress := new ProgressBar(|scanPaths|, "Scanning", 40);
    results := DirWorker(config.target, scanPaths, results, config.statusCodes, fetch, progress, state);
    progress.Finish();
  }
}
