/**
 * The virtual-host scan: each prefix of the wordlist names the host
 * `prefix.base_host`, which is requested at the target with that Host header
 * and reported when the response differs from a baseline response of the
 * target. The HTTP client is the parameter `fetch`, from the Host header sent
 * to the outcome; the baseline request is the parameter `baselineOutcome`.
 */
module VHostEnum {
  import opened Wrappers
  import opened Output
  import opened Config
  import opened Network
  import opened Wordlist

  function Abs(x: int): nat { if x < 0 then -x else x }

  /** `get_baseline_response`: the status and body length of the target, or nothing if the request failed. */
  function Baseline(outcome: HttpOutcome): (r: Option<(int, int)>)
    ensures r.None? <==> outcome.RequestFailed?
    ensures r.Some? ==> r.value == (outcome.status, outcome.contentLength)
  {
    match outcome
    case RequestFailed(_) => None
    case Response(status, contentLength, _) => Some((status, contentLength))
  }

  /**
   * The hit test of `vhost_worker`: a status other than the baseline's, or a
   * body length more than 10% away from the baseline's; and never a 404.
   * The 10% comparison `|length − base| > base·0.1` is written over integers.
   */
  function IsHit(status: int, length: int, baseStatus: int, baseLength: int): (hit: bool)
    ensures status == 404 ==> !hit
    ensures status != baseStatus && status != 404 ==> hit
    ensures status == baseStatus && length == baseLength && baseLength >= 0 ==> !hit
    ensures status == baseStatus && status != 404 ==> (hit <==> 10 * Abs(length - baseLength) > baseLength)
  {
    var isDifferent := status != baseStatus || 10 * Abs(length - baseLength) > baseLength;
    isDifferent && status != 404
  }

  /** A length exactly 10% away with the same status is not a hit: the comparison is strict. */
  lemma ThresholdIsStrict(status: int, baseLength: nat)
    requires status != 404 && baseLength % 10 == 0
    ensures !IsHit(status, baseLength + baseLength / 10, status, baseLength)
    ensures !IsHit(status, baseLength - baseLength / 10, status, baseLength)
    ensures IsHit(status, baseLength + baseLength / 10 + 1, status, baseLength)
  {
  }

  /** What one response for the host `prefix.baseHost` adds to the results. */
  function VHostProbe(prefix: string, baseHost: string, baseStatus: int, baseLength: int, outcome: HttpOutcome)
    : (r: seq<ScanResult>)
    ensures |r| <= 1
    ensures r != [] <==> outcome.Response? && IsHit(outcome.status, outcome.contentLength, baseStatus, baseLength)
    ensures r != [] ==>
      && r[0].VHostHit?
      && r[0] == FormatVHostResult(r[0].vhost, r[0].status, r[0].length)
      && r[0].vhost == prefix + "." + baseHost
      && r[0].status == outcome.status && r[0].length == outcome.contentLength
      && r[0].status != 404
  {
    match outcome
    case RequestFailed(_) => []
    case Response(status, contentLength, _) =>
      if IsHit(status, contentLength, baseStatus, baseLength)
      then [FormatVHostResult(prefix + "." + baseHost, status, contentLength)]
      else []
  }

  /** The per-prefix decision with the client built in. */
  function HostProbe(baseHost: string, baseStatus: int, baseLength: int, fetch: string -> HttpOutcome)
    : string -> seq<ScanResult>
  {
    prefix => VHostProbe(prefix, baseHost, baseStatus, baseLength, fetch(prefix + "." + baseHost))
  }

  // --------------------------------------------------------------- worker

  /**
   * `vhost_worker`: every dequeued prefix is tried, its hit (if any) is
   * appended to the results and the checkpoint, the prefix is marked
   * completed and the progress advances by exactly one, whatever the outcome.
   */
  method VHostWorker(baseHost: string, queue: seq<string>, results: seq<ScanResult>, baseStatus: int, baseLength: int,
                     fetch: string -> HttpOutcome, progress: ProgressBar, state: ScanState?)
    returns (found: seq<ScanResult>)
    modifies progress, state
    ensures found == results + Gathered(HostProbe(baseHost, baseStatus, baseLength, fetch), queue)
    ensures progress.current == old(progress.current) + |queue|
    ensures state != null ==>
      && state.foundResults == old(state.foundResults) + Gathered(HostProbe(baseHost, baseStatus, baseLength, fetch), queue)
      && state.completedItems == CompletedAfter(old(state.completedItems), queue)
  {
    ghost var current0 := progress.current;
    ghost var found0 := if state != null then state.foundResults else [];
    ghost var completed0 := if state != null then state.completedItems else [];
    found := results;
    var i := 0;
    while i < |queue|
      invariant 0 <= i <= |queue|
      invariant Drained(HostProbe(baseHost, baseStatus, baseLength, fetch), queue, i, results, found, current0, found0, completed0, progress, state)
    {
      found := VHostStep(baseHost, queue, i, baseStatus, baseLength, fetch, results, found, current0, found0, completed0, progress, state);
      i := i + 1;
    }
    assert queue[..i] == queue;
  }

  /** The body of the `vhost_worker` loop for the prefix at index `i` of the queue. */
  method VHostStep(baseHost: string, queue: seq<string>, i: int, baseStatus: int, baseLength: int, fetch: string -> HttpOutcome,
                   results: seq<ScanResult>, found: seq<ScanResult>,
                   ghost current0: int, ghost found0: seq<ScanResult>, ghost completed0: seq<string>,
                   progress: ProgressBar, state: ScanState?)
    returns (found': seq<ScanResult>)
    requires 0 <= i < |queue|
    requires Drained(HostProbe(baseHost, baseStatus, baseLength, fetch), queue, i, results, found, current0, found0, completed0, progress, state)
    modifies progress, state
    ensures Drained(HostProbe(baseHost, baseStatus, baseLength, fetch), queue, i + 1, results, found', current0, found0, completed0, progress, state)
  {
    ghost var probe := HostProbe(baseHost, baseStatus, baseLength, fetch);
    var prefix := queue[i];
    GatheredStep(probe, queue, i);
    AppendAssoc(results, Gathered(probe, queue[..i]), probe(prefix));
    if state != null {
      CompletedAfterStep(completed0, queue, i);
      AppendAssoc(found0, Gathered(probe, queue[..i]), probe(prefix));
    }
    var vhost := prefix + "." + baseHost;
    var hits := VHostProbe(prefix, baseHost, baseStatus, baseLength, fetch(vhost));
    found' := found;
    if hits != [] {
      assert hits == [hits[0]];
      found' := found' + [hits[0]];
      if state != null {
        state.AddResult(hits[0]);
      }
    }
    if state != null {
      state.MarkCompleted(prefix);
    }
    progress.Update(1);
  }

  // ----------------------------------------------------------------- scan

  /** Whether `run_vhost_enum` gets past its three early exits. */
  predicate Proceeds(config: ScanConfig, wordlistText: Option<string>, baselineOutcome: HttpOutcome) {
    config.baseHost.Some? && config.baseHost.value != [] && wordlistText.Some? && baselineOutcome.Response?
  }

  /**
   * `run_vhost_enum`. A missing base host, an unreadable wordlist or a failed
   * baseline request ends the scan with no results before any candidate is
   * tried and before any checkpoint is touched. Otherwise the prefixes are
   * resolved against the checkpoint (module "vhost", same target) and drained.
   * This scan has no clean-up of the checkpoint file.
   */
  method RunVHostEnum(config: ScanConfig, wordlistText: Option<string>, baselineOutcome: HttpOutcome,
                      loaded: ScanState?, fetch: string -> HttpOutcome)
    returns (results: seq<ScanResult>, state: ScanState?)
    modifies loaded
    ensures !Proceeds(config, wordlistText, baselineOutcome) ==>
      results == [] && state == null && (loaded != null ==> unchanged(loaded))
    ensures Proceeds(config, wordlistText, baselineOutcome) ==> (state != null <==> config.resume)
    ensures !(Proceeds(config, wordlistText, baselineOutcome) && config.resume && Matches(loaded, "vhost", config.target)) ==>
      (loaded != null ==> unchanged(loaded))
    ensures Proceeds(config, wordlistText, baselineOutcome) && !config.resume ==>
      results == Gathered(HostProbe(config.baseHost.value, baselineOutcome.status, baselineOutcome.contentLength, fetch), LoadWordlist(wordlistText.value))
    ensures Proceeds(config, wordlistText, baselineOutcome) && config.resume && Matches(loaded, "vhost", config.target) ==>
      var rest := Remaining(LoadWordlist(wordlistText.value), old(loaded.completedItems));
      && state == loaded
      && results == old(loaded.foundResults) + Gathered(HostProbe(config.baseHost.value, baselineOutcome.status, baselineOutcome.contentLength, fetch), rest)
      && state.foundResults == results
      && state.completedItems == CompletedAfter(old(loaded.completedItems), rest)
    ensures Proceeds(config, wordlistText, baselineOutcome) && config.resume && !Matches(loaded, "vhost", config.target) ==>
      var prefixes := LoadWordlist(wordlistText.value);
      && fresh(state) && state.moduleName == "vhost" && state.target == config.target
      && state.wordlist == config.wordlist && state.totalItems == |prefixes|
      && results == Gathered(HostProbe(config.baseHost.value, baselineOutcome.status, baselineOutcome.contentLength, fetch), prefixes)
      && state.foundResults == results
      && state.completedItems == CompletedAfter([], prefixes)
  {
    results, state := [], null;
    if config.baseHost.None? || config.baseHost.value == [] {
      return;
    }
    var baseHost := config.baseHost.value;
    if wordlistText.None? {
      return;
    }
    var vhosts := LoadWordlist(wordlistText.value);
    var baseline := Baseline(baselineOutcome);
    if baseline.None? {
      return;
    }
    var (baseStatus, baseLength) := baseline.value;
    results, state := ScanVHosts(config, baseHost, vhosts, baseStatus, baseLength, loaded, fetch);
  }

  /** The part of `run_vhost_enum` after its early exits: resume, drain, finish the progress bar. */
  method ScanVHosts(config: ScanConfig, baseHost: string, vhosts: seq<string>, baseStatus: int, baseLength: int,
                    loaded: ScanState?, fetch: string -> HttpOutcome)
    returns (results: seq<ScanResult>, state: ScanState?)
    modifies loaded
    ensures state != null <==> config.resume
    ensures !(config.resume && Matches(loaded, "vhost", config.target)) ==> (loaded != null ==> unchanged(loaded))
    ensures !config.resume ==> results == Gathered(HostProbe(baseHost, baseStatus, baseLength, fetch), vhosts)
    ensures config.resume && Matches(loaded, "vhost", config.target) ==>
      var rest := Remaining(vhosts, old(loaded.completedItems));
      && state == loaded
      && results == old(loaded.foundResults) + Gathered(HostProbe(baseHost, baseStatus, baseLength, fetch), rest)
      && state.foundResults == results
      && state.completedItems == CompletedAfter(old(loaded.completedItems), rest)
    ensures config.resume && !Matches(loaded, "vhost", config.target) ==>
      && fresh(state) && state.moduleName == "vhost" && state.target == config.target
      && state.wordlist == config.wordlist && state.totalItems == |vhosts|
      && results == Gathered(HostProbe(baseHost, baseStatus, baseLength, fetch), vhosts)
      && state.foundResults == results
      && state.completedItems == CompletedAfter([], vhosts)
  {
    var scanVhosts;
    state, scanVhosts := ResolveResume(config.resume, loaded, "vhost", config.target, config.wordlist, vhosts);
    results := [];
    if state != null {
      results := state.foundResults;
    }
    var progress := new ProgressBar(|scanVhosts|, "Scanning", 40);
    results := VHostWorker(baseHost, scanVhosts, results, baseStatus, baseLength, fetch, progress, state);
    progress.Finish();
  }
}
