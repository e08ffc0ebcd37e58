/**
 * The DNS scan: each word of the wordlist names the host `word.target`, which
 * is queried once per configured record type; every answer becomes one DNS
 * record result. The resolver is the parameter `resolve`, from a host name
 * and a record type to the outcome of that query.
 */
module DnsEnum {
  import opened Wrappers
  import opened Output
  import opened Config
  import opened Network
  import opened Wordlist

  // -------------------------------------------------------------- records

  /** One record per answer, in the order the resolver gave them, each formatted by `format_dns_result`. */
  function AnswerRecords(full: string, recordType: string, values: seq<string>): (r: seq<ScanResult>)
    ensures |r| == |values|
  {
    if values == [] then []
    else AnswerRecords(full, recordType, values[..|values| - 1]) + [FormatDnsResult(full, recordType, values[|values| - 1])]
  }

  /** The k-th record of a query is its k-th answer, tagged with the host and the record type. */
  lemma {:induction false} AnswerRecordAt(full: string, recordType: string, values: seq<string>, k: int)
    requires 0 <= k < |values|
    ensures var r := AnswerRecords(full, recordType, values)[k];
      && r.DnsRecord? && r.subdomain == full && r.recordType == recordType && r.value == values[k]
      && r == FormatDnsResult(full, recordType, values[k])
    decreases |values|
  {
    if k < |values| - 1 {
      AnswerRecordAt(full, recordType, values[..|values| - 1], k);
    }
  }

  lemma AnswerRecordsStep(full: string, recordType: string, values: seq<string>, k: int)
    requires 0 <= k < |values|
    ensures AnswerRecords(full, recordType, values[..k + 1])
         == AnswerRecords(full, recordType, values[..k]) + [FormatDnsResult(full, recordType, values[k])]
  {
    assert values[..k + 1][..k] == values[..k];
  }

  /**
   * What one query adds to the results: its answer records; nothing at all
   * when the query raised, whichever resolver exception it was.
   */
  function TypeRecords(full: string, recordType: string, outcome: DnsOutcome): (r: seq<ScanResult>)
    ensures outcome.ResolveFailed? ==> r == []
    ensures outcome.Answers? ==> |r| == |outcome.values|
  {
    match outcome
    case ResolveFailed(_) => []
    case Answers(values) => AnswerRecords(full, recordType, values)
  }

  /** Every record type queried for the host `full`, one after the other, in the configured order. */
  function Records(full: string, types: seq<string>, resolve: (string, string) -> DnsOutcome): seq<ScanResult> {
    if types == [] then []
    else Records(full, types[..|types| - 1], resolve) + TypeRecords(full, types[|types| - 1], resolve(full, types[|types| - 1]))
  }

  lemma RecordsSnoc(full: string, types: seq<string>, t: string, resolve: (string, string) -> DnsOutcome)
    ensures Records(full, types + [t], resolve) == Records(full, types, resolve) + TypeRecords(full, t, resolve(full, t))
  {
    assert (types + [t])[..|types|] == types;
  }

  /** One more record type of the list queried: the records of the one at index `i` are appended. */
  lemma RecordsStep(full: string, types: seq<string>, i: int, resolve: (string, string) -> DnsOutcome)
    requires 0 <= i < |types|
    ensures Records(full, types[..i + 1], resolve) == Records(full, types[..i], resolve) + TypeRecords(full, types[i], resolve(full, types[i]))
  {
    assert types[..i + 1][..i] == types[..i];
  }

  /** Querying two lists of record types one after the other gathers their records one after the other. */
  lemma {:induction false} RecordsAppend(full: string, a: seq<string>, b: seq<string>, resolve: (string, string) -> DnsOutcome)
    ensures Records(full, a + b, resolve) == Records(full, a, resolve) + Records(full, b, resolve)
    decreases |b|
  {
    if b == [] {
      assert a + b == a;
    } else {
      var init, t := b[..|b| - 1], b[|b| - 1];
      assert b == init + [t];
      assert a + b == (a + init) + [t];
      calc {
        Records(full, a + b, resolve);
        { RecordsSnoc(full, a + init, t, resolve); }
        Records(full, a + init, resolve) + TypeRecords(full, t, resolve(full, t));
        { RecordsAppend(full, a, init, resolve); }
        Records(full, a, resolve) + Records(full, init, resolve) + TypeRecords(full, t, resolve(full, t));
        { AppendAssoc(Records(full, a, resolve), Records(full, init, resolve), TypeRecords(full, t, resolve(full, t)));
          RecordsSnoc(full, init, t, resolve); }
        Records(full, a, resolve) + Records(full, b, resolve);
      }
    }
  }

  /**
   * A record type whose query raises contributes nothing and does not stop
   * the other record types of the same host from being queried.
   */
  lemma FailureSkipsOnlyThatType(full: string, a: seq<string>, t: string, b: seq<string>,
                                 resolve: (string, string) -> DnsOutcome)
    requires resolve(full, t).ResolveFailed?
    ensures Records(full, a + [t] + b, resolve) == Records(full, a, resolve) + Records(full, b, resolve)
  {
    RecordsAppend(full, a + [t], b, resolve);
    RecordsSnoc(full, a, t, resolve);
  }

  /** The number of answers the resolver gives for the host over the record types, failures counting zero. */
  function AnswerCount(full: string, types: seq<string>, resolve: (string, string) -> DnsOutcome): nat {
    if types == [] then 0
    else
      var outcome := resolve(full, types[|types| - 1]);
      AnswerCount(full, types[..|types| - 1], resolve) + (if outcome.Answers? then |outcome.values| else 0)
  }

  /** One record per answer: the host's records are exactly as many as its answers. */
  lemma {:induction false} RecordsCount(full: string, types: seq<string>, resolve: (string, string) -> DnsOutcome)
    ensures |Records(full, types, resolve)| == AnswerCount(full, types, resolve)
    decreases |types|
  {
    if types != [] {
      RecordsCount(full, types[..|types| - 1], resolve);
    }
  }

  /** Every record of a host names that host and one of the queried record types. */
  lemma {:induction false} RecordsShape(full: string, types: seq<string>, resolve: (string, string) -> DnsOutcome)
    ensures forall r :: r in Records(full, types, resolve) ==>
      r.DnsRecord? && r.subdomain == full && r.recordType in types
    decreases |types|
  {
    if types != [] {
      var init, t := types[..|types| - 1], types[|types| - 1];
      RecordsShape(full, init, resolve);
      var recs := TypeRecords(full, t, resolve(full, t));
      forall r | r in Records(full, types, resolve)
        ensures r.DnsRecord? && r.subdomain == full && r.recordType in types
      {
        if r in Records(full, init, resolve) {
          assert r.recordType in init;
          assert init <= types;
        } else {
          assert r in recs;
          var k :| 0 <= k < |recs| && recs[k] == r;
          AnswerRecordAt(full, t, resolve(full, t).values, k);
        }
      }
    }
  }

  /** The per-word work of `dns_worker` with the resolver built in: every record of `word.target`. */
  function SubdomainProbe(target: string, types: seq<string>, resolve: (string, string) -> DnsOutcome)
    : string -> seq<ScanResult>
  {
    sub => Records(sub + "." + target, types, resolve)
  }

  /** Every result a drained queue gathers is a record of one of its words under the target. */
  lemma {:induction false} GatheredShape(target: string, types: seq<string>, resolve: (string, string) -> DnsOutcome,
                                         subs: seq<string>)
    ensures forall r :: r in Gathered(SubdomainProbe(target, types, resolve), subs) ==>
      && r.DnsRecord? && r.recordType in types
      && exists s :: s in subs && r.subdomain == s + "." + target
    decreases |subs|
  {
    var probe := SubdomainProbe(target, types, resolve);
    if subs != [] {
      var init, s := subs[..|subs| - 1], subs[|subs| - 1];
      GatheredShape(target, types, resolve, init);
      RecordsShape(s + "." + target, types, resolve);
      forall r | r in Gathered(probe, subs)
        ensures && r.DnsRecord? && r.recordType in types
                && exists s' :: s' in subs && r.subdomain == s' + "." + target
      {
        assert init <= subs;
        if r in Gathered(probe, init) {
          var s' :| s' in init && r.subdomain == s' + "." + target;
          assert s' in subs;
        } else {
          assert r in Records(s + "." + target, types, resolve);
          assert s in subs;
        }
      }
    }
  }

  // ------------------------------------------------------- unique hosts

  /** The distinct host names of the DNS records among the results (`set(r['subdomain'] for r in results)`). */
  function Subdomains(results: seq<ScanResult>): set<string> {
    if results == [] then {}
    else
      var last := results[|results| - 1];
      Subdomains(results[..|results| - 1]) + (if last.DnsRecord? then {last.subdomain} else {})
  }

  /** A host name is counted exactly when some DNS record of the results names it. */
  lemma {:induction false} SubdomainsMembers(results: seq<ScanResult>, x: string)
    ensures x in Subdomains(results) <==> exists r :: r in results && r.DnsRecord? && r.subdomain == x
    decreases |results|
  {
    if results != [] {
      var init, last := results[..|results| - 1], results[|results| - 1];
      SubdomainsMembers(init, x);
      assert results == init + [last];
      if r :| r in init && r.DnsRecord? && r.subdomain == x {
        assert r in results;
      }
    }
  }

  /** There are never more unique host names than results. */
  lemma {:induction false} SubdomainsCount(results: seq<ScanResult>)
    ensures |Subdomains(results)| <= |results|
    decreases |results|
  {
    if results != [] {
      SubdomainsCount(results[..|results| - 1]);
    }
  }

  // --------------------------------------------------------------- worker

  /**
   * `dns_worker`: every dequeued word is resolved for every record type,
   * each answer is appended to the results and the checkpoint, the word is
   * marked completed and the progress advances by exactly one.
   */
  method DnsWorker(target: string, types: seq<string>, queue: seq<string>, results: seq<ScanResult>,
                   resolve: (string, string) -> DnsOutcome, progress: ProgressBar, state: ScanState?)
    returns (found: seq<ScanResult>)
    modifies progress, state
    ensures found == results + Gathered(SubdomainProbe(target, types, resolve), queue)
    ensures progress.current == old(progress.current) + |queue|
    ensures state != null ==>
      && state.foundResults == old(state.foundResults) + Gathered(SubdomainProbe(target, types, resolve), queue)
      && state.completedItems == CompletedAfter(old(state.completedItems), queue)
  {
    ghost var current0 := progress.current;
    ghost var found0 := if state != null then state.foundResults else [];
    ghost var completed0 := if state != null then state.completedItems else [];
    found := results;
    var i := 0;
    while i < |queue|
      invariant 0 <= i <= |queue|
      invariant Drained(SubdomainProbe(target, types, resolve), queue, i, results, found, current0, found0, completed0, progress, state)
    {
      found := DnsStep(target, types, queue, i, resolve, results, found, current0, found0, completed0, progress, state);
      i := i + 1;
    }
    assert queue[..i] == queue;
  }

  /** The body of the `dns_worker` loop for the word at index `i` of the queue. */
  method DnsStep(target: string, types: seq<string>, queue: seq<string>, i: int, resolve: (string, string) -> DnsOutcome,
                 results: seq<ScanResult>, found: seq<ScanResult>,
                 ghost current0: int, ghost found0: seq<ScanResult>, ghost completed0: seq<string>,
                 progress: ProgressBar, state: ScanState?)
    returns (found': seq<ScanResult>)
    requires 0 <= i < |queue|
    requires Drained(SubdomainProbe(target, types, resolve), queue, i, results, found, current0, found0, completed0, progress, state)
    modifies progress, state
    ensures Drained(SubdomainProbe(target, types, resolve), queue, i + 1, results, found', current0, found0, completed0, progress, state)
  {
    ghost var probe := SubdomainProbe(target, types, resolve);
    var sub := queue[i];
    GatheredStep(probe, queue, i);
    AppendAssoc(results, Gathered(probe, queue[..i]), probe(sub));
    if state != null {
      CompletedAfterStep(completed0, queue, i);
      AppendAssoc(found0, Gathered(probe, queue[..i]), probe(sub));
    }
    found' := QueryTypes(sub + "." + target, types, resolve, found, state);
    if state != null {
      state.MarkCompleted(sub);
    }
    progress.Update(1);
  }

  /** The record-type loop of `dns_worker` for one host: every type is queried in order. */
  method QueryTypes(full: string, types: seq<string>, resolve: (string, string) -> DnsOutcome,
                    found: seq<ScanResult>, state: ScanState?)
    returns (found': seq<ScanResult>)
    modifies state
    ensures found' == found + Records(full, types, resolve)
    ensures state != null ==>
      && state.foundResults == old(state.foundResults) + Records(full, types, resolve)
      && state.completedItems == old(state.completedItems)
  {
    ghost var found0 := if state != null then state.foundResults else [];
    ghost var completed0 := if state != null then state.completedItems else [];
    found' := found;
    var i := 0;
    while i < |types|
      invariant 0 <= i <= |types|
      invariant found' == found + Records(full, types[..i], resolve)
      invariant state != null ==>
        && state.foundResults == found0 + Records(full, types[..i], resolve)
        && state.completedItems == completed0
    {
      var recordType := types[i];
      var outcome := resolve(full, recordType);
      RecordsStep(full, types, i, resolve);
      AppendAssoc(found, Records(full, types[..i], resolve), TypeRecords(full, recordType, outcome));
      if state != null {
        AppendAssoc(found0, Records(full, types[..i], resolve), TypeRecords(full, recordType, outcome));
      }
      found' := AddAnswers(full, recordType, outcome, found', state);
      i := i + 1;
    }
    assert types[..i] == types;
  }

  /** The inner loop of `dns_worker` for one record type: each answer is formatted and appended. */
  method AddAnswers(full: string, recordType: string, outcome: DnsOutcome, found: seq<ScanResult>, state: ScanState?)
    returns (found': seq<ScanResult>)
    modifies state
    ensures found' == found + TypeRecords(full, recordType, outcome)
    ensures state != null ==>
      && state.foundResults == old(state.foundResults) + TypeRecords(full, recordType, outcome)
      && state.completedItems == old(state.completedItems)
  {
    found' := found;
    if outcome.ResolveFailed? {
      return;
    }
    var answers := outcome.values;
    ghost var found0 := if state != null then state.foundResults else [];
    ghost var completed0 := if state != null then state.completedItems else [];
    var k := 0;
    while k < |answers|
      invariant 0 <= k <= |answers|
      invariant found' == found + AnswerRecords(full, recordType, answers[..k])
      invariant state != null ==>
        && state.foundResults == found0 + AnswerRecords(full, recordType, answers[..k])
        && state.completedItems == completed0
    {
      var result := FormatDnsResult(full, recordType, answers[k]);
      AnswerRecordsStep(full, recordType, answers, k);
      AppendAssoc(found, AnswerRecords(full, recordType, answers[..k]), [result]);
      if state != null {
        AppendAssoc(found0, AnswerRecords(full, recordType, answers[..k]), [result]);
      }
      found' := found' + [result];
      if state != null {
        state.AddResult(result);
      }
      k := k + 1;
    }
    assert answers[..k] == answers;
  }

  // ----------------------------------------------------------------- scan

  /**
   * `run_dns_enum`. An unreadable wordlist ends the scan with no results.
   * Otherwise the words are resolved against the checkpoint (module "dns",
   * same target) and drained; the unique host names are counted. The final
   * clean-up is guarded by "a checkpoint exists and resume is off", which
   * never holds, so the checkpoint file is never removed.
   */
  method RunDnsEnum(config: ScanConfig, wordlistText: Option<string>, loaded: ScanState?,
                    resolve: (string, string) -> DnsOutcome)
    returns (results: seq<ScanResult>, uniqueSubdomains: nat, state: ScanState?, removedStateFile: bool)
    modifies loaded
    ensures !removedStateFile
    ensures uniqueSubdomains <= |results|
    ensures uniqueSubdomains == |Subdomains(results)|
    ensures wordlistText.None? ==> results == [] && state == null && (loaded != null ==> unchanged(loaded))
    ensures wordlistText.Some? ==> (state != null <==> config.resume)
    ensures !(wordlistText.Some? && config.resume && Matches(loaded, "dns", config.target)) ==>
      (loaded != null ==> unchanged(loaded))
    ensures wordlistText.Some? && !config.resume ==>
      results == Gathered(SubdomainProbe(config.target, config.recordTypes, resolve), LoadWordlist(wordlistText.value))
    ensures wordlistText.Some? && config.resume && Matches(loaded, "dns", config.target) ==>
      var rest := Remaining(LoadWordlist(wordlistText.value), old(loaded.completedItems));
      && state == loaded
      && results == old(loaded.foundResults) + Gathered(SubdomainProbe(config.target, config.recordTypes, resolve), rest)
      && state.foundResults == results
      && state.completedItems == CompletedAfter(old(loaded.completedItems), rest)
    ensures wordlistText.Some? && config.resume && !Matches(loaded, "dns", config.target) ==>
      var subs := LoadWordlist(wordlistText.value);
      && fresh(state) && state.moduleName == "dns" && state.target == config.target
      && state.wordlist == config.wordlist && state.totalItems == |subs|
      && results == Gathered(SubdomainProbe(config.target, config.recordTypes, resolve), subs)
      && state.foundResults == results
      && state.completedItems == CompletedAfter([], subs)
  {
    results, uniqueSubdomains, state, removedStateFile := [], 0, null, false;
    if wordlistText.None? {
      return;
    }
    results, state := ScanSubdomains(config, LoadWordlist(wordlistText.value), loaded, resolve);
    SubdomainsCount(results);
    uniqueSubdomains := |Subdomains(results)|;
    removedStateFile := state != null && !config.resume;
  }

  /** The part of `run_dns_enum` after the wordlist is read: resume, drain, finish the progress bar. */
  method ScanSubdomains(config: ScanConfig, subs: seq<string>, loaded: ScanState?,
                        resolve: (string, string) -> DnsOutcome)
    returns (results: seq<ScanResult>, state: ScanState?)
    modifies loaded
    ensures state != null <==> config.resume
    ensures !(config.resume && Matches(loaded, "dns", config.target)) ==> (loaded != null ==> unchanged(loaded))
    ensures !config.resume ==> results == Gathered(SubdomainProbe(config.target, config.recordTypes, resolve), subs)
    ensures config.resume && Matches(loaded, "dns", config.target) ==>
      var rest := Remaining(subs, old(loaded.completedItems));
      && state == loaded
      && results == old(loaded.foundResults) + Gathered(SubdomainProbe(config.target, config.recordTypes, resolve), rest)
      && state.foundResults == results
      && state.completedItems == CompletedAfter(old(loaded.completedItems), rest)
    ensures config.resume && !Matches(loaded, "dns", config.target) ==>
      && fresh(state) && state.moduleName == "dns" && state.target == config.target
      && state.wordlist == config.wordlist && state.totalItems == |subs|
      && results == Gathered(SubdomainProbe(config.target, config.recordTypes, resolve), subs)
      && state.foundResults == results
      && state.completedItems == CompletedAfter([], subs)
  {
    var queue;
    state, queue := ResolveResume(config.resume, loaded, "dns", config.target, config.wordlist, subs);
    results := [];
    if state != null {
      results := state.foundResults;
    }
    var progress := new ProgressBar(|queue|, "Scanning", 40);
    results := DnsWorker(config.target, config.recordTypes, queue, results, resolve, progress, state);
    progress.Finish();
  }
}
