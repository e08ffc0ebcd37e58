/**
 * Scan configuration, the checkpoint kept for resuming a scan, and the
 * bookkeeping the three scans share: which candidates remain, what a drained
 * queue has gathered, and how a run picks between a loaded and a fresh state.
 */
module Config {
  import opened Wrappers
  import opened Text
  import opened Output

  const DefaultThreads := 20
  const MaxThreads := 500
  const MinThreads := 1

  /** The part of `ScanConfig` the modelled scans read. */
  datatype ScanConfig = ScanConfig(
    target: string,
    wordlist: string,
    threads: int,
    resume: bool,
    stateFile: Option<string>,
    recordTypes: seq<string>,
    statusCodes: Option<seq<int>>,
    extensions: Option<seq<string>>,
    baseHost: Option<string>)

  // ------------------------------------------------------------ state file

  /** The target with "://", then "/", then "." each replaced by "_". */
  function SafeTarget(target: string): (r: string)
    ensures '/' !in r && '.' !in r
    ensures |r| <= |target|
    ensures ':' !in target && '/' !in target && '.' !in target ==> r == target
  {
    var a := ReplaceAll(target, "://", "_");
    var b := ReplaceAll(a, "/", "_");
    var c := ReplaceAll(b, ".", "_");
    ReplaceShrinks(target, "://", "_");
    ReplaceChar(a, '/', '_');
    ReplaceChar(b, '.', '_');
    assert forall i :: 0 <= i < |c| ==> c[i] != '/' && c[i] != '.';
    if ':' !in target && '/' !in target && '.' !in target then
      ReplaceAbsent(target, "://", "_");
      ReplaceAbsent(a, "/", "_");
      ReplaceAbsent(b, ".", "_");
      c
    else
      c
  }

  const StatePrefix := ".hawkshot_state_"
  const StateSuffix := ".json"

  /** `get_state_filepath`: an explicit, non-empty state file wins; otherwise a name derived from the target. */
  function StateFilepath(config: ScanConfig): (path: string)
    ensures config.stateFile.Some? && config.stateFile.value != [] ==> path == config.stateFile.value
    ensures config.stateFile.None? || config.stateFile.value == [] ==>
      && StartsWith(path, StatePrefix)
      && path[|StatePrefix|..] == SafeTarget(config.target) + StateSuffix
      && '/' !in path
  {
    if config.stateFile.Some? && config.stateFile.value != [] then config.stateFile.value
    else StatePrefix + SafeTarget(config.target) + StateSuffix
  }

  // ------------------------------------------------------- remaining items

  predicate NoDuplicates(s: seq<string>) {
    forall i, j :: 0 <= i < j < |s| ==> s[i] != s[j]
  }

  /** The candidates of `all` not yet completed, in their original order, repeats kept. */
  function Remaining(all: seq<string>, completed: seq<string>): (r: seq<string>)
    ensures forall x :: x in r <==> x in all && x !in completed
    ensures |r| <= |all|
  {
    if all == [] then []
    else (if all[0] in completed then [] else [all[0]]) + Remaining(all[1..], completed)
  }

  /** Taking the remaining items distributes over concatenation, so the order of `all` is kept. */
  lemma {:induction false} RemainingAppend(a: seq<string>, b: seq<string>, completed: seq<string>)
    ensures Remaining(a + b, completed) == Remaining(a, completed) + Remaining(b, completed)
  {
    if a != [] {
      assert (a + b)[1..] == a[1..] + b;
      RemainingAppend(a[1..], b, completed);
    } else {
      assert a + b == b;
    }
  }

  /** Each candidate keeps all of its occurrences, or none when it is completed. */
  lemma {:induction false} RemainingCount(all: seq<string>, completed: seq<string>, x: string)
    ensures multiset(Remaining(all, completed))[x] == if x in completed then 0 else multiset(all)[x]
  {
    if all != [] {
      RemainingCount(all[1..], completed, x);
      MultisetHead(all);
      var head: seq<string> := if all[0] in completed then [] else [all[0]];
      assert multiset(Remaining(all, completed)) == multiset(head) + multiset(Remaining(all[1..], completed));
    }
  }

  /** With nothing completed, every candidate remains. */
  lemma {:induction false} RemainingNone(all: seq<string>)
    ensures Remaining(all, []) == all
  {
    if all != [] {
      RemainingNone(all[1..]);
      assert all == [all[0]] + all[1..];
    }
  }

  /** When the first k candidates of a duplicate-free list are completed, the rest remain, in order. */
  lemma {:induction false} RemainingAfterPrefix(all: seq<string>, k: nat)
    requires NoDuplicates(all) && k <= |all|
    ensures Remaining(all, all[..k]) == all[k..]
  {
    assert all == all[..k] + all[k..];
    RemainingAppend(all[..k], all[k..], all[..k]);
    RemainingDropsAll(all[..k], all[..k]);
    RemainingKeepsAll(all[k..], all[..k]);
  }

  lemma {:induction false} RemainingDropsAll(a: seq<string>, completed: seq<string>)
    requires forall x :: x in a ==> x in completed
    ensures Remaining(a, completed) == []
  {
    if a != [] {
      RemainingDropsAll(a[1..], completed);
    }
  }

  lemma {:induction false} RemainingKeepsAll(a: seq<string>, completed: seq<string>)
    requires forall x :: x in a ==> x !in completed
    ensures Remaining(a, completed) == a
  {
    if a != [] {
      RemainingKeepsAll(a[1..], completed);
      assert a == [a[0]] + a[1..];
    }
  }

  /**
   * A duplicate-free wordlist splits into the completed candidates and the
   * remaining ones: together they are the wordlist, each candidate once.
   */
  lemma ResumePartition(all: seq<string>, completed: seq<string>)
    requires NoDuplicates(all) && NoDuplicates(completed)
    requires forall x :: x in completed ==> x in all
    ensures multiset(all) == multiset(completed) + multiset(Remaining(all, completed))
    ensures |Remaining(all, completed)| == |all| - |completed|
  {
    forall x ensures multiset(all)[x] == multiset(completed)[x] + multiset(Remaining(all, completed))[x] {
      RemainingCount(all, completed, x);
      if x in completed {
        OccursOnce(all, x);
        OccursOnce(completed, x);
      }
    }
    assert multiset(all) == multiset(completed) + multiset(Remaining(all, completed));
    assert |multiset(all)| == |multiset(completed)| + |multiset(Remaining(all, completed))|;
  }

  lemma {:induction false} OccursOnce(s: seq<string>, x: string)
    requires NoDuplicates(s) && x in s
    ensures multiset(s)[x] == 1
  {
    assert s == [s[0]] + s[1..];
    assert multiset(s)[x] == multiset{s[0]}[x] + multiset(s[1..])[x];
    if s[0] == x {
      assert x !in s[1..];
    } else {
      OccursOnce(s[1..], x);
    }
  }

  // ----------------------------------------------------- completed items

  /** `mark_completed` on a list of completed items: append unless present. */
  function WithCompleted(items: seq<string>, x: string): (r: seq<string>)
    ensures x in r
    ensures forall y :: y in r <==> y in items || y == x
    ensures x in items ==> r == items
    ensures |items| <= |r| <= |items| + 1 && r[..|items|] == items
    ensures NoDuplicates(items) ==> NoDuplicates(r)
  {
    if x in items then items else items + [x]
  }

  /** The completed items after marking every candidate of a queue in order. */
  function CompletedAfter(items: seq<string>, queue: seq<string>): (r: seq<string>)
    ensures |items| <= |r| && r[..|items|] == items
  {
    if queue == [] then items
    else WithCompleted(CompletedAfter(items, queue[..|queue| - 1]), queue[|queue| - 1])
  }

  /**
   * Draining a queue marks exactly its candidates, on top of the ones already
   * completed, and keeps the completed list free of duplicates.
   */
  lemma {:induction false} CompletedAfterMembers(items: seq<string>, queue: seq<string>)
    ensures forall y :: y in CompletedAfter(items, queue) <==> y in items || y in queue
    ensures NoDuplicates(items) ==> NoDuplicates(CompletedAfter(items, queue))
  {
    if queue != [] {
      var init := queue[..|queue| - 1];
      CompletedAfterMembers(items, init);
      assert queue == init + [queue[|queue| - 1]];
    }
  }

  lemma CompletedAfterSnoc(items: seq<string>, queue: seq<string>, x: string)
    ensures CompletedAfter(items, queue + [x]) == WithCompleted(CompletedAfter(items, queue), x)
  {
    assert (queue + [x])[..|queue|] == queue;
  }

  /** One more candidate of the queue drained: the one at index `i` is marked completed. */
  lemma CompletedAfterStep(items: seq<string>, queue: seq<string>, i: int)
    requires 0 <= i < |queue|
    ensures CompletedAfter(items, queue[..i + 1]) == WithCompleted(CompletedAfter(items, queue[..i]), queue[i])
  {
    assert queue[..i + 1][..i] == queue[..i];
  }

  // ------------------------------------------------------------ gathering

  /** Everything a probe reports for the candidates of a queue, in queue order. */
  function Gathered(probe: string -> seq<ScanResult>, items: seq<string>): seq<ScanResult> {
    if items == [] then [] else Gathered(probe, items[..|items| - 1]) + probe(items[|items| - 1])
  }

  lemma GatheredSnoc(probe: string -> seq<ScanResult>, items: seq<string>, x: string)
    ensures Gathered(probe, items + [x]) == Gathered(probe, items) + probe(x)
  {
    assert (items + [x])[..|items|] == items;
  }

  /** One more candidate of the queue drained: what the probe reports for the one at index `i` is appended. */
  lemma GatheredStep(probe: string -> seq<ScanResult>, items: seq<string>, i: int)
    requires 0 <= i < |items|
    ensures Gathered(probe, items[..i + 1]) == Gathered(probe, items[..i]) + probe(items[i])
  {
    assert items[..i + 1][..i] == items[..i];
  }

  /** Draining two queues one after the other gathers the two results one after the other. */
  lemma {:induction false} GatheredAppend(probe: string -> seq<ScanResult>, a: seq<string>, b: seq<string>)
    ensures Gathered(probe, a + b) == Gathered(probe, a) + Gathered(probe, b)
  {
    if b == [] {
      assert a + b == a;
    } else {
      var c := b[..|b| - 1];
      assert a + b == (a + c) + [b[|b| - 1]];
      assert b == c + [b[|b| - 1]];
      GatheredSnoc(probe, a + c, b[|b| - 1]);
      GatheredSnoc(probe, c, b[|b| - 1]);
      GatheredAppend(probe, a, c);
      AppendAssoc(Gathered(probe, a), Gathered(probe, c), probe(b[|b| - 1]));
    }
  }

  lemma GatheredAround(probe: string -> seq<ScanResult>, b: seq<string>, k: nat)
    requires k < |b|
    ensures multiset(Gathered(probe, b)) == multiset(Gathered(probe, b[..k] + b[k + 1..])) + multiset(probe(b[k]))
  {
    GatheredSplit(probe, b, k);
    GatheredAppend(probe, b[..k], b[k + 1..]);
    MultisetMiddle(Gathered(probe, b[..k]), probe(b[k]), Gathered(probe, b[k + 1..]));
  }

  /** What the candidates before `k`, the one at `k` and the ones after it report, in that order. */
  lemma GatheredSplit(probe: string -> seq<ScanResult>, b: seq<string>, k: nat)
    requires k < |b|
    ensures Gathered(probe, b) == Gathered(probe, b[..k]) + probe(b[k]) + Gathered(probe, b[k + 1..])
  {
    var left, right := b[..k], b[k + 1..];
    assert b == (left + [b[k]]) + right;
    GatheredAppend(probe, left + [b[k]], right);
    GatheredSnoc(probe, left, b[k]);
  }


  lemma GatheredFirst(probe: string -> seq<ScanResult>, a: seq<string>)
    requires a != []
    ensures Gathered(probe, a) == probe(a[0]) + Gathered(probe, a[1..])
  {
    assert a == [a[0]] + a[1..];
    GatheredAppend(probe, [a[0]], a[1..]);
    assert Gathered(probe, [a[0]]) == Gathered(probe, []) + probe(a[0]);
  }

  /** The order in which candidates are drained does not change what is gathered, up to order. */
  lemma {:induction false} GatheredPermutation(probe: string -> seq<ScanResult>, a: seq<string>, b: seq<string>)
    requires multiset(a) == multiset(b)
    ensures multiset(Gathered(probe, a)) == multiset(Gathered(probe, b))
  {
    if a != [] {
      assert a[0] in multiset(b);
      var k :| 0 <= k < |b| && b[k] == a[0];
      var rest := b[..k] + b[k + 1..];
      RemoveOne(a, b, k);
      calc {
        multiset(Gathered(probe, a));
        == { GatheredFirst(probe, a); }
        multiset(probe(a[0]) + Gathered(probe, a[1..]));
        == multiset(probe(a[0])) + multiset(Gathered(probe, a[1..]));
        == { GatheredPermutation(probe, a[1..], rest); }
        multiset(probe(b[k])) + multiset(Gathered(probe, rest));
        == { GatheredAround(probe, b, k); }
        multiset(Gathered(probe, b));
      }
    }
  }

  /**
   * Resuming loses and repeats nothing: when the checkpoint holds the results
   * of its completed candidates, those results followed by what the remaining
   * candidates gather are, up to order, what a scan of the whole wordlist gathers.
   */
  lemma ResumeComplete(probe: string -> seq<ScanResult>, all: seq<string>, completed: seq<string>, found: seq<ScanResult>)
    requires NoDuplicates(all) && NoDuplicates(completed)
    requires forall x :: x in completed ==> x in all
    requires multiset(found) == multiset(Gathered(probe, completed))
    ensures multiset(found + Gathered(probe, Remaining(all, completed))) == multiset(Gathered(probe, all))
  {
    var rest := Remaining(all, completed);
    ResumePartition(all, completed);
    GatheredPermutation(probe, all, completed + rest);
    GatheredAppend(probe, completed, rest);
  }

  // ------------------------------------------------------------ the state

  /** `ScanState`: the checkpoint of one scan. */
  class ScanState {
    const moduleName: string
    const target: string
    const wordlist: string
    const totalItems: int
    var completedItems: seq<string>
    var foundResults: seq<ScanResult>

    constructor (moduleName: string, target: string, wordlist: string, totalItems: int)
      ensures this.moduleName == moduleName && this.target == target
      ensures this.wordlist == wordlist && this.totalItems == totalItems
      ensures completedItems == [] && foundResults == []
    {
      this.moduleName := moduleName;
      this.target := target;
      this.wordlist := wordlist;
      this.totalItems := totalItems;
      completedItems := [];
      foundResults := [];
    }

    /** A state as read back from a checkpoint file. */
    constructor Restored(moduleName: string, target: string, wordlist: string, totalItems: int,
                         completedItems: seq<string>, foundResults: seq<ScanResult>)
      ensures this.moduleName == moduleName && this.target == target
      ensures this.wordlist == wordlist && this.totalItems == totalItems
      ensures this.completedItems == completedItems && this.foundResults == foundResults
    {
      this.moduleName := moduleName;
      this.target := target;
      this.wordlist := wordlist;
      this.totalItems := totalItems;
      this.completedItems := completedItems;
      this.foundResults := foundResults;
    }

    /** `get_remaining_items`: each candidate is either completed or remaining, never both. */
    function GetRemainingItems(all: seq<string>): (r: seq<string>)
      reads this
      ensures r == Remaining(all, completedItems)
      ensures forall x :: x in all ==> (x in completedItems <==> x !in r)
    {
      Remaining(all, completedItems)
    }

    /** `mark_completed`. */
    method MarkCompleted(item: string)
      modifies this
      ensures completedItems == WithCompleted(old(completedItems), item)
      ensures foundResults == old(foundResults)
    {
      if item !in completedItems {
        completedItems := completedItems + [item];
      }
    }

    /** `add_result`. */
    method AddResult(result: ScanResult)
      modifies this
      ensures foundResults == old(foundResults) + [result]
      ensures completedItems == old(completedItems)
    {
      foundResults := foundResults + [result];
    }
  }

  /**
   * A worker's progress through its queue after the first `i` candidates:
   * the results and the checkpoint's found results have grown by what those
   * candidates gathered, the checkpoint lists them as completed, and the
   * progress bar has advanced once per candidate. `current0`, `found0` and
   * `completed0` are the progress and the checkpoint before the first one.
   */
  ghost predicate Drained(probe: string -> seq<ScanResult>, queue: seq<string>, i: int,
                          results: seq<ScanResult>, found: seq<ScanResult>, current0: int,
                          found0: seq<ScanResult>, completed0: seq<string>,
                          progress: ProgressBar, state: ScanState?)
    reads progress, state
    requires 0 <= i <= |queue|
  {
    && found == results + Gathered(probe, queue[..i])
    && progress.current == current0 + i
    && (state != null ==>
          && state.foundResults == found0 + Gathered(probe, queue[..i])
          && state.completedItems == CompletedAfter(completed0, queue[..i]))
  }

  /** Whether a loaded checkpoint belongs to this scan: same module, same target. */
  predicate Matches(loaded: ScanState?, moduleName: string, target: string)
    reads loaded
  {
    loaded != null && loaded.moduleName == moduleName && loaded.target == target
  }

  /**
   * The resume selection of the `run_*` functions. Without `resume` there is no
   * state and every candidate is queued; with it, a matching checkpoint is kept
   * and only its remaining candidates are queued, and anything else is replaced
   * by a fresh state for the whole wordlist.
   */
  method ResolveResume(resume: bool, loaded: ScanState?, moduleName: string, target: string,
                       wordlist: string, all: seq<string>)
    returns (state: ScanState?, items: seq<string>)
    ensures state != null <==> resume
    ensures !resume ==> items == all
    ensures resume && Matches(loaded, moduleName, target) ==>
      state == loaded && items == Remaining(all, loaded.completedItems)
    ensures resume && !Matches(loaded, moduleName, target) ==>
      && fresh(state) && items == all
      && state.moduleName == moduleName && state.target == target
      && state.wordlist == wordlist && state.totalItems == |all|
      && state.completedItems == [] && state.foundResults == []
  {
    state := null;
    items := all;
    if resume {
      if Matches(loaded, moduleName, target) {
        state := loaded;
        items := loaded.GetRemainingItems(all);
      } else {
        state := new ScanState(moduleName, target, wordlist, |all|);
      }
    }
  }
}
