# Hawkshot core, modelled in Dafny

Hawkshot runs three brute-force reconnaissance scans:

- a DNS scan, which resolves `word.target` for each configured record type;
- a web directory scan, which requests `base/path` for each path, optionally expanded with file extensions;
- a virtual-host scan, which requests the target with the `Host` header `prefix.base_host` and compares the response with a baseline.

Every scan works the same way:

1. It loads a wordlist: the stripped, non-empty lines.
2. When resuming, it picks the candidates that a matching checkpoint has not yet completed.
3. It drains a queue of candidates. For each one it asks the network, appends its hits to the results and to the checkpoint, marks it completed and advances a progress bar by one.

Around the scans sit the command-line validators, the result formatters, the status colours, the throttled progress bar and the text export.

The model is organised by source file:

- `config.dfy` holds the checkpoint `ScanState` (a class with the sequence fields `completedItems` and `foundResults`), the state file name and the remaining-items selection. It also holds the bookkeeping the three scans share:
  - `Gathered`: what a probe reports over a queue;
  - `CompletedAfter`: the completed list after a drain;
  - `ResolveResume`: the resume selection.
- `wordlist.dfy` holds `load_wordlist`'s line filter.
- `validators.dfy` holds the argument validators.
- `output.dfy` holds:
  - the `format_*_result` functions and `get_status_color`;
  - the `ProgressBar` class;
  - the text branch of `save_results`.
- `web_dir.dfy`, `vhost_enum.dfy` and `dns_enum.dfy` hold each scan's per-candidate decision, its worker loop and its `run_*` function.
- `text.dfy` writes out the Python string operations the code relies on: `strip`, `split`, `join`, `replace`, ASCII `lower`/`upper`, `int()`, `str()` of an integer, `ljust` and code-point order.
- `network.dfy` describes what a request or a DNS query returns.
- `wrappers.dfy` holds `Option`, `Result` and small sequence lemmas.

What the model takes as parameters:

- **The network.** Each HTTP client or resolver is a function parameter: `fetch` maps a URL or Host header to an `HttpOutcome`, and `resolve` maps a host name and record type to a `DnsOutcome`. The baseline request of the virtual-host scan is the value `baselineOutcome`. Each exception class becomes a failure variant that only feeds logging.
- **Files.** The wordlist file is its text, or `None` when it cannot be read. The loaded checkpoint is a `ScanState?`, where `null` means no file or an unreadable one.
- **Terminal and export.** Terminal output is the `output` sequence of the progress bar. The exported text file is the returned string.

The worker threads are modelled as one sequential drain of the queue.

The source comments "Clean up state file on successful completion" (hawkshot/modules/dns_enum.py:210) and "Clean up state file" (hawkshot/modules/web_dir.py:243). It guards the removal with `state and not config.resume` (hawkshot/modules/dns_enum.py:211, hawkshot/modules/web_dir.py:244). A state exists only when resuming, so the guard never holds. The model follows the code: `RunDnsEnum` and `RunDirScan` both ensure the file is not removed.

## Model

| member | source | states |
|---|---|---|
| Config.SafeTarget | hawkshot/core/config.py:120 | The sanitised target has no `/` and no `.`, is no longer than the target, and equals the target when the target has no `:`, `/` or `.` |
| Config.StateFilepath | hawkshot/core/config.py:116-121 | A non-empty explicit state file is returned as is. Otherwise the path is `.hawkshot_state_` + sanitised target + `.json`, with no `/` in it |
| Config.Remaining | hawkshot/core/config.py:74-77 | An item is remaining exactly when it is in the wordlist and not completed. There are never more remaining items than candidates |
| Config.RemainingAppend | hawkshot/core/config.py:74-77 | Selection distributes over concatenation, so wordlist order is kept |
| Config.RemainingCount | hawkshot/core/config.py:74-77 | Duplicates are kept: a non-completed item occurs as often as in the wordlist, a completed one never |
| Config.RemainingNone | hawkshot/core/config.py:74-77 | With nothing completed, the whole wordlist remains |
| Config.RemainingAfterPrefix | hawkshot/core/config.py:74-77 | When the first k candidates of a duplicate-free wordlist are completed, exactly the rest remain, in order |
| Config.ResumePartition | hawkshot/core/config.py:74-77 | A duplicate-free wordlist is, as a multiset, its completed items plus its remaining ones, and the counts add up |
| Config.ScanState.GetRemainingItems | hawkshot/core/config.py:74-77 | Every candidate is either completed or remaining, never both |
| Config.ScanState.constructor | hawkshot/core/config.py:44-54 | A new checkpoint has the given module, target, wordlist and total, and empty completed and found lists |
| Config.ScanState.Restored | hawkshot/core/config.py:70 | A loaded checkpoint carries exactly the stored fields |
| Config.WithCompleted | hawkshot/core/config.py:79-82 | After marking, the item is present; marking a present item changes nothing; a new item goes at the end; earlier entries and freedom from duplicates are kept |
| Config.ScanState.MarkCompleted | hawkshot/core/config.py:79-82 | The completed list becomes `WithCompleted` of the old one; the found results are unchanged |
| Config.ScanState.AddResult | hawkshot/core/config.py:84-86 | Exactly the one result is appended to the found results; the completed list is unchanged |
| Config.CompletedAfter | hawkshot/core/config.py:79-82 | Marking a queue only extends the completed list: the old list is its prefix |
| Config.CompletedAfterMembers | hawkshot/modules/dns_enum.py:78-81 | After a drain, the completed items are exactly the old ones plus the queue's, each once |
| Config.GatheredAppend | hawkshot/modules/dns_enum.py:140-142 | Draining two queues one after the other gathers their results one after the other |
| Config.GatheredPermutation | hawkshot/modules/dns_enum.py:140-142 | The order in which the queue is drained changes what is gathered only in its order |
| Config.ResumeComplete | hawkshot/modules/dns_enum.py:116-147 | Resuming loses and repeats nothing: the checkpoint's results plus what the remaining candidates gather are, up to order, a full scan's results |
| Config.ResolveResume | hawkshot/modules/dns_enum.py:113-127 | A state exists iff resuming. A checkpoint with the same module and target is kept and only its remaining items are queued. Anything else gets a fresh state over the whole wordlist with `total_items` = its length |
| Wordlist.UniversalNewlines | hawkshot/modules/web_dir.py:26 | Text-mode reading leaves no carriage return |
| Wordlist.KeepStripped | hawkshot/modules/web_dir.py:27 | The filter never yields more words than lines |
| Wordlist.KeepStrippedIsWords | hawkshot/modules/web_dir.py:27 | Every kept word is non-empty and already stripped |
| Wordlist.KeepStrippedAppend | hawkshot/modules/web_dir.py:27 | Filtering distributes over concatenation, so file order is kept |
| Wordlist.KeepStrippedWords | hawkshot/modules/web_dir.py:27 | Lines that are already clean words pass through unchanged |
| Wordlist.LoadWordlist | hawkshot/modules/web_dir.py:24-27 | Every loaded word is non-empty, stripped and free of line breaks |
| Wordlist.LoadJoinedWords | hawkshot/modules/web_dir.py:24-27 | Round trip: a file of clean words, one per line, loads back as exactly those words |
| Validators.StripScheme | hawkshot/core/validators.py:26 | The result is a suffix of the input, and the input itself when it has no `:` |
| Validators.StripWww | hawkshot/core/validators.py:32 | The result is a suffix of the input, and the input itself when it does not start with `www.` |
| Validators.DomainHost | hawkshot/core/validators.py:26-32 | The host left after the cuts holds neither `/` nor `:`. It is the input, with its scheme removed, cut at the first `/` or `:`, with one leading "www." removed (`HostPrefix`, unique by `HostPrefixUnique`) |
| Validators.ValidateDomain | hawkshot/core/validators.py:26-40 | Accepts iff the normalised host matches the domain pattern, including the trailing-newline case of `$`. Otherwise the error names the host. The accepted value is exactly `Lower(DomainHost(domain))`, the lower-cased host: same length, still matching, made of label characters and dots |
| Validators.LowerKeepsDomainName | hawkshot/core/validators.py:35-40 | Lower-casing a valid domain name keeps it valid |
| Validators.ValidateDomainStripsDecorations | hawkshot/core/validators.py:26-40 | A lower-case domain wrapped in `http(s)://`, an optional `www.` and any path or port validates to itself |
| Validators.ValidateDomainIdempotent | hawkshot/core/validators.py:26-40 | Validating an accepted domain again gives the same answer, unless it still starts with `www.` |
| Validators.WithScheme | hawkshot/core/validators.py:57-58 | The URL gains `http://` only when it has no `http(s)://` scheme |
| Validators.ValidateUrl | hawkshot/core/validators.py:57-66 | Accepts iff an ASCII letter or digit follows the scheme; otherwise the error names the schemed URL. The result keeps the scheme, is the schemed URL minus its trailing slashes, and does not end in `/` |
| Validators.ValidateUrlIdempotent | hawkshot/core/validators.py:57-66 | Validating an accepted URL again gives it back |
| Validators.ValidateThreads | hawkshot/core/validators.py:82-94 | Not an integer gives the "not an integer" error. Out of [MIN_THREADS, MAX_THREADS] gives the range error. An integer within the range is accepted as that integer, and any accepted value is within the range |
| Validators.ValidateThreadsExact | hawkshot/core/config.py:29-30 | Exactly the counts 1..500 are accepted, each returned unchanged; every other integer is a range error |
| Validators.ValidateRecordTypes | hawkshot/core/validators.py:186-197 | Succeeds iff every upper-cased type is one of the ten valid types. The result is then the upper-cased list, same length. The error names the first invalid type as written |
| Validators.FieldCode | hawkshot/core/validators.py:215-224 | An accepted field's code is in 100..599 |
| Validators.FieldCodeMeaning | hawkshot/core/validators.py:215-224 | A field is accepted with code n iff `int()` reads n in 100..599 from it. Both directions are stated: every accepted code is read and in range, and every read in-range integer is accepted. Unreadable fields give "invalid status code" with the stripped text; out-of-range ones give the range error |
| Validators.ParseAll | hawkshot/core/validators.py:213-226 | A successful parse gives one code per field |
| Validators.ParseAllMeaning | hawkshot/core/validators.py:213-226 | All fields are accepted iff each one is, and each field's code is in its place |
| Validators.ParseAllFirstError | hawkshot/core/validators.py:213-226 | The error reported is that of the first failing field |
| Validators.StatusCodes | hawkshot/core/validators.py:213-226 | A successful result has one code per field, each in 100..599 |
| Validators.ParseFields | hawkshot/core/validators.py:214-224 | The loop computes `ParseAll` of the fields, stopping at the first error |
| Validators.ValidateStatusCodes | hawkshot/core/validators.py:213-226 | The result is `StatusCodes` of the comma-separated fields |
| Validators.StatusCodesRoundTrip | hawkshot/core/validators.py:213-226 | Codes in 100..599, written comma-separated, parse back to themselves |
| Validators.Extension | hawkshot/core/validators.py:241-246 | A field is dropped iff it is blank. Otherwise the result is the stripped, lower-cased field when that already starts with `.`, and that field with a `.` put in front when it does not. The result always starts with `.` and is lower case |
| Validators.Extensions | hawkshot/core/validators.py:239-247 | There are at most as many extensions as fields, each non-empty, lower-case and starting with `.` |
| Validators.ValidateExtensions | hawkshot/core/validators.py:239-247 | The loop computes `Extensions` of the comma-separated fields, in field order |
| Validators.ExtensionsFixed | hawkshot/core/validators.py:239-247 | Normalised extensions normalise to themselves |
| Validators.ExtensionsRoundTrip | hawkshot/core/validators.py:239-247 | A normalised list written comma-separated validates back to itself |
| Output.FormatDnsResult | hawkshot/core/output.py:196-204 | The fields are kept verbatim. The line is `[`, the type padded to at least 5, `] `, the name padded to at least 40, then ` -> ` value. Padding only adds spaces and never truncates |
| Output.RedirectSuffix | hawkshot/core/output.py:215-216 | The suffix is non-empty iff the redirect is set, non-empty and differs from the URL; it is then ` -> ` + redirect |
| Output.FormatWebResult | hawkshot/core/output.py:207-223 | The fields are kept. The line is the status line plus the redirect suffix, and the status can be read back from the line |
| Output.FormatVHostResult | hawkshot/core/output.py:226-234 | The fields are kept. The line is the status line, and the status can be read back from it |
| Output.FormatTechResult | hawkshot/core/output.py:237-246 | ` v` + version appears in the line iff the version is non-empty |
| Output.StatusLineTag | hawkshot/core/output.py:214 | The status code between `[` and `]` of a status line parses back to the code |
| Output.StatusColor | hawkshot/core/output.py:249-260 | 2xx green, 3xx cyan, 4xx yellow, 5xx red, everything else white, each iff |
| Output.StatusColorByClass | hawkshot/core/output.py:249-260 | The colour depends only on the hundreds class of the code |
| Output.PercentRange | hawkshot/core/output.py:120 | Between 0 and the total, the percentage is in 0..100 |
| Output.PercentMonotone | hawkshot/core/output.py:120 | The percentage never decreases as the count grows |
| Output.FirstRenderFires | hawkshot/core/output.py:101 | A fresh bar (last percentage -1) always draws its first render for a non-empty total |
| Output.BarWidth | hawkshot/core/output.py:127-128 | Between 0 and the total, the filled cells are in 0..width and the bar has exactly `width` cells |
| Output.RenderBound | hawkshot/core/output.py:115-125 | With counts growing within 0..total, a bar draws at most 100 − last-percentage more times (101 for a fresh bar), whatever the number of updates |
| Output.ProgressBar.constructor | hawkshot/core/output.py:95-101 | A new bar has count 0, last percentage -1 and no output |
| Output.ProgressBar.Render | hawkshot/core/output.py:115-133 | It draws iff the total is non-zero and the percentage differs from the last one. It then stores the percentage and appends the bar line; otherwise nothing changes |
| Output.ProgressBar.Update | hawkshot/core/output.py:103-107 | The count grows by the amount, then the bar renders |
| Output.ProgressBar.Set | hawkshot/core/output.py:109-113 | The count becomes the value, then the bar renders |
| Output.ProgressBar.Finish | hawkshot/core/output.py:135-140 | The count becomes the total, the bar renders, then a newline is written |
| Output.Insert | hawkshot/core/output.py:186 | Inserting into sorted lines keeps them sorted and adds exactly the one line |
| Output.Sort | hawkshot/core/output.py:186 | `sorted`: the result is in ascending code-point order and a permutation of the input |
| Output.SortedUnique | hawkshot/core/output.py:186 | Two sorted permutations of the same lines are equal |
| Output.Raws | hawkshot/core/output.py:187 | One line per result: the result's `raw` line, in place |
| Output.RawsPermutation | hawkshot/core/output.py:186-187 | Reordering the results reorders their lines alike |
| Output.SortedRaws | hawkshot/core/output.py:186-187 | The body lists every result's line exactly once, in ascending order |
| Output.ExportOrderIndependent | hawkshot/core/output.py:186-187 | The exported body is the same whatever order the results were found in |
| Output.WriteMetadata | hawkshot/core/output.py:181-182 | One `# key: value` line per metadata entry, in order |
| Output.WriteLines | hawkshot/core/output.py:186-187 | Each line is written followed by a newline, in order |
| Output.SaveTextResults | hawkshot/core/output.py:176-187 | The file is the header, with the date, the metadata and a total equal to the number of results, followed by the sorted result lines |
| Output.ExportBodyLines | hawkshot/core/output.py:186-187 | Round trip: when no line holds a newline, the body splits back into exactly the sorted lines |
| Text.Strip | hawkshot/modules/web_dir.py:27 | The result is the slice of the input starting where the leading whitespace ends, and every character of the input outside that slice is whitespace. The result neither starts nor ends with whitespace |
| Text.StripIdempotent | hawkshot/modules/web_dir.py:27 | Stripping twice is stripping once |
| Text.Lower | hawkshot/core/validators.py:40 | Same length and lower case. Each upper-case ASCII letter becomes its lower-case letter, 32 code points on, and every other character is kept |
| Text.Upper | hawkshot/core/validators.py:190 | Same length and no lower-case ASCII letter left. Each lower-case ASCII letter becomes its upper-case letter, 32 code points back, and every other character is kept |
| Text.RStripChar | hawkshot/core/validators.py:66 | Only trailing copies of the character are removed, all of them |
| Text.Split | hawkshot/core/validators.py:214 | At least one piece, and no piece holds the separator |
| Text.SplitJoin | hawkshot/core/validators.py:214 | Joining separator-free pieces and splitting gives the pieces back |
| Text.JoinSplit | hawkshot/core/validators.py:214 | Splitting and joining gives the string back |
| Text.IntToStringRoundTrip | hawkshot/core/validators.py:83 | `int(str(n)) == n` for every integer |
| Text.ParseIntStrip | hawkshot/core/validators.py:215-217 | Stripping before `int()` changes nothing |
| Text.LJust | hawkshot/core/output.py:198 | `ljust` keeps the string as a prefix, pads with spaces to the width and never truncates |
| Text.Repeat | hawkshot/core/output.py:128 | n copies of the character, none for n ≤ 0 |
| WebDir.Variants | hawkshot/modules/web_dir.py:37-39 | A path's variants are the path, then the path with each extension, in extension order |
| WebDir.ExpandedLength | hawkshot/modules/web_dir.py:35-40 | The expansion has \|paths\|·(1+\|extensions\|) candidates |
| WebDir.ExpandedAppend | hawkshot/modules/web_dir.py:35-40 | Expansion distributes over concatenation, so path order is kept |
| WebDir.ExpandedAt | hawkshot/modules/web_dir.py:35-40 | The i-th path sits at i·(1+\|extensions\|), followed by its extended forms in extension order |
| WebDir.AppendVariants | hawkshot/modules/web_dir.py:37-39 | The inner loop appends exactly the path's variants |
| WebDir.ExpandPathsWithExtensions | hawkshot/modules/web_dir.py:30-40 | With no or empty extensions, the paths are returned unchanged. Otherwise the result is their expansion |
| WebDir.DirProbe | hawkshot/modules/web_dir.py:65-86 | At most one result. It exists iff a response arrived whose code passes the allow-list and is not 404; a code outside a set allow-list is never reported. The result is for `base + "/" + path`, with the response's status and length, and records the final URL iff it differs from the requested one |
| WebDir.DirStep | hawkshot/modules/web_dir.py:59-117 | One dequeued path is requested, its hit appended, the path marked completed and the progress advanced by one, whatever the outcome |
| WebDir.DirWorker | hawkshot/modules/web_dir.py:59-117 | After the drain, the results and the checkpoint have grown by every path's hits, in queue order. Every path is marked completed, and the progress has grown by exactly the queue length |
| WebDir.RunDirScan | hawkshot/modules/web_dir.py:133-250 | An unreadable wordlist gives nothing and leaves the checkpoint unchanged. Otherwise the (expanded) candidates are resolved against a "dir" checkpoint for the same target (remaining items, else a fresh state with `total_items` = candidate count) and drained, as in `ScanPaths`. A checkpoint that is loaded but not resumed (no resume, or another module or target) is left unchanged. The state file is never removed |
| WebDir.ScanPaths | hawkshot/modules/web_dir.py:148-223 | On resume with a matching "dir" checkpoint, only its remaining paths are drained and the results start from its found results. Otherwise a fresh state or none is used and every path is drained. A checkpoint that is loaded but not resumed (no resume, or another module or target) is left unchanged |
| VHostEnum.Baseline | hawkshot/modules/vhost_enum.py:29-45 | There is no baseline iff the request failed; otherwise it is the status and body length |
| VHostEnum.IsHit | hawkshot/modules/vhost_enum.py:91-96 | Never a hit for 404. Always a hit for another status. With the baseline's status, a hit iff the length is more than 10% away; a response identical to the baseline is no hit |
| VHostEnum.ThresholdIsStrict | hawkshot/modules/vhost_enum.py:91-96 | A length exactly 10% away with the same status is not a hit, and one unit more is |
| VHostEnum.VHostProbe | hawkshot/modules/vhost_enum.py:73-97 | At most one result. It exists iff a response arrived and it is a hit. It names `prefix + "." + base_host` and has the response's status and length |
| VHostEnum.VHostStep | hawkshot/modules/vhost_enum.py:66-122 | One dequeued prefix is tried, its hit appended, the prefix marked completed and the progress advanced by one, whatever the outcome |
| VHostEnum.VHostWorker | hawkshot/modules/vhost_enum.py:66-122 | After the drain, the results and the checkpoint have grown by every prefix's hits, in order. Every prefix is marked completed, and the progress has grown by the queue length |
| VHostEnum.ScanVHosts | hawkshot/modules/vhost_enum.py:161-236 | On resume with a matching "vhost" checkpoint, only its remaining prefixes are drained and the results start from its found results. Otherwise a fresh state or none is used and every prefix is drained. A checkpoint that is loaded but not resumed (no resume, or another module or target) is left unchanged |
| VHostEnum.RunVHostEnum | hawkshot/modules/vhost_enum.py:138-256 | A missing base host, an unreadable wordlist or a failed baseline gives no results, no state and an untouched checkpoint. Otherwise it behaves as `ScanVHosts`. A checkpoint that is loaded but not resumed (no resume, or another module or target) is left unchanged |
| DnsEnum.AnswerRecords | hawkshot/modules/dns_enum.py:58-64 | One record per answer |
| DnsEnum.AnswerRecordAt | hawkshot/modules/dns_enum.py:58-59 | The k-th record is the formatted k-th answer, tagged with the host and the record type |
| DnsEnum.TypeRecords | hawkshot/modules/dns_enum.py:56-76 | A failed query gives nothing; answers give one record each |
| DnsEnum.RecordsAppend | hawkshot/modules/dns_enum.py:55-76 | The record types are queried in order, and their records follow one another |
| DnsEnum.FailureSkipsOnlyThatType | hawkshot/modules/dns_enum.py:65-76 | A type whose query raises contributes nothing, and the other types are still queried |
| DnsEnum.RecordsCount | hawkshot/modules/dns_enum.py:55-64 | A host's record count is the sum of its answer counts |
| DnsEnum.RecordsShape | hawkshot/modules/dns_enum.py:53-64 | Every record of a host names that host and one of the queried types |
| DnsEnum.GatheredShape | hawkshot/modules/dns_enum.py:47-64 | Every result of a drain is a record of `word + "." + target` for some queued word and a queried type |
| DnsEnum.SubdomainsMembers | hawkshot/modules/dns_enum.py:191 | A name is counted iff some DNS record of the results names it |
| DnsEnum.SubdomainsCount | hawkshot/modules/dns_enum.py:191-194 | There are never more unique names than records |
| DnsEnum.AddAnswers | hawkshot/modules/dns_enum.py:57-64 | The answer loop appends exactly the type's records to the results and the checkpoint; the completed list is untouched |
| DnsEnum.QueryTypes | hawkshot/modules/dns_enum.py:55-76 | The record-type loop appends exactly the host's records, type after type |
| DnsEnum.DnsStep | hawkshot/modules/dns_enum.py:47-88 | One dequeued word is resolved for every type, its records appended, the word marked completed and the progress advanced by one |
| DnsEnum.DnsWorker | hawkshot/modules/dns_enum.py:47-88 | After the drain, the results and the checkpoint have grown by every word's records, in queue order. Every word is marked completed, and the progress has grown by the queue length |
| DnsEnum.ScanSubdomains | hawkshot/modules/dns_enum.py:113-188 | On resume with a matching "dns" checkpoint, only its remaining words are drained on top of its found results. Otherwise a fresh state (`total_items` = word count) or none is used and every word is drained. A checkpoint that is loaded but not resumed (no resume, or another module or target) is left unchanged |
| DnsEnum.RunDnsEnum | hawkshot/modules/dns_enum.py:103-217 | An unreadable wordlist gives nothing and leaves the checkpoint unchanged. Otherwise it behaves as `ScanSubdomains`. A checkpoint that is loaded but not resumed (no resume, or another module or target) is left unchanged. The unique-name count is that of the results and at most the record count. The state file is never removed |

## Left out

- Threads, `queue.Queue`, `task_done`/`join` and locks are left out: the drain is one sequential loop. The claim that the results do not depend on the thread count is beyond this model; `Config.GatheredPermutation` and `Output.ExportOrderIndependent` cover only the drain order.
- Network calls (`requests` sessions, `dns.resolver`, `get_baseline_response`) are function parameters. A call is deterministic for a given request. The user agent, SSL verification, timeouts and redirect following are not modelled.
- Exceptions from the network are a failure variant that only feeds debug logging. Logging, colours and the console (`Logger`, colorama) are not modelled.
- File I/O is left out: opening the wordlist, decoding errors (`errors='ignore'`), `ScanState.save`/`load` as JSON, `os.path.exists`/`os.remove`, `validate_wordlist` and `validate_output`. The wordlist is its text; the loaded checkpoint is a `ScanState?`.
- The JSON branch of `save_results`, its error handling and its return value are not modelled. The `save_results` calls at the end of each scan are not modelled either; the text export is a separate method.
- Saving the checkpoint on `KeyboardInterrupt` is not modelled.
- `validate_delay` and `time.sleep(delay)` are left out because they use floating point.
- Timestamps (`started_at`, `last_updated`, the export date) are left out; the export date is a parameter.
- `hawkshot/modules/tech_detect.py` and `hawkshot/cli.py` are not part of this model, except `format_tech_result`. Neither are `setup.py` or `hawkshot.py`.
- A restored DNS checkpoint is assumed to hold the results the model gives it. No check is made on what kind of results they are.
- Output.Percent: exact integer truncation of `current·100/total`. The source computes `int(current/total*100)` in floating point, which can be one lower (29 of 100 gives 28).
- VHostEnum.IsHit: the 10% test is `10·|length − base| > base` over integers. The source compares with `base * 0.1` in floating point; the two agree for lengths in any practical range.
- Text.Lower: maps ASCII letters only. Python's `lower()` also maps non-ASCII letters.
- Text.Upper: maps ASCII letters only. Python's `upper()` also maps non-ASCII letters.
- Validators.ValidateRecordTypes: upper-cases with `Text.Upper`, which maps ASCII letters only. Python's `upper()` also maps some non-ASCII letters to ASCII ones, so the source accepts a type such as "nſ" (it becomes "NS") that the model rejects.
- Text.ParseInt: reads ASCII digits only. Python's `int()` also accepts other Unicode decimal digits.
- Config.ResumeComplete: requires the checkpoint's results to be what its completed candidates gather, and both lists to be free of duplicates. The source does not check either.
