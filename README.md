# Access-log reporter, modelled in Dafny

This project models the core of `src/log_reporter.js`, an access-log aggregator.

A `LogReporter` receives log lines one at a time. Each line goes through `#process_line`:
- the line counter always goes up by one;
- the line is run through the `LOGLINE` pattern;
- a line without a match, or without both an `IP` and a `URL` capture, is recorded in `errors` with its 0-based arrival index;
- any other line increments its URL in the URL-hits map and its IP in the IP-requests map (`#inc`: insert 0 if absent, then add one), and emits a `progress` event.

`calc_specified_stats` then reads the reporter. It reports:
- the number of distinct IPs;
- the three most visited URLs;
- the three most active IPs.

Each list is the map's entries, sorted by count in descending order, cut after three entries and relabelled.

Modules:
- `LogLine` (`log_line.dfy`): the result of `LOGLINE.exec(line)` and the checks `#process_line` applies to it (`Parse`).
  - The regular-expression engine is not re-implemented. The class takes it as a parameter `logline: string -> Exec`.
  - `SoundLogLineEngine` states the one part of the pattern the model relies on: a match captures an IP of the shape `d{1,3}.d{1,3}.d{1,3}.d{1,3}` somewhere in the line.
- `Counts` (`counts.dfy`): `Inc`, the corrected `#inc` (see Findings), which the reporter uses, and `Histogram`, which folds `Inc` over a sequence of keys and is the reference value of a count map. `Total` is the sum of a map's counts. The module also holds the as-written behaviour of `#inc` on a plain JavaScript object (see Findings).
- `Reporter` (`log_reporter.dfy`): the `LogReporter` class.
  - Its fields are those of the source.
  - The ghost field `progressCount` counts `progress` events, and the ghost field `received` is the history of lines.
  - `Step` is the effect of one line and `Replay` the effect of a history. The class invariant `Valid()` says the fields are the replay of `received`.
  - `ReplaySummary` characterises a replay independently, through the records of the lines that parse (`Accepted`) and the errors of those that do not (`Rejected`).
- `Ranking` (`ranking.dfy`): `Object.entries(map).sort(by count, descending).splice(0, 3)`.
  - The order in which `Object.entries` lists a map is a parameter: any sequence satisfying `IsEnumeration`.
  - The sort is an insertion sort that keeps equal counts in their enumeration order.
- `SpecifiedStats` (`specified_stats.dfy`): `calc_specified_stats`, and the first two reporter scenarios of `test/main.js`.

`LOGLINE` is not anchored, so `SoundLogLineEngine` only asks that the IP capture occur somewhere in the line (`OccursIn`).

## Model

| member | source | states |
|---|---|---|
| LogLine.Parse | src/log_reporter.js:80-89 | A line parses exactly when the pattern matched, the groups object exists, and both the `IP` and `URL` captures are defined and non-empty (JavaScript truthiness). The record then carries exactly those two captures. |
| LogLine.IpShapeStartsWithDigit | src/log_reporter.js:44 | A string of the `IP` sub-pattern's shape is at least seven characters long and starts with a digit. |
| LogLine.IpInLineHasDigit | src/log_reporter.js:44-48 | A line that contains an IP-shaped piece contains a digit. |
| LogLine.NoDigitNoMatch | src/log_reporter.js:44-48 | An engine running `LOGLINE` cannot match a line that has no digit, so such a line never parses. |
| LogLine.RepresentativeIpShape | test/main.js:7 | `177.71.128.21` has the shape of the `IP` sub-pattern. |
| Counts.Inc | src/log_reporter.js:97-100 | The key is present afterwards with its old count plus one (from 0 when it was absent). Every other key keeps its count, and no other key appears. |
| Counts.TotalInc | src/log_reporter.js:97-100 | Every `#inc` adds exactly one to the sum of a map's counts. |
| Counts.HistogramTotal | src/log_reporter.js:91-100 | Incrementing the keys of a sequence one by one gives counts that sum to the sequence's length. |
| Counts.HistogramCounts | src/log_reporter.js:91-100 | The map built by `#inc` over a sequence has exactly the sequence's distinct keys. Each key's count is its number of occurrences. |
| Counts.HistogramSize | src/log_reporter.js:109-111 | The number of keys of that map is the number of distinct elements of the sequence. |
| Counts.HistogramSnoc | src/log_reporter.js:97-100 | One more key in the sequence is one more `#inc` on the map. |
| Counts.IncAsWritten | src/log_reporter.js:97-100 | `#inc` on a plain object as written changes no key but the one it is given, and adds no other key. |
| Counts.IncAsWrittenAgrees | src/log_reporter.js:97-100 | For a key that is not an inherited property name, `#inc` as written coincides with `Inc`. |
| Counts.InheritedKeyCounts | src/log_reporter.js:97-100 | As written, a first `constructor` is counted as NaN and a `__proto__` is not counted at all. `Inc` counts both as 1. |
| Reporter.Step | src/log_reporter.js:77-95 | The effect of `#process_line` on the accumulators: the line counter goes up by one, and the line is accounted for exactly once, as one progress event or as one error. |
| Reporter.StepEffect | src/log_reporter.js:77-95 | One line always adds one to the line counter. A line that does not parse appends one error with the counter's previous value and changes nothing else. A line that parses increments its URL and its IP by one, leaves every other key and the errors unchanged, and emits one progress event. |
| Reporter.ReplaySnoc | src/log_reporter.js:77-95 | The effect of a history with one more line is one more `#process_line` step. |
| Reporter.AcceptedSnoc | src/log_reporter.js:80-92 | One more line adds its record to the accepted records when it parses, and otherwise adds its error, with its index, to the rejected lines. |
| Reporter.HistogramsSnoc | src/log_reporter.js:91-92 | One more accepted record is one `#inc` of its URL and one of its IP. |
| Reporter.AcceptedRejectedPartition | src/log_reporter.js:78-92 | Every line received is either accepted or rejected, and none is both. |
| Reporter.RejectedIndices | src/log_reporter.js:78-88 | Each error names a received line that does not parse, by its arrival index. The indices are strictly increasing. |
| Reporter.AcceptedFromLines | src/log_reporter.js:86-92 | Every accepted record is the parse of some received line. |
| Reporter.ReplayLines | src/log_reporter.js:78-79 | After a history, the line counter is the number of lines received. |
| Reporter.ReplayErrors | src/log_reporter.js:78-89 | After a history, the errors are exactly the rejected lines, in arrival order, with their indices. |
| Reporter.ReplayHits | src/log_reporter.js:91-94 | After a history, there is one progress event per accepted line. The two maps count the URLs and the IPs of the accepted lines. |
| Reporter.ReplaySummary | src/log_reporter.js:77-95 | The reporter's state after a history is determined by which lines parse: counter, both maps, errors and progress count together. |
| Reporter.LogReporter.constructor | src/log_reporter.js:56-59 | A new reporter has counted nothing: counter 0, empty maps, no errors, no progress events. |
| Reporter.LogReporter.ProcessLine | src/log_reporter.js:77-95 | `#process_line` keeps the class invariant (the fields are the replay of all lines received). Its new state is one `Step` from the old one. |
| Reporter.LogReporter.NUniqueIpAddresses | src/log_reporter.js:109-111 | The number of IP keys is the number of distinct IPs among the lines that parsed. |
| Reporter.IpKeysNotInherited | src/log_reporter.js:97-100 | No IP-shaped key is an inherited property name, so `#inc` as written counts IPs correctly. |
| Reporter.ReporterHistograms | src/log_reporter.js:91-100 | In a valid reporter, each map is the count, per URL or per IP, of the received lines that parsed. |
| Reporter.ReporterInvariants | src/log_reporter.js:77-95 | After any sequence of lines: the counter equals lines received, which equals progress events plus errors. Both maps sum to the number of progress events. Error indices are below the counter, point at their lines, and strictly increase. The key sets are the URLs and the IPs of the accepted lines. |
| Ranking.Insert | src/log_reporter.js:139 | Inserting adds exactly the new entry: one more element, the same multiset plus the entry. |
| Ranking.InsertDescending | src/log_reporter.js:139 | Inserting into a sequence sorted by count, descending, keeps it sorted. |
| Ranking.SortDescending | src/log_reporter.js:139 | The sort returns a permutation of its input, ordered by count, descending. |
| Ranking.TopThree | src/log_reporter.js:139-140 | `.sort(...).splice(0, 3)`: the sorted entries cut after `min(3, n)` of them. Its ordering, membership and top-ness are stated by `TopThreeProperties`. |
| Ranking.PrefixBoundsRest | src/log_reporter.js:140 | Cutting a sorted sequence leaves behind only entries counting no more than the last one kept. |
| Ranking.TopThreeProperties | src/log_reporter.js:138-140 | The list has `min(3, n)` entries, in descending order, all drawn from the input. Every entry left out counts no more than the last one listed. |
| Ranking.TopThreeEntries | src/log_reporter.js:138-140 | Every listed entry is a key of the map paired with its own count. |
| Ranking.EnumerationSize | src/log_reporter.js:138 | `Object.entries` of a map has one entry per key. |
| Ranking.TopThreeOfMap | src/log_reporter.js:138-146 | Whatever the enumeration order, the list has `min(3, number of keys)` entries with non-increasing counts. Each entry is a distinct key of the map with its count, and every unlisted key counts no more than the last listed. |
| Ranking.TopCountsIndependentOfOrder | src/log_reporter.js:139-140 | Two enumerations of the same map give the same counts at every position of the list. Only ties can be broken differently. |
| SpecifiedStats.AsUrlHits | src/log_reporter.js:141 | Relabelling entries as `{url, n_hits}` loses nothing: the entries can be read back. |
| SpecifiedStats.AsIpRequests | src/log_reporter.js:146 | Relabelling entries as `{ip, n_requests}` loses nothing: the entries can be read back. |
| SpecifiedStats.CalcSpecifiedStats | src/log_reporter.js:133-149 | The distinct-IP count is the number of IP keys, and each list is a top three of its map. The reporter is only read. |
| SpecifiedStats.EnumerationExists | src/log_reporter.js:138 | Every map has an enumeration, so the statistics can be computed for every reporter. |
| SpecifiedStats.UrlCountsIndependentOfOrder | src/log_reporter.js:138-141 | The hit counts of the URL list do not depend on the enumeration order. |
| SpecifiedStats.IpCountsIndependentOfOrder | src/log_reporter.js:143-146 | The request counts of the IP list do not depend on the enumeration order. |
| SpecifiedStats.StatsCountsIndependentOfOrder | src/log_reporter.js:133-148 | Two calls on an unchanged reporter report the same number of distinct IPs, lists of the same lengths, and the same counts at every position. |
| SpecifiedStats.UrlListOfHistory | src/log_reporter.js:138-141 | Each listed URL occurs in a parsed line. Its hit count is its number of occurrences among the parsed lines. |
| SpecifiedStats.IpListOfHistory | src/log_reporter.js:143-146 | Each listed IP occurs in a parsed line. Its request count is its number of occurrences among the parsed lines. |
| SpecifiedStats.StatsOfHistory | src/log_reporter.js:133-149 | In terms of the lines received: the distinct-IP count is the number of distinct IPs of the parsed lines, and every listed count is a number of occurrences among them. |
| SpecifiedStats.RepresentativeMatchPlausible | test/main.js:7 | The captures assumed for the representative line are consistent with `LOGLINE`: the IP is IP-shaped and is where the line starts. |
| SpecifiedStats.RepresentativeLineScenario | test/main.js:5-25 | Given an engine that returns the line's `IP` and `URL` captures (`177.71.128.21`, `/intranet-analytics/`), the representative line gives no error and one line processed. It gives one distinct IP, `[{url: "/intranet-analytics/", n_hits: 1}]` and `[{ip: "177.71.128.21", n_requests: 1}]`. |
| SpecifiedStats.BadlyFormattedLineScenario | test/main.js:28-49 | With any engine running `LOGLINE`, `"I am a badly formatted line"` gives `errors == [{line, line_idx: 0}]`, one line processed, and no progress event. |

## Left out

- The line sources `mkStreamFromArray` and `mkStreamFromFile` (src/log_reporter.js:10-38) are Node stream and file I/O. The model's input is the sequence of lines they deliver.
- The `EventEmitter` wiring in the constructor (src/log_reporter.js:61-73) only forwards `end` and `error` from the stream. It is not modelled. The `progress` event is the ghost counter `progressCount`; listeners are not modelled.
- The ECMAScript semantics of `LOGLINE` (src/log_reporter.js:44-48) are not re-implemented: backtracking, the case-insensitive flag, `[A-z]`, the unescaped dots. The engine is a parameter. The only promise stated about it is `SoundLogLineEngine`.
- The order of `Object.entries` is a parameter (`IsEnumeration`). In a JavaScript engine, keys that look like array indices (a URL such as `42` can be one) come first in ascending numeric order, and the other keys follow in insertion order. The model does not record either order; any enumeration is allowed, so which of several equally counted keys is listed is not fixed. `TopCountsIndependentOfOrder` shows that the counts themselves do not depend on it.
- `Array.prototype.sort` is modelled as a stable insertion sort. The engine's own algorithm is not modelled.
- The getters `lines_processed`, `url_hit_counts`, `ip_address_requests` and `errors` (src/log_reporter.js:104-126) are the fields themselves. The aliasing the source warns about (returning the live map or list) is not modelled.
- Reporter.LogReporter.ProcessLine: the class runs the corrected `Inc`, not `#inc` as written. For a URL named like an `Object.prototype` property (`constructor`, `__proto__`, ...), the URL-map contracts (`ReplayHits`, `ReporterHistograms`, `ReporterInvariants`, `StatsOfHistory`) describe the intended count, not what the source stores (NaN, or nothing); see Findings. IP keys are not affected (`IpKeysNotInherited`).
- Counts.Inc: the map is a value that `ProcessLine` reassigns, not an object updated in place through a reference.
- Counts.Inc: JavaScript numbers are doubles. Counts are unbounded naturals, so loss of precision past 2^53 increments is not modelled.
- Counts.IncAsWritten: only the values a count can take (a number or NaN) are modelled. How `sort` orders a NaN count is not.
- The data-file scenarios of test/main.js:51-86 need `programming-task-example-data.log`, which is not part of this model.
- `src/main.js` (process entry point and console output) is not part of this model.

## Findings

| source | as written | input that shows it | evidently intended | confidence | as-written member | corrected member |
|---|---|---|---|---|---|---|
| src/log_reporter.js:97-100 | `map[key] === undefined` on a plain `{}` also sees the properties inherited from `Object.prototype`. The URL `constructor` is then counted as NaN, and `__proto__` is not counted at all, so the hit counts no longer sum to the number of parsed lines. | a line `1.2.3.4 - - [t] "GET constructor HTTP/1.1"` or `1.2.3.4 - - [t] "GET __proto__ HTTP/1.1"` | count every URL from 0 to 1 like any other key | not executed; high | Counts.IncAsWritten, Counts.InheritedKeyCounts | Counts.Inc, Counts.TotalInc |
